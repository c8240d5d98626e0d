/**
 * evaluate_default_accuracy: the accuracy score of a run without rules.
 * Numeric columns are scored by their share of non-outliers, object columns
 * by their share of present non-blank cells, datetime columns by their share
 * of present cells, and every other column (bool, category, ...) scores 0.
 */
module Accuracy {
  import opened Wrappers
  import opened Numbers
  import opened Frames
  import opened Statistics

  /** One column's score; its cell count is the table's row count. */
  function DefaultColumnScore(rt: Runtime, c: Column): (score: real)
    ensures 0.0 <= score <= 100.0
  {
    var rows := |c.cells|;
    if IsNumber(c.dtype) then Max(0.0, OutlierScore(c.cells))
    else if c.dtype == Object then
      PercentBounds(Count(c.cells, FilledCell(rt)), rows);
      Percent(Count(c.cells, FilledCell(rt)), rows)
    else if c.dtype == Datetime64 then
      PercentBounds(PresentCount(c.cells), rows);
      Percent(PresentCount(c.cells), rows)
    else 0.0
  }

  function DefaultColumnScores(rt: Runtime, cols: seq<Column>): (scores: seq<real>)
    ensures |scores| == |cols|
  {
    seq(|cols|, i requires 0 <= i < |cols| => DefaultColumnScore(rt, cols[i]))
  }

  /** The rounded mean of the column scores, 50 for a table without columns. */
  function DefaultAccuracy(rt: Runtime, t: Table): (score: real)
    ensures 0.0 <= score <= 100.0
  {
    var scores := DefaultColumnScores(rt, t.columns);
    if scores == [] then 50.0
    else
      RoundedMeanPercent(scores);
      Round2(Mean(scores))
  }

  /** The loop over the columns, then the rounded mean. */
  method EvaluateDefaultAccuracy(t: Table, rt: Runtime) returns (score: real)
    ensures score == DefaultAccuracy(rt, t)
  {
    var accuracyScores: seq<real> := [];
    for i := 0 to |t.columns|
      invariant |accuracyScores| == i
      invariant forall j :: 0 <= j < i ==> accuracyScores[j] == DefaultColumnScore(rt, t.columns[j])
    {
      var colScore := DefaultColumnScore(rt, t.columns[i]);
      accuracyScores := accuracyScores + [colScore];
    }
    assert accuracyScores == DefaultColumnScores(rt, t.columns);
    if accuracyScores == [] {
      score := 50.0;
    } else {
      score := Round2(Sum(accuracyScores) / |accuracyScores| as real);
    }
  }

  /**
   * What each kind of column scores: a numeric column its non-outlier
   * share (the max(0, ...) never bites), an object column at most its share
   * of present cells and full marks exactly when it has rows and every cell
   * is filled, a datetime column full marks exactly when it has rows and no
   * missing cell, and any other column 0.
   */
  lemma DefaultColumnScoreCases(rt: Runtime, c: Column)
    ensures IsNumber(c.dtype) ==> DefaultColumnScore(rt, c) == OutlierScore(c.cells)
    ensures c.dtype == Object ==>
      && DefaultColumnScore(rt, c) <= Percent(PresentCount(c.cells), |c.cells|)
      && (DefaultColumnScore(rt, c) == 100.0 <==>
            |c.cells| > 0 && forall i :: 0 <= i < |c.cells| ==> Filled(rt, c.cells[i]))
    ensures c.dtype == Datetime64 ==>
      (DefaultColumnScore(rt, c) == 100.0 <==> |c.cells| > 0 && NullCount(c.cells) == 0)
    ensures !IsNumber(c.dtype) && c.dtype != Object && c.dtype != Datetime64 ==>
      DefaultColumnScore(rt, c) == 0.0
  {
    var rows := |c.cells|;
    if c.dtype == Object {
      var filled := Count(c.cells, FilledCell(rt));
      CountMonotone(c.cells, FilledCell(rt), IsPresent);
      FracMonotone(filled, PresentCount(c.cells), rows);
      CountAll(c.cells, FilledCell(rt));
      if rows > 0 {
        FracReachesOne(filled, rows);
      }
    } else if c.dtype == Datetime64 {
      NullsAndPresent(c.cells);
      if rows > 0 {
        FracReachesOne(PresentCount(c.cells), rows);
      }
    }
  }

  /** A numeric column with at most ten numbers always scores full marks:
      no value can lie three standard deviations from their mean. */
  lemma FewNumbersScoreFull(rt: Runtime, c: Column)
    requires IsNumber(c.dtype) && |NumericValues(c.cells)| <= 10
    ensures DefaultColumnScore(rt, c) == 100.0
  {
    FewValuesScoreFull(c.cells);
  }

  /** With every column at full marks the accuracy is 100. */
  lemma DefaultAccuracyFull(rt: Runtime, t: Table)
    requires t.columns != []
    requires forall i :: 0 <= i < |t.columns| ==> DefaultColumnScore(rt, t.columns[i]) == 100.0
    ensures DefaultAccuracy(rt, t) == 100.0
  {
    RoundedMeanConstant(DefaultColumnScores(rt, t.columns), 10000);
  }

  /** A table of bool (or category) columns only scores 0. */
  lemma UnscoredColumnsScoreZero(rt: Runtime, t: Table)
    requires t.columns != []
    requires forall i :: 0 <= i < |t.columns| ==>
      !IsNumber(t.columns[i].dtype) && t.columns[i].dtype != Object && t.columns[i].dtype != Datetime64
    ensures DefaultAccuracy(rt, t) == 0.0
  {
    RoundedMeanConstant(DefaultColumnScores(rt, t.columns), 0);
  }
}
