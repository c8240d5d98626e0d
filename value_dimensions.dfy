/**
 * evaluate_value_dimensions: the five value dimensions of a table.
 * Completeness is one minus the mean of the columns' missing shares,
 * accuracy scores numeric columns by their non-outlier share and every other
 * column by its share of present cells, consistency penalises object columns
 * whose rendered values vary in length (the coefficient of variation of the
 * lengths), usability weighs the three with a bonus for a non-empty table,
 * and timeliness keeps the 0 it starts with.
 */
module Dimensions {
  import opened Wrappers
  import opened Numbers
  import opened Frames
  import opened Statistics
  import opened Accuracy
  import opened Reports

  /** `df.isna().mean()`: each column's share of missing cells. */
  function NullShares(cols: seq<Column>): (shares: seq<real>)
    ensures |shares| == |cols|
  {
    seq(|cols|, i requires 0 <= i < |cols| => Frac(NullCount(cols[i].cells), |cols[i].cells|))
  }

  /** `round((1 - df.isna().mean().mean()) * 100, 2)`; a table without
      columns (NaN in pandas) scores 100. */
  function CompletenessDimension(t: Table): (score: real)
    ensures 0.0 <= score <= 100.0
  {
    var shares := NullShares(t.columns);
    if shares == [] then 100.0
    else
      SharesAreFractions(t.columns);
      MeanBounds(shares, 0.0, 1.0);
      Round2Percent((1.0 - Mean(shares)) * 100.0);
      Round2((1.0 - Mean(shares)) * 100.0)
  }

  lemma SharesAreFractions(cols: seq<Column>)
    ensures Within(NullShares(cols), 0.0, 1.0)
  {
    forall i | 0 <= i < |cols|
      ensures 0.0 <= NullShares(cols)[i] <= 1.0
    {
      FracUnit(NullCount(cols[i].cells), |cols[i].cells|);
    }
  }

  /** One column's accuracy: numeric columns by their non-outlier share,
      every other column by its share of present cells. */
  function AccuracyScore(c: Column): (score: real)
    ensures 0.0 <= score <= 100.0
  {
    if IsNumber(c.dtype) then OutlierScore(c.cells)
    else
      PercentBounds(PresentCount(c.cells), |c.cells|);
      Percent(PresentCount(c.cells), |c.cells|)
  }

  function AccuracyScores(cols: seq<Column>): (scores: seq<real>)
    ensures |scores| == |cols|
  {
    seq(|cols|, i requires 0 <= i < |cols| => AccuracyScore(cols[i]))
  }

  /** The rounded mean of the column scores, 50 without columns. */
  function AccuracyDimension(t: Table): (score: real)
    ensures 0.0 <= score <= 100.0
  {
    var scores := AccuracyScores(t.columns);
    if scores == [] then 50.0
    else
      RoundedMeanPercent(scores);
      Round2(Mean(scores))
  }

  /** `col.astype(str).str.len()` */
  function Lengths(rt: Runtime, cells: seq<Cell>): (lens: seq<real>)
    ensures |lens| == |cells|
    ensures forall i :: 0 <= i < |lens| ==> lens[i] >= 0.0
  {
    seq(|cells|, i requires 0 <= i < |cells| => |rt.render(cells[i])| as real)
  }

  /** The square root never returns a negative number. */
  ghost predicate SqrtNonnegative(rt: Runtime)
  {
    forall x :: 0.0 <= x ==> 0.0 <= rt.sqrt(x)
  }

  /**
   * One column's consistency: an object column whose value lengths have a
   * positive standard deviation scores `max(0, 100 - std / mean * 100)`;
   * every other column scores 100. The mean is positive there, so the
   * division is defined.
   */
  function ConsistencyScore(rt: Runtime, c: Column): (score: real)
    ensures 0.0 <= score
    ensures SqrtNonnegative(rt) ==> score <= 100.0
  {
    if c.dtype == Object then
      var lens := Lengths(rt, c.cells);
      if |lens| >= 2 && SampleVariance(lens) > 0.0 then
        PositiveMean(lens);
        RatioNonnegative(rt, SampleVariance(lens), Mean(lens));
        Max(0.0, 100.0 - rt.sqrt(SampleVariance(lens)) / Mean(lens) * 100.0)
      else 100.0
    else 100.0
  }

  lemma RatioNonnegative(rt: Runtime, v: real, m: real)
    requires 0.0 <= v && 0.0 < m
    ensures SqrtNonnegative(rt) ==> 0.0 <= rt.sqrt(v) / m * 100.0
  {
  }

  function ConsistencyScores(rt: Runtime, cols: seq<Column>): (scores: seq<real>)
    ensures |scores| == |cols|
  {
    seq(|cols|, i requires 0 <= i < |cols| => ConsistencyScore(rt, cols[i]))
  }

  /** The rounded mean of the column scores, 100 without columns. */
  function ConsistencyDimension(rt: Runtime, t: Table): (score: real)
    ensures 0.0 <= score
    ensures SqrtNonnegative(rt) ==> score <= 100.0
  {
    var scores := ConsistencyScores(rt, t.columns);
    if scores == [] then 100.0
    else
      ConsistencyMeanBounds(rt, t.columns);
      Round2(Mean(scores))
  }

  lemma ConsistencyMeanBounds(rt: Runtime, cols: seq<Column>)
    requires cols != []
    ensures 0.0 <= Round2(Mean(ConsistencyScores(rt, cols)))
    ensures SqrtNonnegative(rt) ==> Round2(Mean(ConsistencyScores(rt, cols))) <= 100.0
  {
    var scores := ConsistencyScores(rt, cols);
    SumNonnegative(scores);
    Round2Monotone(0.0, Mean(scores));
    Round2OfHundredths(0);
    if SqrtNonnegative(rt) {
      RoundedMeanPercent(scores);
    }
  }

  /** Usability: 30% completeness, 30% accuracy, 20% consistency and 20%
      for having any rows at all. */
  function Usability(completeness: real, accuracy: real, consistency: real, rows: nat): real
  {
    Round2(completeness * 0.3 + accuracy * 0.3 + consistency * 0.2 + (if rows > 0 then 100.0 else 0.0) * 0.2)
  }

  /** What evaluate_value_dimensions returns. */
  function ValueDimensionsOf(rt: Runtime, t: Table): ValueDimensions
  {
    var completeness := CompletenessDimension(t);
    var accuracy := AccuracyDimension(t);
    var consistency := ConsistencyDimension(rt, t);
    ValueDimensions(completeness, accuracy, 0.0, consistency,
      Usability(completeness, accuracy, consistency, t.rows))
  }

  /** The accuracy loop, one score per column, and their rounded mean. */
  method EvaluateAccuracyDimension(t: Table) returns (accuracy: real)
    ensures accuracy == AccuracyDimension(t)
  {
    var accuracyScores: seq<real> := [];
    for i := 0 to |t.columns|
      invariant |accuracyScores| == i
      invariant forall j :: 0 <= j < i ==> accuracyScores[j] == AccuracyScore(t.columns[j])
    {
      var col := t.columns[i];
      if IsNumber(col.dtype) {
        accuracyScores := accuracyScores + [OutlierScore(col.cells)];
      } else {
        accuracyScores := accuracyScores + [Percent(PresentCount(col.cells), |col.cells|)];
      }
    }
    assert accuracyScores == AccuracyScores(t.columns);
    accuracy := if accuracyScores != [] then Round2(Sum(accuracyScores) / |accuracyScores| as real) else 50.0;
  }

  /** The consistency loop, one score per column, and their rounded mean. */
  method EvaluateConsistencyDimension(t: Table, rt: Runtime) returns (consistency: real)
    ensures consistency == ConsistencyDimension(rt, t)
  {
    var consistencyScores: seq<real> := [];
    for i := 0 to |t.columns|
      invariant |consistencyScores| == i
      invariant forall j :: 0 <= j < i ==> consistencyScores[j] == ConsistencyScore(rt, t.columns[j])
    {
      var col := t.columns[i];
      var score := 100.0;
      if col.dtype == Object {
        var strLens := Lengths(rt, col.cells);
        if |strLens| >= 2 && SampleVariance(strLens) > 0.0 {
          PositiveMean(strLens);
          var std := rt.sqrt(SampleVariance(strLens));
          score := Max(0.0, 100.0 - std / Mean(strLens) * 100.0);
        }
      }
      consistencyScores := consistencyScores + [score];
    }
    assert consistencyScores == ConsistencyScores(rt, t.columns);
    consistency := if consistencyScores != [] then Round2(Sum(consistencyScores) / |consistencyScores| as real) else 100.0;
  }

  /** The two loops, then the means and the weighted sum. */
  method EvaluateValueDimensions(t: Table, rt: Runtime) returns (dims: ValueDimensions)
    ensures dims == ValueDimensionsOf(rt, t)
  {
    var completeness := CompletenessDimension(t);
    var accuracy := EvaluateAccuracyDimension(t);
    var consistency := EvaluateConsistencyDimension(t, rt);
    var usability := completeness * 0.3 + accuracy * 0.3 + consistency * 0.2 + (if t.rows > 0 then 100.0 else 0.0) * 0.2;
    dims := ValueDimensions(completeness, accuracy, 0.0, consistency, Round2(usability));
  }

  /** Every dimension is a percentage (consistency given a non-negative
      square root), and timeliness is never filled in. */
  lemma ValueDimensionsBounds(rt: Runtime, t: Table)
    requires SqrtNonnegative(rt)
    ensures var d := ValueDimensionsOf(rt, t);
      && 0.0 <= d.completeness <= 100.0 && 0.0 <= d.accuracy <= 100.0
      && 0.0 <= d.consistency <= 100.0 && 0.0 <= d.usability <= 100.0
      && d.timeliness == 0.0
  {
    var d := ValueDimensionsOf(rt, t);
    UsabilityBounds(d.completeness, d.accuracy, d.consistency, t.rows);
  }

  /** Usability of percentages is a percentage; a table without rows loses
      the 20 points of the row bonus, so it scores at most 80. */
  lemma UsabilityBounds(c: real, a: real, s: real, rows: nat)
    requires 0.0 <= c <= 100.0 && 0.0 <= a <= 100.0 && 0.0 <= s <= 100.0
    ensures 0.0 <= Usability(c, a, s, rows) <= 100.0
    ensures rows == 0 ==> Usability(c, a, s, rows) <= 80.0
  {
    var u := c * 0.3 + a * 0.3 + s * 0.2 + (if rows > 0 then 100.0 else 0.0) * 0.2;
    Round2Percent(u);
    if rows == 0 {
      Round2Monotone(u, 80.0);
      Round2OfHundredths(8000);
    }
  }

  /** Full marks in the three measured dimensions and at least one row give
      full usability: the weights add up to one. */
  lemma FullUsability(rows: nat)
    requires rows > 0
    ensures Usability(100.0, 100.0, 100.0, rows) == 100.0
  {
    Round2OfHundredths(10000);
  }

  /** A table without missing cells is fully complete. */
  lemma NoMissingCellsComplete(t: Table)
    requires forall i :: 0 <= i < |t.columns| ==> NullCount(t.columns[i].cells) == 0
    ensures CompletenessDimension(t) == 100.0
  {
    var shares := NullShares(t.columns);
    if shares != [] {
      assert Within(shares, 0.0, 0.0);
      SumBounds(shares, 0.0, 0.0);
      assert Mean(shares) == 0.0;
      Round2OfHundredths(10000);
    }
  }

  /** The value accuracy never falls below the default accuracy: numeric
      columns score the same, blank strings only count against the default,
      and bool and category columns score 0 there but their present share
      here. */
  lemma DefaultAccuracyAtMostValueAccuracy(rt: Runtime, t: Table)
    ensures DefaultAccuracy(rt, t) <= AccuracyDimension(t)
  {
    var xs := DefaultColumnScores(rt, t.columns);
    var ys := AccuracyScores(t.columns);
    if xs != [] {
      forall i | 0 <= i < |xs|
        ensures xs[i] <= ys[i]
      {
        var c := t.columns[i];
        DefaultColumnScoreCases(rt, c);
        PercentBounds(PresentCount(c.cells), |c.cells|);
      }
      RoundedMeanMonotone(xs, ys);
    }
  }

  /** Without object columns every column is consistent. */
  lemma NoTextFullyConsistent(rt: Runtime, t: Table)
    requires forall i :: 0 <= i < |t.columns| ==> t.columns[i].dtype != Object
    ensures ConsistencyDimension(rt, t) == 100.0
  {
    var scores := ConsistencyScores(rt, t.columns);
    if scores != [] {
      RoundedMeanConstant(scores, 10000);
    }
  }

  /** An object column whose values all render to the same length is fully
      consistent. */
  lemma EqualLengthsConsistent(rt: Runtime, c: Column, k: nat)
    requires c.dtype == Object
    requires forall i :: 0 <= i < |c.cells| ==> |rt.render(c.cells[i])| == k
    ensures ConsistencyScore(rt, c) == 100.0
  {
    var lens := Lengths(rt, c.cells);
    if |lens| >= 2 {
      ConstantVariance(lens, k as real);
    }
  }

  lemma SharesStep(a: real, b: real, r: real)
    requires r > 0.0
    ensures a / r + b / r == (a + b) / r
  {
  }

  lemma MeanOfShares(total: real, r: real, c: real)
    requires r > 0.0 && c > 0.0
    ensures (total / r) / c == total / (c * r)
  {
  }

  /** The shares of columns of equal length add up to the table's missing
      cells over the row count. */
  lemma {:induction false} SumOfShares(cols: seq<Column>, rows: nat)
    requires rows > 0 && forall i :: 0 <= i < |cols| ==> |cols[i].cells| == rows
    ensures Sum(NullShares(cols)) == TableNullCount(cols) as real / rows as real
  {
    if cols != [] {
      var n := |cols| - 1;
      var init := cols[..n];
      assert NullShares(cols)[..n] == NullShares(init);
      SumOfShares(init, rows);
      SharesStep(TableNullCount(init) as real, NullCount(cols[n].cells) as real, rows as real);
    }
  }

  /** Since every column has one cell per row, the mean of the column shares
      is the table's share of missing cells. */
  lemma CastProduct(a: nat, b: nat)
    ensures (a * b) as real == a as real * b as real
  {
  }

  /** A quotient of a quotient: (k / r) / c is k / (c r). */
  lemma QuotientOfQuotient(sum: real, mean: real, k: real, r: real, c: real, n: real)
    requires r > 0.0 && c > 0.0 && n == c * r
    requires sum == k / r && mean == sum / c
    ensures mean == k / n
  {
    MeanOfShares(k, r, c);
  }

  lemma MeanShareIsCellShare(t: Table)
    requires t.columns != [] && t.rows > 0
    ensures Mean(NullShares(t.columns)) == Frac(TableNullCount(t.columns), |t.columns| * t.rows)
  {
    var shares := NullShares(t.columns);
    var k := TableNullCount(t.columns);
    var n := |t.columns| * t.rows;
    SumOfShares(t.columns, t.rows);
    CastProduct(|t.columns|, t.rows);
    QuotientOfQuotient(Sum(shares), Mean(shares), k as real, t.rows as real, |t.columns| as real, n as real);
  }

  lemma CompletenessIsCellShare(t: Table)
    requires t.columns != [] && t.rows > 0
    ensures CompletenessDimension(t) == Round2((1.0 - Frac(TableNullCount(t.columns), |t.columns| * t.rows)) * 100.0)
  {
    MeanShareIsCellShare(t);
  }
}
