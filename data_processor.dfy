/**
 * analyze_data_quality: per-column completeness, uniqueness and
 * consistency, each dimension's rounded mean, and the rounded mean of the
 * three.
 */
module DataProcessor {
  import opened Wrappers
  import opened Numbers
  import opened Strings
  import opened Frames
  import opened Reports

  /** `round((1 - null_fraction) * 100, 2)` */
  function CompletenessOf(c: Column, rows: nat): real
  {
    Round2((1.0 - Frac(NullCount(c.cells), rows)) * 100.0)
  }

  /** `round(nunique / rows * 100, 2)`, 0 for a table without rows. */
  function UniquenessOf(c: Column, rows: nat): real
  {
    Round2(Frac(NUnique(c.cells), rows) * 100.0)
  }

  predicate IsFinite(v: Value)
  {
    !v.Infinity?
  }

  /** What counts as a valid value for consistency, by dtype: numbers must be
      present and finite, timestamps present, anything else present and not
      blank after strip(). */
  predicate ConsistentCell(rt: Runtime, d: DType, cell: Cell)
  {
    if IsNumber(d) then cell.Some? && IsFinite(cell.value)
    else if d == Datetime64 then cell.Some?
    else Filled(rt, cell)
  }

  function Consistent(rt: Runtime, d: DType): Cell -> bool
  {
    cell => ConsistentCell(rt, d, cell)
  }

  function ConsistencyOf(rt: Runtime, c: Column, rows: nat): real
  {
    Round2(Frac(Count(c.cells, Consistent(rt, c.dtype)), rows) * 100.0)
  }

  function CompletenessScores(cols: seq<Column>, rows: nat): seq<(string, real)>
  {
    seq(|cols|, i requires 0 <= i < |cols| => (cols[i].name, CompletenessOf(cols[i], rows)))
  }

  function UniquenessScores(cols: seq<Column>, rows: nat): seq<(string, real)>
  {
    seq(|cols|, i requires 0 <= i < |cols| => (cols[i].name, UniquenessOf(cols[i], rows)))
  }

  function ConsistencyScores(rt: Runtime, cols: seq<Column>, rows: nat): seq<(string, real)>
  {
    seq(|cols|, i requires 0 <= i < |cols| => (cols[i].name, ConsistencyOf(rt, cols[i], rows)))
  }

  function ScoreValues(ps: seq<(string, real)>): seq<real>
  {
    seq(|ps|, i requires 0 <= i < |ps| => ps[i].1)
  }

  function ScoreKeys(ps: seq<(string, real)>): seq<string>
  {
    seq(|ps|, i requires 0 <= i < |ps| => ps[i].0)
  }

  /** A dimension's column scores with their rounded mean. */
  function Dimension(ps: seq<(string, real)>): DimensionScores
    requires ps != []
  {
    DimensionScores(ps, Round2(Mean(ScoreValues(ps))))
  }

  /** What analyze_data_quality returns, or the ZeroDivisionError it raises
      on a table without columns. */
  function QualityAnalysis(t: Table, rt: Runtime): Result<QualityReport, string>
  {
    if t.columns == [] then Err("division by zero")
    else
      var completeness := Dimension(CompletenessScores(t.columns, t.rows));
      var uniqueness := Dimension(UniquenessScores(t.columns, t.rows));
      var consistency := Dimension(ConsistencyScores(rt, t.columns, t.rows));
      Ok(QualityReport(completeness, uniqueness, consistency,
        Round2(Mean([completeness.overall, uniqueness.overall, consistency.overall]))))
  }

  /** The completeness loop: one score per column, in column order. */
  method ScoreCompleteness(t: Table) returns (scores: seq<(string, real)>)
    ensures scores == CompletenessScores(t.columns, t.rows)
  {
    var cols := t.columns;
    scores := [];
    for i := 0 to |cols|
      invariant |scores| == i
      invariant forall k :: 0 <= k < i ==> scores[k] == (cols[k].name, CompletenessOf(cols[k], t.rows))
    {
      var nonNullRatio := 1.0 - Frac(NullCount(cols[i].cells), t.rows);
      scores := scores + [(cols[i].name, Round2(nonNullRatio * 100.0))];
    }
  }

  /** The uniqueness loop. */
  method ScoreUniqueness(t: Table) returns (scores: seq<(string, real)>)
    ensures scores == UniquenessScores(t.columns, t.rows)
  {
    var cols := t.columns;
    scores := [];
    for i := 0 to |cols|
      invariant |scores| == i
      invariant forall k :: 0 <= k < i ==> scores[k] == (cols[k].name, UniquenessOf(cols[k], t.rows))
    {
      var uniqueRatio := if t.rows > 0 then NUnique(cols[i].cells) as real / t.rows as real else 0.0;
      scores := scores + [(cols[i].name, Round2(uniqueRatio * 100.0))];
    }
  }

  /** The consistency loop. */
  method ScoreConsistency(t: Table, rt: Runtime) returns (scores: seq<(string, real)>)
    ensures scores == ConsistencyScores(rt, t.columns, t.rows)
  {
    var cols := t.columns;
    scores := [];
    for i := 0 to |cols|
      invariant |scores| == i
      invariant forall k :: 0 <= k < i ==> scores[k] == (cols[k].name, ConsistencyOf(rt, cols[k], t.rows))
    {
      var validRatio := Frac(Count(cols[i].cells, Consistent(rt, cols[i].dtype)), t.rows);
      scores := scores + [(cols[i].name, Round2(validRatio * 100.0))];
    }
  }

  /** analyze_data_quality: the three per-column passes, then the means. The
      keys of every dimension are the column names, in order. */
  method AnalyzeDataQuality(t: Table, rt: Runtime) returns (r: Result<QualityReport, string>)
    ensures r == QualityAnalysis(t, rt)
    ensures r.Ok? ==> ScoreKeys(r.value.completeness.columnScores) == Names(t.columns)
    ensures r.Ok? ==> ScoreKeys(r.value.uniqueness.columnScores) == Names(t.columns)
    ensures r.Ok? ==> ScoreKeys(r.value.consistency.columnScores) == Names(t.columns)
  {
    var completeness := ScoreCompleteness(t);
    var uniqueness := ScoreUniqueness(t);
    var consistency := ScoreConsistency(t, rt);
    if |completeness| == 0 {
      return Err("division by zero");
    }
    var c, u, k := Dimension(completeness), Dimension(uniqueness), Dimension(consistency);
    r := Ok(QualityReport(c, u, k, Round2(Mean([c.overall, u.overall, k.overall]))));
  }

  /** Completeness is the rounded share of present cells (for a table with
      rows), and lies in [0, 100]. */
  lemma CompletenessIsPresentShare(c: Column, rows: nat)
    requires |c.cells| == rows
    ensures rows > 0 ==> CompletenessOf(c, rows) == Round2(Percent(PresentCount(c.cells), rows))
    ensures 0.0 <= CompletenessOf(c, rows) <= 100.0
  {
    NullsAndPresent(c.cells);
    var n, p := NullCount(c.cells), PresentCount(c.cells);
    if rows > 0 {
      FracComplement(n, p, rows);
      PercentBounds(p, rows);
      Round2Percent(Percent(p, rows));
    } else {
      Round2Percent(100.0);
    }
  }

  lemma UniquenessBounds(c: Column, rows: nat)
    requires |c.cells| == rows
    ensures rows == 0 ==> UniquenessOf(c, rows) == 0.0
    ensures 0.0 <= UniquenessOf(c, rows) <= 100.0
  {
    NUniqueAtMostPresent(c.cells);
    FracUnit(NUnique(c.cells), rows);
    Round2Percent(Frac(NUnique(c.cells), rows) * 100.0);
  }

  /** In an object column True and 1 are one value to nunique: the column
      [True, 1] is 50% unique. */
  lemma TrueAndOneAreOneValue()
    ensures UniquenessOf(Column("a", Object, [Some(Flag(true)), Some(Num(1.0))]), 2) == 50.0
  {
    var cells: seq<Cell> := [Some(Flag(true)), Some(Num(1.0))];
    assert cells[..1][..0] == [] && cells[..1] == [Some(Flag(true))];
    assert Distinct(cells[..1]) == {Num(1.0)};
    assert Distinct(cells) == {Num(1.0)};
    assert Frac(1, 2) * 100.0 == 50.0;
    Round2OfHundredths(5000);
  }

  /** A consistent cell is a present cell, so a column's consistency never
      exceeds its completeness. */
  lemma ConsistencyAtMostCompleteness(rt: Runtime, c: Column, rows: nat)
    requires |c.cells| == rows
    ensures 0.0 <= ConsistencyOf(rt, c, rows) <= CompletenessOf(c, rows)
  {
    CountMonotone(c.cells, Consistent(rt, c.dtype), IsPresent);
    var v, p := Count(c.cells, Consistent(rt, c.dtype)), PresentCount(c.cells);
    FracUnit(v, rows);
    Round2Percent(Frac(v, rows) * 100.0);
    CompletenessIsPresentShare(c, rows);
    if rows > 0 {
      FracMonotone(v, p, rows);
      Round2Monotone(Frac(v, rows) * 100.0, Percent(p, rows));
    } else {
      Round2Monotone(0.0, 100.0);
    }
  }

  /** Completeness reaches 100 exactly when nothing is missing, provided the
      table has fewer than 20000 rows (beyond that, one missing cell in
      20000 rounds to 100). */
  lemma CompletenessFullIffNoNulls(c: Column, rows: nat)
    requires |c.cells| == rows && rows < 20000
    ensures CompletenessOf(c, rows) == 100.0 <==> NullCount(c.cells) == 0
  {
    var n := NullCount(c.cells);
    if n == 0 {
      assert Frac(n, rows) == 0.0;
      Round2OfHundredths(10000);
    } else {
      var r := rows as real;
      var x := (1.0 - Frac(n, rows)) * 100.0;
      assert Frac(n, rows) >= 1.0 / r;
      assert 1.0 / r > 1.0 / 20000.0;
      assert x < 100.0 - 100.0 / 20000.0;
      assert x * 100.0 + 0.5 < 10000.0;
      assert (x * 100.0 + 0.5).Floor <= 9999;
    }
  }

  /** With 20000 rows a single missing cell still rounds to 100. */
  lemma CompletenessRoundsUpAt20000(c: Column)
    requires |c.cells| == 20000 && NullCount(c.cells) == 1
    ensures CompletenessOf(c, 20000) == 100.0
  {
    var x := (1.0 - Frac(1, 20000)) * 100.0;
    assert x * 100.0 + 0.5 == 10000.0;
    Round2OfHundredths(10000);
  }

  /** Such a column exists: one missing cell followed by 19999 values. */
  lemma OneMissingIn20000Exists()
    ensures exists c: Column :: |c.cells| == 20000 && NullCount(c.cells) == 1
  {
    var rest: seq<Cell> := seq(19999, i => Some(Num(0.0)));
    var first: seq<Cell> := [None];
    CountZero(rest, IsNull);
    CountAppend(first, rest, IsNull);
    assert first[..0] == [];
    var c := Column("x", Float64, first + rest);
    assert NullCount(c.cells) == 1;
  }

  /** Every score the analysis reports is a percentage, each dimension has
      one score per column, and the overall score is the rounded mean of the
      three dimension scores. */
  lemma QualityAnalysisBounds(t: Table, rt: Runtime)
    ensures QualityAnalysis(t, rt).Err? <==> t.columns == []
    ensures QualityAnalysis(t, rt).Ok? ==>
      var q := QualityAnalysis(t, rt).value;
      && |q.completeness.columnScores| == |q.uniqueness.columnScores| == |q.consistency.columnScores| == |t.columns|
      && Within(ScoreValues(q.completeness.columnScores), 0.0, 100.0)
      && Within(ScoreValues(q.uniqueness.columnScores), 0.0, 100.0)
      && Within(ScoreValues(q.consistency.columnScores), 0.0, 100.0)
      && 0.0 <= q.completeness.overall <= 100.0
      && 0.0 <= q.uniqueness.overall <= 100.0
      && 0.0 <= q.consistency.overall <= 100.0
      && 0.0 <= q.overall <= 100.0
  {
    if t.columns != [] {
      var cols, rows := t.columns, t.rows;
      var cs := ScoreValues(CompletenessScores(cols, rows));
      var us := ScoreValues(UniquenessScores(cols, rows));
      var ks := ScoreValues(ConsistencyScores(rt, cols, rows));
      forall i | 0 <= i < |cols|
        ensures 0.0 <= cs[i] <= 100.0 && 0.0 <= us[i] <= 100.0 && 0.0 <= ks[i] <= 100.0
      {
        CompletenessIsPresentShare(cols[i], rows);
        UniquenessBounds(cols[i], rows);
        ConsistencyAtMostCompleteness(rt, cols[i], rows);
      }
      RoundedMeanPercent(cs);
      RoundedMeanPercent(us);
      RoundedMeanPercent(ks);
      var q := QualityAnalysis(t, rt).value;
      var overalls := [q.completeness.overall, q.uniqueness.overall, q.consistency.overall];
      assert Within(overalls, 0.0, 100.0);
      RoundedMeanPercent(overalls);
    }
  }
}
