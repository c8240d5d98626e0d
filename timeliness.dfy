/**
 * evaluate_timeliness: finds the columns that look like dates, takes the
 * newest date among them, and scores its age in whole days on a falling
 * step scale.
 */
module Timeliness {
  import opened Wrappers
  import opened Numbers
  import opened Strings
  import opened Frames

  const DateKeywords: seq<string> := ["date", "time", "day", "month", "year", "日期", "时间"]

  const SecondsPerDay: int := 86400

  /** `any(keyword in col.lower() for keyword in ...)` */
  predicate NameSuggestsDate(name: string)
  {
    exists i :: 0 <= i < |DateKeywords| && Contains(Lower(name), DateKeywords[i])
  }

  /** pd.to_datetime of one cell: a timestamp is its own instant, a missing
      cell is NaT, anything else is parsed. */
  function CellParse(rt: Runtime, c: Cell): DateParse
  {
    match c
    case None => NotATime
    case Some(Stamp(s)) => Instant(s)
    case Some(v) => rt.parseDate(v)
  }

  /** The same with errors='coerce': the instant, or None for NaT. */
  function CellDate(rt: Runtime, c: Cell): Option<int>
  {
    match CellParse(rt, c)
    case Instant(s) => Some(s)
    case _ => None
  }

  /** `pd.to_datetime(col, errors='raise')` succeeds: no cell fails to parse
      (a cell that parses to NaT does not raise). */
  predicate ParsesWhole(rt: Runtime, c: Column)
  {
    forall i :: 0 <= i < |c.cells| ==> !CellParse(rt, c.cells[i]).Unparsed?
  }

  /** What one column adds to date_columns: one copy per test it passes. */
  function Candidates(rt: Runtime, c: Column): seq<Column>
  {
    (if NameSuggestsDate(c.name) then [c] else [])
    + (if c.dtype.Datetime64? then [c] else [])
    + (if c.dtype.Object? && ParsesWhole(rt, c) then [c] else [])
  }

  function DateColumns(rt: Runtime, cols: seq<Column>): seq<Column>
  {
    if cols == [] then [] else DateColumns(rt, cols[..|cols| - 1]) + Candidates(rt, cols[|cols| - 1])
  }

  /** `pd.to_datetime(col, errors='coerce')` with the NaT cells dropped. */
  function Dates(rt: Runtime, cells: seq<Cell>): seq<int>
  {
    if cells == [] then []
    else
      var last := CellDate(rt, cells[|cells| - 1]);
      Dates(rt, cells[..|cells| - 1]) + (if last.Some? then [last.value] else [])
  }

  /** max() of a non-empty list: an element no smaller than any other. */
  function MaxOf(xs: seq<int>): (m: int)
    requires xs != []
    ensures m in xs
    ensures forall i :: 0 <= i < |xs| ==> xs[i] <= m
  {
    if |xs| == 1 then xs[0]
    else
      var m := MaxOf(xs[..|xs| - 1]);
      assert forall i :: 0 <= i < |xs| - 1 ==> xs[i] == xs[..|xs| - 1][i];
      if m < xs[|xs| - 1] then xs[|xs| - 1] else m
  }

  /** `dates.max()` of every date column with at least one date. */
  function LatestDates(rt: Runtime, cols: seq<Column>): seq<int>
  {
    if cols == [] then []
    else
      var ds := Dates(rt, cols[|cols| - 1].cells);
      LatestDates(rt, cols[..|cols| - 1]) + (if ds != [] then [MaxOf(ds)] else [])
  }

  /** `(now - most_recent).days`: whole days, rounded down. */
  function DaysSince(now: int, latest: int): int
  {
    (now - latest) / SecondsPerDay
  }

  /** The score for an age in days. */
  function StepScore(days: int): real
  {
    if days <= 1 then 100.0
    else if days <= 7 then 90.0
    else if days <= 30 then 80.0
    else if days <= 90 then 70.0
    else if days <= 180 then 60.0
    else if days <= 365 then 50.0
    else Max(10.0, 50.0 - (days - 365) as real / 100.0)
  }

  /** What evaluate_timeliness returns at local time `now`: 50 when no
      column looks like a date or none holds a date. */
  function TimelinessOf(rt: Runtime, cols: seq<Column>, now: int): real
  {
    var dateColumns := DateColumns(rt, cols);
    if dateColumns == [] then 50.0
    else
      var latest := LatestDates(rt, dateColumns);
      if latest == [] then 50.0 else StepScore(DaysSince(now, MaxOf(latest)))
  }

  /** The first loop of evaluate_timeliness. */
  method FindDateColumns(cols: seq<Column>, rt: Runtime) returns (dateColumns: seq<Column>)
    ensures dateColumns == DateColumns(rt, cols)
  {
    dateColumns := [];
    for i := 0 to |cols|
      invariant dateColumns == DateColumns(rt, cols[..i])
    {
      assert cols[..i + 1][..i] == cols[..i];
      var col := cols[i];
      ghost var before := dateColumns;
      if NameSuggestsDate(col.name) {
        dateColumns := dateColumns + [col];
      }
      if col.dtype.Datetime64? {
        dateColumns := dateColumns + [col];
      }
      if col.dtype.Object? && ParsesWhole(rt, col) {
        dateColumns := dateColumns + [col];
      }
      assert dateColumns == before + Candidates(rt, col);
    }
    assert cols[..|cols|] == cols;
  }

  /** The second loop: the newest date of each date column that has one. */
  method FindLatestDates(dateColumns: seq<Column>, rt: Runtime) returns (latestDates: seq<int>)
    ensures latestDates == LatestDates(rt, dateColumns)
  {
    latestDates := [];
    for i := 0 to |dateColumns|
      invariant latestDates == LatestDates(rt, dateColumns[..i])
    {
      assert dateColumns[..i + 1][..i] == dateColumns[..i];
      var dates := Dates(rt, dateColumns[i].cells);
      if dates != [] {
        latestDates := latestDates + [MaxOf(dates)];
      }
    }
    assert dateColumns[..|dateColumns|] == dateColumns;
  }

  method EvaluateTimeliness(t: Table, rt: Runtime, now: int) returns (score: real)
    ensures score == TimelinessOf(rt, t.columns, now)
  {
    var dateColumns := FindDateColumns(t.columns, rt);
    if dateColumns == [] {
      return 50.0;
    }
    var latestDates := FindLatestDates(dateColumns, rt);
    if latestDates == [] {
      return 50.0;
    }
    var mostRecent := MaxOf(latestDates);
    score := StepScore(DaysSince(now, mostRecent));
  }

  /** The step scale never rises as the data ages, and stays in [10, 100]. */
  lemma StepScoreAntitone(d1: int, d2: int)
    requires d1 <= d2
    ensures 10.0 <= StepScore(d2) <= StepScore(d1) <= 100.0
  {
  }

  /** Dates no older than a day, including dates in the future, score 100;
      400 days scores 49.65. */
  lemma StepScoreExamples(d: int)
    ensures d <= 1 ==> StepScore(d) == 100.0
    ensures StepScore(400) == 49.65
    ensures d >= 4365 ==> StepScore(d) == 10.0
  {
  }

  /** Every date of every date column is bounded by one of the latest
      dates. */
  lemma {:induction false} LatestDateAbove(rt: Runtime, cols: seq<Column>, i: nat, x: int) returns (y: int)
    requires i < |cols| && x in Dates(rt, cols[i].cells)
    ensures y in LatestDates(rt, cols) && x <= y
  {
    var n := |cols| - 1;
    var init := cols[..n];
    var ds := Dates(rt, cols[n].cells);
    assert LatestDates(rt, cols) == LatestDates(rt, init) + (if ds != [] then [MaxOf(ds)] else []);
    if i < n {
      assert init[i] == cols[i];
      y := LatestDateAbove(rt, init, i, x);
    } else {
      var j :| 0 <= j < |ds| && ds[j] == x;
      y := MaxOf(ds);
    }
  }

  /** Each latest date is a date of some date column. */
  lemma {:induction false} LatestDateSource(rt: Runtime, cols: seq<Column>, y: int) returns (i: nat)
    requires y in LatestDates(rt, cols)
    ensures i < |cols| && y in Dates(rt, cols[i].cells)
  {
    var n := |cols| - 1;
    var init := cols[..n];
    var ds := Dates(rt, cols[n].cells);
    assert LatestDates(rt, cols) == LatestDates(rt, init) + (if ds != [] then [MaxOf(ds)] else []);
    if y in LatestDates(rt, init) {
      i := LatestDateSource(rt, init, y);
      assert init[i] == cols[i];
    } else {
      i := n;
    }
  }

  /** The date that is scored is the newest parsed date of all the date
      columns. */
  lemma MostRecentIsNewestDate(rt: Runtime, cols: seq<Column>)
    requires LatestDates(rt, cols) != []
    ensures var m := MaxOf(LatestDates(rt, cols));
      && (forall i, x :: 0 <= i < |cols| && x in Dates(rt, cols[i].cells) ==> x <= m)
      && (exists i :: 0 <= i < |cols| && m in Dates(rt, cols[i].cells))
  {
    var ls := LatestDates(rt, cols);
    var m := MaxOf(ls);
    forall i, x | 0 <= i < |cols| && x in Dates(rt, cols[i].cells) ensures x <= m {
      var y := LatestDateAbove(rt, cols, i, x);
      var j :| 0 <= j < |ls| && ls[j] == y;
    }
    var k := LatestDateSource(rt, cols, m);
  }

  /** The score always lies in [10, 100]; with no date columns, or none
      holding a date, it is 50. */
  lemma TimelinessBounds(rt: Runtime, cols: seq<Column>, now: int)
    ensures 10.0 <= TimelinessOf(rt, cols, now) <= 100.0
    ensures LatestDates(rt, DateColumns(rt, cols)) == [] ==> TimelinessOf(rt, cols, now) == 50.0
  {
    StepScoreAntitone(1, 1);
    var days := if DateColumns(rt, cols) != [] && LatestDates(rt, DateColumns(rt, cols)) != []
      then DaysSince(now, MaxOf(LatestDates(rt, DateColumns(rt, cols)))) else 0;
    StepScoreAntitone(days, days);
  }

  /** A column is a date column when its name holds a date keyword, its
      dtype is datetime64, or it is an object column whose every value
      parses as a date. */
  lemma {:induction false} DateColumnIncluded(rt: Runtime, cols: seq<Column>, i: nat)
    requires i < |cols|
    requires NameSuggestsDate(cols[i].name) || cols[i].dtype.Datetime64? || (cols[i].dtype.Object? && ParsesWhole(rt, cols[i]))
    ensures cols[i] in DateColumns(rt, cols)
  {
    var n := |cols| - 1;
    var init := cols[..n];
    assert DateColumns(rt, cols) == DateColumns(rt, init) + Candidates(rt, cols[n]);
    if i < n {
      assert init[i] == cols[i];
      DateColumnIncluded(rt, init, i);
    } else {
      assert cols[n] in Candidates(rt, cols[n]);
    }
  }

  /** An object column of date text with one empty string is a date column:
      pd.to_datetime reads "" as NaT without raising, and coercion then
      drops it from the column's dates. */
  lemma BlankTextIsNaT(rt: Runtime, t: int)
    requires rt.parseDate(Text("2024-01-01")) == Instant(t) && rt.parseDate(Text("")) == NotATime
    ensures var c := Column("d", Object, [Some(Text("2024-01-01")), Some(Text(""))]);
      c in DateColumns(rt, [c]) && Dates(rt, c.cells) == [t]
  {
    var c := Column("d", Object, [Some(Text("2024-01-01")), Some(Text(""))]);
    assert ParsesWhole(rt, c);
    DateColumnIncluded(rt, [c], 0);
    var first := c.cells[..1];
    assert first[..0] == [] && c.cells[..|c.cells| - 1] == first;
    assert CellDate(rt, c.cells[0]) == Some(t) && CellDate(rt, c.cells[1]) == None;
    assert Dates(rt, first) == [t];
  }

  /** And only the table's own columns are date columns. */
  lemma {:induction false} DateColumnsFromTable(rt: Runtime, cols: seq<Column>, c: Column)
    requires c in DateColumns(rt, cols)
    ensures c in cols
  {
    var n := |cols| - 1;
    var init := cols[..n];
    assert DateColumns(rt, cols) == DateColumns(rt, init) + Candidates(rt, cols[n]);
    if c in DateColumns(rt, init) {
      DateColumnsFromTable(rt, init, c);
    }
  }
}
