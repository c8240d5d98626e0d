/**
 * apply_rule_condition: one rule's condition checked against one column.
 * Each condition counts the cells that satisfy it; the pass rate is that
 * count as a percentage of the rows, and the rule passes when the rate
 * reaches the rule's threshold (not_null, unique) or 95 (all others).
 */
module RuleCondition {
  import opened Wrappers
  import opened Numbers
  import opened Strings
  import opened Frames
  import opened Reports

  /** The rate every condition other than not_null and unique must reach. */
  const DefaultPassBar: real := 95.0

  /** A counted outcome: `pass_rate >= bar`, the rounded rate and the counts. */
  function Scored(valid: nat, total: nat, bar: real): (r: RuleOutcome)
    requires valid <= total
    ensures r.detail == Checked(valid, total)
    ensures 0.0 <= r.passRate <= 100.0
  {
    PercentBounds(valid, total);
    Round2Percent(Percent(valid, total));
    RuleOutcome(Percent(valid, total) >= bar, Round2(Percent(valid, total)), Checked(valid, total))
  }

  /** An error detail: the rule neither passes nor earns a rate. */
  function Failure(e: RuleError): RuleOutcome
  {
    RuleOutcome(false, 0.0, Failed(e))
  }

  /** not_null and unique: the threshold is float(value). */
  function Thresholded(valid: nat, total: nat, value: string): (r: RuleOutcome)
    requires valid <= total
    ensures 0.0 <= r.passRate <= 100.0
  {
    match ParseFloat(value)
    case None => Failure(ThresholdNotNumber)
    case Some(threshold) => Scored(valid, total, threshold)
  }

  function Counted(count: Result<nat, RuleError>, total: nat): (r: RuleOutcome)
    requires count.Ok? ==> count.value <= total
    ensures 0.0 <= r.passRate <= 100.0
  {
    match count
    case Err(e) => Failure(e)
    case Ok(valid) => Scored(valid, total, DefaultPassBar)
  }

  // range

  /** "min,max": exactly two comma-separated floats. */
  function RangeBounds(value: string): Option<(real, real)>
  {
    var parts := Split(value, ',');
    if |parts| != 2 then None
    else match (ParseFloat(parts[0]), ParseFloat(parts[1]))
      case (Some(lo), Some(hi)) => Some((lo, hi))
      case _ => None
  }

  /** A value that compares with a float: numbers, infinities and booleans
      (as 0 and 1). */
  predicate RangeComparable(c: Cell)
  {
    c.None? || c.value.Num? || c.value.Infinity? || c.value.Flag?
  }

  predicate Between(lo: real, hi: real, c: Cell)
  {
    match c
    case Some(Num(x)) => lo <= x <= hi
    case Some(Flag(b)) => lo <= (if b then 1.0 else 0.0) <= hi
    case _ => false
  }

  function InRange(lo: real, hi: real): Cell -> bool
  {
    c => Between(lo, hi, c)
  }

  /** `((col >= min) & (col <= max)).sum()`; comparing a float with a
      timestamp, a string or an unordered category raises. */
  function RangeCount(c: Column, value: string): Result<nat, RuleError>
  {
    match RangeBounds(value)
    case None => Err(InvalidRange)
    case Some((lo, hi)) =>
      if c.dtype.Datetime64? || c.dtype.Category? || c.dtype.OtherDType? then Err(InvalidRange)
      else if exists i :: 0 <= i < |c.cells| && !RangeComparable(c.cells[i]) then Err(InvalidRange)
      else Ok(Count(c.cells, InRange(lo, hi)))
  }

  // equals, not_equals, greater_than, less_than

  datatype Comparison = Equals | NotEquals | GreaterThan | LessThan

  function ComparisonOf(condition: string): Option<Comparison>
  {
    if condition == "equals" then Some(Equals)
    else if condition == "not_equals" then Some(NotEquals)
    else if condition == "greater_than" then Some(GreaterThan)
    else if condition == "less_than" then Some(LessThan)
    else None
  }

  predicate IsOrdering(op: Comparison)
  {
    op == GreaterThan || op == LessThan
  }

  /** Whether a cell satisfies `op`, given the sign of cell minus target, or
      None when the two are unordered or unequal by type (a missing cell is
      never equal, greater or less, and always "not equal"). */
  predicate Holds(op: Comparison, sign: Option<int>)
  {
    match op
    case Equals => sign == Some(0)
    case NotEquals => sign != Some(0)
    case GreaterThan => sign == Some(1)
    case LessThan => sign == Some(-1)
  }

  function RealSign(x: real, y: real): int
  {
    if x < y then -1 else if x > y then 1 else 0
  }

  function IntSign(x: int, y: int): int
  {
    if x < y then -1 else if x > y then 1 else 0
  }

  /** A number against a float; infinities lie beyond every float. */
  function NumSign(c: Cell, v: real): Option<int>
  {
    match c
    case Some(Num(x)) => Some(RealSign(x, v))
    case Some(Infinity(positive)) => Some(if positive then 1 else -1)
    case _ => None
  }

  /** A timestamp against the parsed rule value; NaT is unordered against
      everything, so only "not equal" holds for it. */
  function StampSign(c: Cell, t: DateParse): Option<int>
  {
    match c
    case Some(Stamp(s)) => if t.Instant? then Some(IntSign(s, t.seconds)) else None
    case _ => None
  }

  /** A string cell against the rule's string, in Python's string order;
      any other value is unequal to a string. */
  function TextCellSign(c: Cell, v: string): Option<int>
  {
    match c
    case Some(Text(s)) => Some(TextSign(s, v))
    case _ => None
  }

  function NumTest(op: Comparison, v: real): Cell -> bool
  {
    c => Holds(op, NumSign(c, v))
  }

  function StampTest(op: Comparison, t: DateParse): Cell -> bool
  {
    c => Holds(op, StampSign(c, t))
  }

  function TextTest(op: Comparison, v: string): Cell -> bool
  {
    c => Holds(op, TextCellSign(c, v))
  }

  predicate IsTextOrNull(c: Cell)
  {
    c.None? || c.value.Text?
  }

  /**
   * The comparison count. Int64 and Float64 columns (dtype kinds i and f)
   * compare with float(value); every other column compares with the string
   * itself: a timestamp column with the instant the string parses to, an
   * object column element by element, and anything else only for equality
   * (ordering a uint64, bool or category column against a string raises).
   */
  function CompareCount(c: Column, op: Comparison, value: string, rt: Runtime): Result<nat, RuleError>
  {
    if c.dtype.Int64? || c.dtype.Float64? then
      match ParseFloat(value)
      case None => Err(InvalidCompareValue)
      case Some(v) => Ok(Count(c.cells, NumTest(op, v)))
    else if c.dtype.Datetime64? && !rt.parseDate(Text(value)).Unparsed? then
      Ok(Count(c.cells, StampTest(op, rt.parseDate(Text(value)))))
    else if IsOrdering(op) && (!c.dtype.Object? || exists i :: 0 <= i < |c.cells| && !IsTextOrNull(c.cells[i])) then
      Err(InvalidCompareValue)
    else
      Ok(Count(c.cells, TextTest(op, value)))
  }

  // in_list, not_in_list

  /** `[v.strip() for v in value.split(',')]` */
  function ListItems(value: string): (items: seq<string>)
    ensures |items| == |Split(value, ',')|
  {
    var parts := Split(value, ',');
    seq(|parts|, i requires 0 <= i < |parts| => Strip(parts[i]))
  }

  /** The list items as dates (instants or NaT), when no item fails to
      parse as one. */
  function ListDates(rt: Runtime, items: seq<string>): (r: Option<seq<DateParse>>)
    ensures r.Some? ==> |r.value| == |items|
    ensures r.Some? ==> forall i :: 0 <= i < |items| ==> r.value[i] == rt.parseDate(Text(items[i]))
    ensures r.Some? <==> forall i :: 0 <= i < |items| ==> !rt.parseDate(Text(items[i])).Unparsed?
  {
    if items == [] then Some([])
    else
      var init := items[..|items| - 1];
      var last := rt.parseDate(Text(items[|items| - 1]));
      assert forall i :: 0 <= i < |init| ==> items[i] == init[i];
      match ListDates(rt, init)
      case Some(ds) =>
        if !last.Unparsed? then Some(ds + [last]) else None
      case None => None
  }

  /**
   * `isin(value_list)`. A string list matches the cells holding one of its
   * strings; on a datetime64 column whose list parses entirely, pandas
   * compares dates instead, and a NaT in the list matches the missing cells
   * (a list that does not parse is compared as objects, and a timestamp
   * never equals a string).
   */
  predicate Listed(c: Column, items: seq<string>, rt: Runtime, cell: Cell)
  {
    if c.dtype.Datetime64? && ListDates(rt, items).Some? then
      var ds := ListDates(rt, items).value;
      if cell.None? then NotATime in ds
      else cell.value.Stamp? && Instant(cell.value.seconds) in ds
    else
      cell.Some? && cell.value.Text? && cell.value.s in items
  }

  function InList(c: Column, items: seq<string>, rt: Runtime): Cell -> bool
  {
    cell => Listed(c, items, rt, cell)
  }

  function NotInList(c: Column, items: seq<string>, rt: Runtime): Cell -> bool
  {
    cell => !Listed(c, items, rt, cell)
  }

  // pattern

  /** `col.astype(str).str.match(pattern).sum()`; an invalid pattern raises. */
  function PatternCount(c: Column, pattern: string, rt: Runtime): Result<nat, RuleError>
  {
    match rt.compile(pattern)
    case None => Err(InvalidPattern)
    case Some(matcher) => Ok(Count(c.cells, cell => matcher(rt.render(cell))))
  }

  /** apply_rule_condition on a column of the table (the caller has checked
      that the column exists); `total_count` is the number of rows. */
  function ApplyRuleCondition(c: Column, condition: string, value: string, rt: Runtime): (r: RuleOutcome)
    ensures 0.0 <= r.passRate <= 100.0
    ensures r.detail.Failed? ==> !r.passed && r.passRate == 0.0
    ensures r.detail.Checked? ==> r.detail.total == |c.cells| && r.detail.valid <= r.detail.total
  {
    var total := |c.cells|;
    if condition == "not_null" then
      Thresholded(PresentCount(c.cells), total, value)
    else if condition == "unique" then
      NUniqueAtMostPresent(c.cells);
      Thresholded(NUnique(c.cells), total, value)
    else if condition == "range" then
      Counted(RangeCount(c, value), total)
    else if condition == "pattern" then
      Counted(PatternCount(c, value, rt), total)
    else if ComparisonOf(condition).Some? then
      Counted(CompareCount(c, ComparisonOf(condition).value, value, rt), total)
    else if condition == "in_list" then
      Scored(Count(c.cells, InList(c, ListItems(value), rt)), total, DefaultPassBar)
    else if condition == "not_in_list" then
      Scored(Count(c.cells, NotInList(c, ListItems(value), rt)), total, DefaultPassBar)
    else
      Failure(UnsupportedCondition(condition))
  }

  /** The rate a condition must reach: the rule's own threshold for not_null
      and unique, 95 for every other condition. */
  function PassBar(condition: string, value: string): real
  {
    if (condition == "not_null" || condition == "unique") && ParseFloat(value).Some? then ParseFloat(value).value
    else DefaultPassBar
  }

  /** A rule passes exactly when its cells were counted and the unrounded
      rate reaches the bar; the reported rate is that rate rounded, and it
      is 0 for a table without rows. */
  lemma PassedIffRateMeetsBar(c: Column, condition: string, value: string, rt: Runtime)
    ensures var r := ApplyRuleCondition(c, condition, value, rt);
      && (r.passed <==> r.detail.Checked? && Percent(r.detail.valid, r.detail.total) >= PassBar(condition, value))
      && (r.detail.Checked? ==> r.passRate == Round2(Percent(r.detail.valid, r.detail.total)))
      && (|c.cells| == 0 ==> r.passRate == 0.0)
  {
    var r := ApplyRuleCondition(c, condition, value, rt);
    if |c.cells| == 0 && r.detail.Checked? {
      assert Percent(r.detail.valid, 0) == 0.0;
      Round2OfHundredths(0);
    }
  }

  /** Conditions the rule engine does not know, and range values that are
      not two comma-separated numbers, end in an error detail. */
  lemma FailureCases(c: Column, condition: string, value: string, rt: Runtime)
    ensures condition !in ["not_null", "unique", "range", "pattern", "equals", "not_equals",
                           "greater_than", "less_than", "in_list", "not_in_list"]
      ==> ApplyRuleCondition(c, condition, value, rt) == Failure(UnsupportedCondition(condition))
    ensures condition == "range" && RangeBounds(value).None?
      ==> ApplyRuleCondition(c, condition, value, rt) == Failure(InvalidRange)
    ensures condition == "pattern" && rt.compile(value).None?
      ==> ApplyRuleCondition(c, condition, value, rt) == Failure(InvalidPattern)
    ensures (condition == "not_null" || condition == "unique") && ParseFloat(value).None?
      ==> ApplyRuleCondition(c, condition, value, rt) == Failure(ThresholdNotNumber)
  {
  }

  /** in_list and not_in_list split the rows between them. */
  lemma InListComplement(c: Column, value: string, rt: Runtime)
    ensures var inList := ApplyRuleCondition(c, "in_list", value, rt);
            var notInList := ApplyRuleCondition(c, "not_in_list", value, rt);
      && inList.detail.Checked? && notInList.detail.Checked?
      && inList.detail.valid + notInList.detail.valid == |c.cells|
  {
    var items := ListItems(value);
    CountPartition(c.cells, InList(c, items, rt), NotInList(c, items, rt));
  }

  /** in_list on a datetime64 column whose list parses entirely: every cell
      holding one of the listed instants matches, and so does every missing
      cell when the list holds a NaT (an empty item from a trailing comma),
      so a column of such cells scores 100 and passes. */
  lemma DatetimeInListFull(c: Column, value: string, rt: Runtime, ds: seq<DateParse>)
    requires c.dtype == Datetime64 && |c.cells| > 0
    requires ListDates(rt, ListItems(value)) == Some(ds)
    requires forall i :: 0 <= i < |c.cells| ==>
      if c.cells[i].None? then NotATime in ds
      else c.cells[i].value.Stamp? && Instant(c.cells[i].value.seconds) in ds
    ensures var r := ApplyRuleCondition(c, "in_list", value, rt);
      r.passed && r.passRate == 100.0 && r.detail == Checked(|c.cells|, |c.cells|)
  {
    var n := |c.cells|;
    CountAll(c.cells, InList(c, ListItems(value), rt));
    assert ApplyRuleCondition(c, "in_list", value, rt) == Scored(n, n, DefaultPassBar);
    FracUnit(n, n);
    FracReachesOne(n, n);
    Round2OfHundredths(10000);
  }

  /** Whenever equals and not_equals both count, they split the rows. */
  lemma EqualsComplement(c: Column, value: string, rt: Runtime)
    ensures var eq := ApplyRuleCondition(c, "equals", value, rt);
            var ne := ApplyRuleCondition(c, "not_equals", value, rt);
      && (eq.detail.Checked? <==> ne.detail.Checked?)
      && (eq.detail.Checked? ==> eq.detail.valid + ne.detail.valid == |c.cells|)
  {
    if c.dtype.Int64? || c.dtype.Float64? {
      if ParseFloat(value).Some? {
        var v := ParseFloat(value).value;
        CountPartition(c.cells, NumTest(Equals, v), NumTest(NotEquals, v));
      }
    } else if c.dtype.Datetime64? && !rt.parseDate(Text(value)).Unparsed? {
      var t := rt.parseDate(Text(value));
      CountPartition(c.cells, StampTest(Equals, t), StampTest(NotEquals, t));
    } else {
      CountPartition(c.cells, TextTest(Equals, value), TextTest(NotEquals, value));
    }
  }

  /** A datetime64 column compared with a value pandas reads as NaT: no
      error, no cell is equal, greater or less, and every cell is unequal. */
  lemma DatetimeCompareNaT(c: Column, value: string, rt: Runtime)
    requires c.dtype == Datetime64 && rt.parseDate(Text(value)) == NotATime
    ensures ApplyRuleCondition(c, "greater_than", value, rt).detail == Checked(0, |c.cells|)
    ensures ApplyRuleCondition(c, "less_than", value, rt).detail == Checked(0, |c.cells|)
    ensures ApplyRuleCondition(c, "equals", value, rt).detail == Checked(0, |c.cells|)
    ensures ApplyRuleCondition(c, "not_equals", value, rt).detail == Checked(|c.cells|, |c.cells|)
  {
    var unequal := StampTest(NotEquals, NotATime);
    CountAll(c.cells, unequal);
    CountPartition(c.cells, StampTest(GreaterThan, NotATime), unequal);
    CountPartition(c.cells, StampTest(LessThan, NotATime), unequal);
    CountPartition(c.cells, StampTest(Equals, NotATime), unequal);
  }

  lemma ParseHundred()
    ensures ParseFloat("100") == Some(100.0)
  {
    assert Strip("100") == "100";
    assert IndexOf("100", '.') == 3;
    assert "100"[..3] == "100";
    assert "100"[..2] == "10" && "10"[..1] == "1" && "1"[..0] == "";
    assert DigitsValue("100") == 100;
  }

  /** not_null with threshold 100 passes exactly when no cell is missing
      (on a table with rows). */
  lemma NotNullFullIffNoNulls(c: Column, rt: Runtime)
    requires |c.cells| > 0
    ensures ApplyRuleCondition(c, "not_null", "100", rt).passed <==> NullCount(c.cells) == 0
  {
    ParseHundred();
    var n := |c.cells|;
    var p := PresentCount(c.cells);
    assert ApplyRuleCondition(c, "not_null", "100", rt) == Scored(p, n, 100.0);
    NullsAndPresent(c.cells);
    FracReachesOne(p, n);
  }

  /** not_null with threshold 100 on [1, null, 3]: 66.67, failed. */
  lemma NotNullExample(rt: Runtime)
    ensures var r := ApplyRuleCondition(Column("x", Float64, [Some(Num(1.0)), None, Some(Num(3.0))]), "not_null", "100", rt);
      r == RuleOutcome(false, 66.67, Checked(2, 3))
  {
    var cells: seq<Cell> := [Some(Num(1.0)), None, Some(Num(3.0))];
    var c1, c2 := cells[..1], cells[..2];
    assert c1[..0] == [];
    assert Count(c1, IsPresent) == 1;
    assert c2[..1] == c1;
    assert Count(c2, IsPresent) == 1;
    assert PresentCount(cells) == 2;
    ParseHundred();
    var x := Percent(2, 3) * 100.0 + 0.5;
    assert 6667.0 <= x < 6668.0;
    assert x.Floor == 6667;
  }

  /** The range value "0,10". */
  lemma SplitZeroTen()
    ensures RangeBounds("0,10") == Some((0.0, 10.0))
  {
    assert Split("", ',') == [""];
    assert ['0'] + "" == "0";
    assert [""][1..] == [];
    assert "0"[1..] == "";
    assert Split("0", ',') == ["0"];
    assert "10"[1..] == "0";
    assert ['1'] + "0" == "10";
    assert ["0"][1..] == [];
    assert Split("10", ',') == ["10"];
    assert ",10"[1..] == "10";
    assert Split(",10", ',') == ["", "10"];
    assert "0,10"[1..] == ",10";
    assert ["", "10"][1..] == ["10"];
    assert ParseFloat("0") == Some(0.0) by {
      assert Strip("0") == "0";
      assert "0"[..1] == "0" && "0"[..0] == "";
    }
    assert ParseFloat("10") == Some(10.0) by {
      assert Strip("10") == "10";
      assert "10"[..2] == "10" && "10"[..1] == "1" && "1"[..0] == "";
    }
  }

  lemma InRangeCountExample()
    ensures Count([Some(Num(5.0)), Some(Num(15.0)), Some(Num(-2.0)), Some(Num(8.0))], InRange(0.0, 10.0)) == 2
  {
    var cells: seq<Cell> := [Some(Num(5.0)), Some(Num(15.0)), Some(Num(-2.0)), Some(Num(8.0))];
    var p := InRange(0.0, 10.0);
    var c1, c2, c3 := cells[..1], cells[..2], cells[..3];
    assert c1[..0] == [];
    assert Count(c1, p) == 1;
    assert c2[..1] == c1;
    assert Count(c2, p) == 1;
    assert c3[..2] == c2;
    assert Count(c3, p) == 1;
  }

  /** The count behind the range example: two of [5, 15, -2, 8] lie in
      [0, 10]. */
  lemma RangeCountExample()
    ensures RangeCount(Column("x", Int64, [Some(Num(5.0)), Some(Num(15.0)), Some(Num(-2.0)), Some(Num(8.0))]), "0,10") == Ok(2)
  {
    var cells: seq<Cell> := [Some(Num(5.0)), Some(Num(15.0)), Some(Num(-2.0)), Some(Num(8.0))];
    assert forall i :: 0 <= i < |cells| ==> RangeComparable(cells[i]) by {
      forall i | 0 <= i < |cells| ensures RangeComparable(cells[i]) {
        assert i == 0 || i == 1 || i == 2 || i == 3;
      }
    }
    SplitZeroTen();
    InRangeCountExample();
  }

  /** range "0,10" on [5, 15, -2, 8]: half the values are inside, 50.0,
      failed. */
  lemma RangeExample(rt: Runtime)
    ensures var r := ApplyRuleCondition(Column("x", Int64, [Some(Num(5.0)), Some(Num(15.0)), Some(Num(-2.0)), Some(Num(8.0))]), "range", "0,10", rt);
      r == RuleOutcome(false, 50.0, Checked(2, 4))
  {
    RangeCountExample();
    assert Percent(2, 4) == 50.0;
    Round2OfHundredths(5000);
  }
}
