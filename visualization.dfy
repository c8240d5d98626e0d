/**
 * The chart and summary helpers: the dtype distribution of a table, its
 * missing-value report, a file size in human units, and the chart data
 * built from a stored assessment.
 */
module Visualization {
  import opened Wrappers
  import opened Numbers
  import opened Strings
  import opened Frames
  import opened Reports
  import opened Models
  import opened AssessmentEngine

  // ---------------------------------------------------------------------
  // get_column_types
  // ---------------------------------------------------------------------

  /** The buckets get_column_types counts in: integer, float, datetime,
      boolean, string, category and other. */
  datatype TypeBucket = Integer | FloatingPoint | DateTime | Boolean | Str | Categorical | OtherType

  /** The first of the substring tests on str(dtype) that matches. */
  function BucketOf(d: DType): TypeBucket
  {
    BucketOfName(DTypeName(d))
  }

  function BucketOfName(name: string): TypeBucket
  {
    if Contains(name, "int") then Integer
    else if Contains(name, "float") then FloatingPoint
    else if Contains(name, "datetime") then DateTime
    else if Contains(name, "bool") then Boolean
    else if Contains(name, "object") then Str
    else if Contains(name, "category") then Categorical
    else OtherType
  }

  function CountOf(counts: map<TypeBucket, nat>, b: TypeBucket): nat
  {
    if b in counts then counts[b] else 0
  }

  /** `type_counts` after the loop has seen `cols`, each column counted in
      the bucket `bucket` gives it. */
  function Tally(cols: seq<Column>, bucket: Column -> TypeBucket): map<TypeBucket, nat>
  {
    if cols == [] then map[]
    else
      var counts := Tally(cols[..|cols| - 1], bucket);
      var b := bucket(cols[|cols| - 1]);
      counts[b := CountOf(counts, b) + 1]
  }

  const ColumnBucket := (c: Column) => BucketOf(c.dtype)

  /** What get_column_types returns. */
  function TypeCounts(cols: seq<Column>): map<TypeBucket, nat>
  {
    Tally(cols, ColumnBucket)
  }

  lemma TallyStep(cols: seq<Column>, i: nat, bucket: Column -> TypeBucket)
    requires i < |cols|
    ensures var counts := Tally(cols[..i], bucket);
      Tally(cols[..i + 1], bucket) == counts[bucket(cols[i]) := CountOf(counts, bucket(cols[i])) + 1]
  {
    assert cols[..i + 1][..i] == cols[..i];
  }

  method GetColumnTypes(t: Table) returns (counts: map<TypeBucket, nat>)
    ensures counts == TypeCounts(t.columns)
  {
    counts := map[];
    for i := 0 to |t.columns|
      invariant counts == Tally(t.columns[..i], ColumnBucket)
    {
      TallyStep(t.columns, i, ColumnBucket);
      var key := BucketOf(t.columns[i].dtype);
      counts := counts[key := CountOf(counts, key) + 1];
    }
    assert t.columns[..|t.columns|] == t.columns;
  }

  /** A bucket's count is the number of columns put in it (those that `p`
      picks out), and the bucket is a key exactly when there is one. */
  lemma {:induction false} TallyCounts(cols: seq<Column>, bucket: Column -> TypeBucket, b: TypeBucket, p: Column -> bool)
    requires forall c :: p(c) <==> bucket(c) == b
    ensures CountOf(Tally(cols, bucket), b) == Count(cols, p)
    ensures b in Tally(cols, bucket) <==> Count(cols, p) > 0
  {
    if cols != [] {
      TallyCounts(cols[..|cols| - 1], bucket, b, p);
    }
  }

  /** The seven counts, added up. */
  function BucketTotal(counts: map<TypeBucket, nat>): nat
  {
    CountOf(counts, Integer) + CountOf(counts, FloatingPoint) + CountOf(counts, DateTime)
      + CountOf(counts, Boolean) + CountOf(counts, Str) + CountOf(counts, Categorical)
      + CountOf(counts, OtherType)
  }

  /** The step of the loop adds one to exactly one bucket. */
  lemma BucketTotalStep(counts: map<TypeBucket, nat>, b: TypeBucket)
    ensures BucketTotal(counts[b := CountOf(counts, b) + 1]) == BucketTotal(counts) + 1
  {
    var v := CountOf(counts, b) + 1;
    CountOfUpdate(counts, b, v, Integer);
    CountOfUpdate(counts, b, v, FloatingPoint);
    CountOfUpdate(counts, b, v, DateTime);
    CountOfUpdate(counts, b, v, Boolean);
    CountOfUpdate(counts, b, v, Str);
    CountOfUpdate(counts, b, v, Categorical);
    CountOfUpdate(counts, b, v, OtherType);
  }

  lemma CountOfUpdate(counts: map<TypeBucket, nat>, b: TypeBucket, v: nat, c: TypeBucket)
    ensures CountOf(counts[b := v], c) == if c == b then v else CountOf(counts, c)
  {
  }

  /** Every column is counted once. */
  lemma {:induction false} TallyTotal(cols: seq<Column>, bucket: Column -> TypeBucket)
    ensures BucketTotal(Tally(cols, bucket)) == |cols|
  {
    if cols != [] {
      var init := cols[..|cols| - 1];
      var counts := Tally(init, bucket);
      var b := bucket(cols[|cols| - 1]);
      assert Tally(cols, bucket) == counts[b := CountOf(counts, b) + 1];
      TallyTotal(init, bucket);
      BucketTotalStep(counts, b);
    }
  }

  /** The columns whose dtype falls in bucket `b`. */
  function InBucket(b: TypeBucket): Column -> bool
  {
    (c: Column) => BucketOf(c.dtype) == b
  }

  /**
   * get_column_types: each bucket counts the columns whose dtype it is the
   * first match for, a bucket appears exactly when some column falls in it,
   * and the counts add up to the number of columns.
   */
  lemma TypeCountsCorrect(cols: seq<Column>, b: TypeBucket)
    ensures CountOf(TypeCounts(cols), b) == Count(cols, InBucket(b))
    ensures b in TypeCounts(cols) <==> Count(cols, InBucket(b)) > 0
    ensures BucketTotal(TypeCounts(cols)) == |cols|
  {
    TallyCounts(cols, ColumnBucket, b, InBucket(b));
    TallyTotal(cols, ColumnBucket);
  }

  /** The number dtypes: int64 and uint64 contain "int", float64 does not. */
  lemma NumberBuckets()
    ensures BucketOf(Int64) == Integer && BucketOf(UInt64) == Integer
    ensures BucketOf(Float64) == FloatingPoint
  {
    ContainsAbsent("float64", "int");
  }

  /** "int" occurs in `s` at no position before `n` (the first character
      or the second differs) nor after it (its first character is absent). */
  lemma NotContains(s: string, k: string, n: nat)
    requires |k| >= 2 && n + 1 < |s|
    requires forall j :: 0 <= j < n ==> s[j] != k[0] || s[j + 1] != k[1]
    requires k[0] !in s[n..]
    ensures !Contains(s, k)
  {
    forall j | 0 <= j < n ensures !(k <= s[j..]) {
      assert s[j] != k[0] || s[j + 1] != k[1];
    }
    ContainsSkip(s, k, n);
    ContainsAbsent(s[n..], k);
  }

  lemma DatetimeTests(s: string)
    requires s == "datetime64[ns]"
    ensures !Contains(s, "int") && !Contains(s, "float") && Contains(s, "datetime")
  {
    NotContains(s, "int", 6);
    ContainsAbsent(s, "float");
    ContainsAt(s, "datetime", 0);
  }

  /** datetime64[ns] passes the "int" and "float" tests before "datetime"
      matches. */
  lemma DatetimeBucket()
    ensures BucketOf(Datetime64) == DateTime
  {
    DatetimeTests("datetime64[ns]");
  }

  lemma BoolTests(s: string)
    requires s == "bool"
    ensures !Contains(s, "int") && !Contains(s, "float") && !Contains(s, "datetime") && Contains(s, "bool")
  {
    ContainsAbsent(s, "int");
    ContainsAbsent(s, "float");
    ContainsAbsent(s, "datetime");
    ContainsAt(s, "bool", 0);
  }

  lemma ObjectTests(s: string)
    requires s == "object"
    ensures !Contains(s, "int") && !Contains(s, "float") && !Contains(s, "datetime")
  {
    ContainsAbsent(s, "int");
    ContainsAbsent(s, "float");
    ContainsAbsent(s, "datetime");
  }

  lemma ObjectNotBool(s: string)
    requires s == "object"
    ensures !Contains(s, "bool") && Contains(s, "object")
  {
    NotContains(s, "bool", 2);
    ContainsAt(s, "object", 0);
  }

  lemma BoolAndObjectBuckets()
    ensures BucketOf(Bool) == Boolean && BucketOf(Object) == Str
  {
    BoolTests("bool");
    ObjectTests("object");
    ObjectNotBool("object");
  }

  lemma CategoryTests(s: string)
    requires s == "category"
    ensures !Contains(s, "int") && !Contains(s, "float") && !Contains(s, "datetime") && !Contains(s, "bool")
  {
    ContainsAbsent(s, "int");
    ContainsAbsent(s, "float");
    ContainsAbsent(s, "datetime");
    ContainsAbsent(s, "bool");
  }

  lemma CategoryNotObject(s: string)
    requires s == "category"
    ensures !Contains(s, "object") && Contains(s, "category")
  {
    NotContains(s, "object", 6);
    ContainsAt(s, "category", 0);
  }

  lemma CategoryBucket()
    ensures BucketOf(Category) == Categorical
  {
    CategoryTests("category");
    CategoryNotObject("category");
  }

  lemma NullableIntTests(s: string)
    requires s == "Int64"
    ensures !Contains(s, "int") && !Contains(s, "float") && !Contains(s, "datetime")
    ensures !Contains(s, "bool") && !Contains(s, "object") && !Contains(s, "category")
  {
    ContainsAbsent(s, "int");
    ContainsAbsent(s, "float");
    ContainsAbsent(s, "datetime");
    ContainsAbsent(s, "bool");
    ContainsAbsent(s, "object");
    ContainsAbsent(s, "category");
  }

  /** The nullable "Int64" does not contain "int": it counts as other. */
  lemma NullableIntBucket()
    ensures BucketOf(OtherDType("Int64")) == OtherType
  {
    NullableIntTests("Int64");
  }

  // ---------------------------------------------------------------------
  // get_missing_data
  // ---------------------------------------------------------------------

  type Entry = (string, real)

  /** The entry get_missing_data lists for a column: its name and its
      rounded percentage of missing rows. */
  function MissingEntry(c: Column, rows: nat): Entry
  {
    (c.name, Round2(Percent(NullCount(c.cells), rows)))
  }

  predicate HasMissing(c: Column)
  {
    NullCount(c.cells) > 0
  }

  /** The entries of the columns with a missing value, in column order. */
  function MissingColumns(cols: seq<Column>, rows: nat): seq<Entry>
  {
    if cols == [] then []
    else
      var c := cols[|cols| - 1];
      MissingColumns(cols[..|cols| - 1], rows) + (if HasMissing(c) then [MissingEntry(c, rows)] else [])
  }

  /** list.sort(key=percentage, reverse=True) places `x` before every
      entry with a percentage no larger than its own. */
  function Insert(x: Entry, s: seq<Entry>): (r: seq<Entry>)
    ensures |r| == |s| + 1
  {
    if s == [] || x.1 >= s[0].1 then [x] + s else [s[0]] + Insert(x, s[1..])
  }

  /** The stable descending sort of the list by percentage. */
  function SortDescending(xs: seq<Entry>): (r: seq<Entry>)
    ensures |r| == |xs|
  {
    if xs == [] then [] else Insert(xs[0], SortDescending(xs[1..]))
  }

  ghost predicate Descending(s: seq<Entry>)
  {
    forall i, j :: 0 <= i < j < |s| ==> s[i].1 >= s[j].1
  }

  /** The entries with percentage `k`, in order. */
  function WithPercentage(s: seq<Entry>, k: real): seq<Entry>
  {
    if s == [] then [] else (if s[0].1 == k then [s[0]] else []) + WithPercentage(s[1..], k)
  }

  lemma {:induction false} InsertPermutes(x: Entry, s: seq<Entry>)
    ensures multiset(Insert(x, s)) == multiset(s) + multiset{x}
  {
    if s != [] && x.1 < s[0].1 {
      InsertPermutes(x, s[1..]);
      assert s == [s[0]] + s[1..];
    }
  }

  /** An entry of the insertion that is not `x` is an entry of `s`. */
  lemma InsertSource(x: Entry, s: seq<Entry>, j: nat) returns (k: nat)
    requires j < |Insert(x, s)| && Insert(x, s)[j] != x
    ensures k < |s| && s[k] == Insert(x, s)[j]
  {
    InsertPermutes(x, s);
    var y := Insert(x, s)[j];
    assert y in multiset(Insert(x, s));
    assert y in multiset(s);
    k :| 0 <= k < |s| && s[k] == y;
  }

  lemma {:induction false} InsertDescending(x: Entry, s: seq<Entry>)
    requires Descending(s)
    ensures Descending(Insert(x, s))
  {
    var out := Insert(x, s);
    if s != [] && x.1 < s[0].1 {
      var rest := s[1..];
      var r := Insert(x, rest);
      InsertDescending(x, rest);
      assert out == [s[0]] + r;
      forall j | 0 <= j < |r| ensures s[0].1 >= r[j].1 {
        if r[j] != x {
          var k := InsertSource(x, rest, j);
          assert rest[k] == s[k + 1];
        }
      }
      forall i, j | 0 <= i < j < |out| ensures out[i].1 >= out[j].1 {
        assert out[j] == r[j - 1];
        if i > 0 {
          assert out[i] == r[i - 1];
        }
      }
    } else if s != [] {
      forall i, j | 0 <= i < j < |out| ensures out[i].1 >= out[j].1 {
        assert out[j] == s[j - 1];
        if i > 0 {
          assert out[i] == s[i - 1];
        } else if j > 1 {
          assert s[0].1 >= s[j - 1].1;
        }
      }
    }
  }

  /** Entries of equal percentage keep their relative order. */
  lemma {:induction false} InsertKeepsTies(x: Entry, s: seq<Entry>, k: real)
    ensures WithPercentage(Insert(x, s), k) == (if x.1 == k then [x] else []) + WithPercentage(s, k)
  {
    if s != [] && x.1 < s[0].1 {
      var r := Insert(x, s[1..]);
      InsertKeepsTies(x, s[1..], k);
      assert Insert(x, s) == [s[0]] + r;
      assert ([s[0]] + r)[1..] == r;
      assert WithPercentage(s, k) == (if s[0].1 == k then [s[0]] else []) + WithPercentage(s[1..], k);
    } else {
      assert ([x] + s)[1..] == s;
    }
  }

  lemma {:induction false} SortDescendingSorted(xs: seq<Entry>)
    ensures Descending(SortDescending(xs))
  {
    if xs != [] {
      SortDescendingSorted(xs[1..]);
      InsertDescending(xs[0], SortDescending(xs[1..]));
    }
  }

  lemma {:induction false} SortDescendingPermutes(xs: seq<Entry>)
    ensures multiset(SortDescending(xs)) == multiset(xs)
  {
    if xs != [] {
      SortDescendingPermutes(xs[1..]);
      InsertPermutes(xs[0], SortDescending(xs[1..]));
      assert xs == [xs[0]] + xs[1..];
    }
  }

  /** Stability: for every percentage, the entries with that percentage are
      in input order. */
  lemma {:induction false} SortDescendingStable(xs: seq<Entry>, k: real)
    ensures WithPercentage(SortDescending(xs), k) == WithPercentage(xs, k)
  {
    if xs != [] {
      SortDescendingStable(xs[1..], k);
      InsertKeepsTies(xs[0], SortDescending(xs[1..]), k);
    }
  }

  /** The missing-data report: `totalCells` is df.size and a percentage of
      no cells is 0. */
  datatype MissingReport = MissingReport(totalCells: nat, missingCells: nat, missingPercentage: real, columns: seq<Entry>)

  function MissingDataOf(t: Table): MissingReport
  {
    var size := t.rows * |t.columns|;
    MissingReport(size, TableNullCount(t.columns), Round2(Percent(TableNullCount(t.columns), size)),
      SortDescending(MissingColumns(t.columns, t.rows)))
  }

  method GetMissingData(t: Table) returns (m: MissingReport)
    ensures m == MissingDataOf(t)
  {
    var size := t.rows * |t.columns|;
    var missing := TableNullCount(t.columns);
    var columns: seq<Entry> := [];
    for i := 0 to |t.columns|
      invariant columns == MissingColumns(t.columns[..i], t.rows)
    {
      assert t.columns[..i + 1][..i] == t.columns[..i];
      var missingCount := NullCount(t.columns[i].cells);
      if missingCount > 0 {
        columns := columns + [(t.columns[i].name, Round2(Percent(missingCount, t.rows)))];
      }
    }
    assert t.columns[..|t.columns|] == t.columns;
    m := MissingReport(size, missing, Round2(Percent(missing, size)), SortDescending(columns));
  }

  /** Every column with a missing value is listed. */
  lemma {:induction false} MissingColumnsListed(cols: seq<Column>, rows: nat, i: nat)
    requires i < |cols| && HasMissing(cols[i])
    ensures MissingEntry(cols[i], rows) in MissingColumns(cols, rows)
  {
    var n := |cols| - 1;
    if i < n {
      assert cols[..n][i] == cols[i];
      MissingColumnsListed(cols[..n], rows, i);
    }
  }

  /** Every listed entry is that of a column with a missing value. */
  lemma {:induction false} MissingColumnsSource(cols: seq<Column>, rows: nat, e: Entry) returns (i: nat)
    requires e in MissingColumns(cols, rows)
    ensures i < |cols| && HasMissing(cols[i]) && e == MissingEntry(cols[i], rows)
  {
    var n := |cols| - 1;
    if e in MissingColumns(cols[..n], rows) {
      i := MissingColumnsSource(cols[..n], rows, e);
      assert cols[..n][i] == cols[i];
    } else {
      i := n;
    }
  }

  /** No more missing cells than cells, so the overall percentage is a
      percentage. */
  lemma MissingDataTotals(t: Table)
    ensures var m := MissingDataOf(t);
      && m.totalCells == t.rows * |t.columns|
      && m.missingCells <= m.totalCells
      && 0.0 <= m.missingPercentage <= 100.0
  {
    var m := MissingDataOf(t);
    TableNullCountBound(t.columns, t.rows);
    assert t.rows * |t.columns| == |t.columns| * t.rows;
    PercentBounds(m.missingCells, m.totalCells);
    Round2Percent(Percent(m.missingCells, m.totalCells));
  }

  /**
   * The list holds exactly the columns with a missing value, each with a
   * percentage in [0, 100], sorted by percentage descending and keeping
   * column order among equal percentages.
   */
  lemma MissingDataColumns(t: Table)
    ensures var m := MissingDataOf(t);
      && Descending(m.columns)
      && (forall k :: WithPercentage(m.columns, k) == WithPercentage(MissingColumns(t.columns, t.rows), k))
      && (forall i :: 0 <= i < |t.columns| && HasMissing(t.columns[i]) ==> MissingEntry(t.columns[i], t.rows) in m.columns)
      && (forall e :: e in m.columns ==> exists i :: 0 <= i < |t.columns| && HasMissing(t.columns[i]) && e == MissingEntry(t.columns[i], t.rows))
      && (forall e :: e in m.columns ==> 0.0 <= e.1 <= 100.0)
  {
    var m := MissingDataOf(t);
    var xs := MissingColumns(t.columns, t.rows);
    SortDescendingSorted(xs);
    SortDescendingPermutes(xs);
    forall k ensures WithPercentage(m.columns, k) == WithPercentage(xs, k) {
      SortDescendingStable(xs, k);
    }
    forall i | 0 <= i < |t.columns| && HasMissing(t.columns[i]) ensures MissingEntry(t.columns[i], t.rows) in m.columns {
      MissingColumnsListed(t.columns, t.rows, i);
      assert MissingEntry(t.columns[i], t.rows) in multiset(xs);
    }
    forall e | e in m.columns
      ensures exists i :: 0 <= i < |t.columns| && HasMissing(t.columns[i]) && e == MissingEntry(t.columns[i], t.rows)
      ensures 0.0 <= e.1 <= 100.0
    {
      assert e in multiset(m.columns);
      var i := MissingColumnsSource(t.columns, t.rows, e);
      var c := t.columns[i];
      NullsAndPresent(c.cells);
      PercentBounds(NullCount(c.cells), t.rows);
      Round2Percent(Percent(NullCount(c.cells), t.rows));
    }
  }

  // ---------------------------------------------------------------------
  // format_file_size
  // ---------------------------------------------------------------------

  datatype SizeUnit = B | KB | MB | GB

  function UnitName(u: SizeUnit): string
  {
    match u
    case B => "B"
    case KB => "KB"
    case MB => "MB"
    case GB => "GB"
  }

  function UnitBytes(u: SizeUnit): nat
  {
    match u
    case B => 1
    case KB => 1024
    case MB => 1024 * 1024
    case GB => 1024 * 1024 * 1024
  }

  /** A size as format_file_size prints it: the amount (the byte count
      itself below 1024, the quotient otherwise) and its unit. */
  datatype FileSize = FileSize(amount: real, unit: SizeUnit)

  /**
   * format_file_size: the unit is chosen by the thresholds 1024, 1024² and
   * 1024³; the amount times the unit is the size again, and is at least 1
   * in every unit but bytes and below 1024 in every unit but gigabytes.
   */
  function FormatFileSize(size: int): (r: FileSize)
    ensures r.unit == B <==> size < 1024
    ensures r.unit == KB <==> 1024 <= size < 1024 * 1024
    ensures r.unit == MB <==> 1024 * 1024 <= size < 1024 * 1024 * 1024
    ensures r.unit == GB <==> 1024 * 1024 * 1024 <= size
    ensures r.amount * UnitBytes(r.unit) as real == size as real
    ensures r.unit != B ==> 1.0 <= r.amount
    ensures r.unit != GB ==> r.amount < 1024.0
  {
    if size < 1024 then FileSize(size as real, B)
    else if size < 1024 * 1024 then
      ScaledAmount(size as real, 1024.0, size as real / 1024.0);
      FileSize(size as real / 1024.0, KB)
    else if size < 1024 * 1024 * 1024 then
      ScaledAmount(size as real, (1024 * 1024) as real, size as real / (1024 * 1024) as real);
      FileSize(size as real / (1024 * 1024) as real, MB)
    else
      ScaledAmount(size as real, (1024 * 1024 * 1024) as real, size as real / (1024 * 1024 * 1024) as real);
      FileSize(size as real / (1024 * 1024 * 1024) as real, GB)
  }

  /** A size of at least one unit, divided by the unit. */
  lemma ScaledAmount(size: real, unit: real, amount: real)
    requires 0.0 < unit <= size && amount == size / unit
    ensures amount * unit == size && 1.0 <= amount
    ensures size < 1024.0 * unit ==> amount < 1024.0
  {
    assert amount * unit == size;
    if amount >= 1024.0 {
      assert amount * unit >= 1024.0 * unit;
    }
  }

  // ---------------------------------------------------------------------
  // generate_assessment_charts
  // ---------------------------------------------------------------------

  /** A colour band of the gauge, over [low, high]. */
  datatype Level = Level(color: string, low: int, high: int)

  datatype Chart =
    | Radar(title: string, categories: seq<string>, seriesName: string, data: seq<real>)
    | Gauge(title: string, value: real, min: int, max: int, levels: seq<Level>)
    | Bar(title: string, categories: seq<string>, seriesName: string, data: seq<real>)

  datatype Charts = Charts(assessmentId: Option<int>, assessmentName: string, charts: seq<Chart>)

  /** The radar's axes: quality, completeness, consistency, accuracy,
      timeliness and business value. */
  const RadarCategories: seq<string> := ["数据质量", "完整性", "一致性", "准确性", "时效性", "业务价值"]

  const GaugeLevels: seq<Level> := [Level("#FF4500", 0, 40), Level("#FFA500", 40, 70), Level("#32CD32", 70, 100)]

  /** The radar over the first six of the seven stored scores. */
  function RadarChart(scores: seq<Option<real>>): Chart
    requires |scores| == 7
  {
    Radar("数据价值评分", RadarCategories, "评分",
      [OrZero(scores[0]), OrZero(scores[1]), OrZero(scores[2]),
       OrZero(scores[3]), OrZero(scores[4]), OrZero(scores[5])])
  }

  function GaugeChart(overall: Option<real>): Chart
  {
    Gauge("综合价值评分", OrZero(overall), 0, 100, GaugeLevels)
  }

  /** `items[:10]` of a column-score map. */
  function FirstTen(items: seq<Entry>): seq<Entry>
  {
    if |items| <= 10 then items else items[..10]
  }

  function Keys(items: seq<Entry>): (ks: seq<string>)
    ensures |ks| == |items| && forall j :: 0 <= j < |items| ==> ks[j] == items[j].0
  {
    seq(|items|, j requires 0 <= j < |items| => items[j].0)
  }

  function Values(items: seq<Entry>): (vs: seq<real>)
    ensures |vs| == |items| && forall j :: 0 <= j < |items| ==> vs[j] == items[j].1
  {
    seq(|items|, j requires 0 <= j < |items| => items[j].1)
  }

  /** A bar chart of the first ten column scores, none for no columns. */
  function BarCharts(items: seq<Entry>, title: string, seriesName: string): seq<Chart>
  {
    if items == [] then []
    else [Bar(title, Keys(FirstTen(items)), seriesName, Values(FirstTen(items)))]
  }

  /** The bar charts, drawn only from a stored quality breakdown. */
  function QualityBars(detailed: Option<Report>): seq<Chart>
  {
    if detailed.Some? && detailed.value.qualityBreakdown.Some? then
      var q := detailed.value.qualityBreakdown.value;
      BarCharts(q.completeness.columnScores, "列完整性得分", "完整性得分")
        + BarCharts(q.consistency.columnScores, "列一致性得分", "一致性得分")
    else []
  }

  /** What generate_assessment_charts returns for an assessment with these
      stored fields. */
  function AssessmentCharts(id: Option<int>, name: string, scores: seq<Option<real>>, detailed: Option<Report>): Charts
    requires |scores| == 7
  {
    Charts(id, name, [RadarChart(scores), GaugeChart(scores[6])] + QualityBars(detailed))
  }

  method GenerateAssessmentCharts(a: Assessment) returns (charts: Charts)
    ensures charts == AssessmentCharts(a.id, a.name, a.Scores(), a.detailedResults)
  {
    var list: seq<Chart> := [];
    list := list + [Radar("数据价值评分", RadarCategories, "评分",
      [OrZero(a.qualityScore), OrZero(a.completenessScore), OrZero(a.consistencyScore),
       OrZero(a.accuracyScore), OrZero(a.timelinessScore), OrZero(a.businessValueScore)])];
    list := list + [Gauge("综合价值评分", OrZero(a.overallValueScore), 0, 100, GaugeLevels)];
    var detailed := a.GetDetailedResults();
    if detailed.Some? && detailed.value.qualityBreakdown.Some? {
      var quality := detailed.value.qualityBreakdown.value;
      var items := quality.completeness.columnScores;
      if items != [] {
        var top := FirstTen(items);
        list := list + [Bar("列完整性得分", Keys(top), "完整性得分", Values(top))];
      }
      items := quality.consistency.columnScores;
      if items != [] {
        var top := FirstTen(items);
        list := list + [Bar("列一致性得分", Keys(top), "一致性得分", Values(top))];
      }
    }
    charts := Charts(a.id, a.name, list);
  }

  /** The radar comes first with six distinct axes and a missing score
      drawn as 0; the gauge follows with the overall score. */
  lemma RadarAndGauge(id: Option<int>, name: string, scores: seq<Option<real>>, detailed: Option<Report>)
    requires |scores| == 7
    ensures var cs := AssessmentCharts(id, name, scores, detailed).charts;
      && 2 <= |cs|
      && cs[0].Radar? && cs[0].categories == RadarCategories && |cs[0].data| == 6
      && (forall i :: 0 <= i < 6 ==> cs[0].data[i] == (if scores[i].Some? then scores[i].value else 0.0))
      && cs[1].Gauge? && cs[1].value == OrZero(scores[6])
  {
    var radar := RadarChart(scores);
    assert forall i :: 0 <= i < 6 ==> radar.data[i] == OrZero(scores[i]);
  }

  /** The six radar axes are distinct. */
  lemma RadarAxesDistinct()
    ensures |RadarCategories| == 6
    ensures forall i, j :: 0 <= i < j < 6 ==> RadarCategories[i] != RadarCategories[j]
  {
    var firsts := ['数', '完', '一', '准', '时', '业'];
    forall i, j | 0 <= i < j < 6 ensures RadarCategories[i] != RadarCategories[j] {
      assert RadarCategories[i][0] == firsts[i] && RadarCategories[j][0] == firsts[j];
    }
  }

  /** The gauge's bands are contiguous and cover [0, 100]: every score in
      that range lies in a band. */
  lemma GaugeLevelsCover(v: int)
    requires 0 <= v <= 100
    ensures GaugeLevels[0].low == 0 && GaugeLevels[|GaugeLevels| - 1].high == 100
    ensures forall i :: 0 <= i < |GaugeLevels| - 1 ==> GaugeLevels[i].high == GaugeLevels[i + 1].low
    ensures exists i :: 0 <= i < |GaugeLevels| && GaugeLevels[i].low <= v <= GaugeLevels[i].high
  {
    if v <= 40 {
      assert GaugeLevels[0].low <= v <= GaugeLevels[0].high;
    } else if v <= 70 {
      assert GaugeLevels[1].low <= v <= GaugeLevels[1].high;
    } else {
      assert GaugeLevels[2].low <= v <= GaugeLevels[2].high;
    }
  }

  /** A bar chart shows the first ten column scores in map order, labels and
      values paired. */
  lemma BarChartsTopTen(items: seq<Entry>, title: string, seriesName: string)
    ensures |BarCharts(items, title, seriesName)| == (if items == [] then 0 else 1)
    ensures items != [] ==>
      var b := BarCharts(items, title, seriesName)[0];
      && |b.categories| == |b.data| == (if |items| < 10 then |items| else 10)
      && forall j :: 0 <= j < |b.data| ==> b.categories[j] == items[j].0 && b.data[j] == items[j].1
  {
  }

  /** Without a stored quality breakdown there are no bar charts: the
      radar and the gauge only. */
  lemma NoBreakdownNoBars(id: Option<int>, name: string, scores: seq<Option<real>>, detailed: Option<Report>)
    requires |scores| == 7
    requires detailed.None? || detailed.value.qualityBreakdown.None?
    ensures |AssessmentCharts(id, name, scores, detailed).charts| == 2
  {
  }

  /** run_assessment never writes the breakdown the bar charts read, so an
      assessment holding one of its reports gets the radar and the gauge
      only. */
  lemma EngineReportsHaveNoBars(d: Dataset, files: Loaders, rules: seq<RuleRecord>, rt: Runtime, utcNow: int, localNow: int,
                                id: Option<int>, name: string, scores: seq<Option<real>>)
    requires |scores| == 7
    ensures |AssessmentCharts(id, name, scores, Some(AssessmentOf(d, files, rules, rt, utcNow, localNow))).charts| == 2
  {
    var r := AssessmentOf(d, files, rules, rt, utcNow, localNow);
    NoQualityBreakdown(d, files, rules, rt, utcNow, localNow);
    NoBreakdownNoBars(id, name, scores, Some(r));
  }
}
