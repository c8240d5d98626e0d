/**
 * The loaded table (a pandas DataFrame) as the scorers see it: named
 * columns, each with a dtype and one cell per row, where a missing cell
 * (NaN, None, NaT) is `None`.
 */
module Frames {
  import opened Wrappers
  import opened Numbers
  import opened Strings

  /** A present cell. Infinity is a float column's +inf or -inf; timestamps
      are seconds. */
  datatype Value =
    | Num(x: real)
    | Infinity(positive: bool)
    | Text(s: string)
    | Stamp(seconds: int)
    | Flag(b: bool)

  type Cell = Option<Value>

  /** The dtypes the scorers tell apart; `OtherDType` carries the name pandas
      prints for any other dtype (timedelta64[ns], string, period[D], ...). */
  datatype DType =
    | Int64
    | UInt64
    | Float64
    | Bool
    | Datetime64
    | Object
    | Category
    | OtherDType(name: string)

  /** str(dtype) */
  function DTypeName(d: DType): string
  {
    match d
    case Int64 => "int64"
    case UInt64 => "uint64"
    case Float64 => "float64"
    case Bool => "bool"
    case Datetime64 => "datetime64[ns]"
    case Object => "object"
    case Category => "category"
    case OtherDType(n) => n
  }

  /** np.issubdtype(dtype, np.number) */
  predicate IsNumber(d: DType)
  {
    d.Int64? || d.UInt64? || d.Float64?
  }

  datatype Column = Column(name: string, dtype: DType, cells: seq<Cell>)

  datatype Frame = Frame(rows: nat, columns: seq<Column>)
  {
    /** Every column has one cell per row and column names are distinct. */
    predicate WellFormed()
    {
      && (forall i :: 0 <= i < |columns| ==> |columns[i].cells| == rows)
      && (forall i, j :: 0 <= i < j < |columns| ==> columns[i].name != columns[j].name)
    }
  }

  type Table = f: Frame | f.WellFormed() witness Frame(0, [])

  /** What pd.to_datetime makes of one value: it raises (Unparsed), it
      gives NaT without raising (as for "", "NaT" and "nan"), or it gives an
      instant in seconds. */
  datatype DateParse = Unparsed | NotATime | Instant(seconds: int)

  /**
   * Behaviour of Python and pandas that the model takes as given:
   * `render` is str() of a cell as `astype(str)` produces it, `parseDate` is
   * pd.to_datetime of one present non-timestamp value, `compile` is re.compile (None for an invalid pattern) giving the
   * match-at-start test, and `sqrt` is the square root inside Series.std().
   */
  datatype Runtime = Runtime(
    render: Cell -> string,
    parseDate: Value -> DateParse,
    compile: string -> Option<string -> bool>,
    sqrt: real -> real)

  predicate IsNull(c: Cell)
  {
    c.None?
  }

  predicate IsPresent(c: Cell)
  {
    c.Some?
  }

  function NullCount(cells: seq<Cell>): nat
  {
    Count(cells, IsNull)
  }

  function PresentCount(cells: seq<Cell>): nat
  {
    Count(cells, IsPresent)
  }

  /** Present and missing cells partition the column. */
  lemma NullsAndPresent(cells: seq<Cell>)
    ensures NullCount(cells) + PresentCount(cells) == |cells|
  {
    CountPartition(cells, IsNull, IsPresent);
  }

  /** The value a hash table keys a cell by: Python's True == 1 and
      False == 0 hash alike, so a flag is keyed as the number it equals. */
  function HashKey(v: Value): Value
  {
    if v.Flag? then Num(if v.b then 1.0 else 0.0) else v
  }

  /** The distinct present values of a column, as a hash table keys them. */
  function Distinct(cells: seq<Cell>): set<Value>
  {
    if cells == [] then {}
    else
      var last := cells[|cells| - 1];
      Distinct(cells[..|cells| - 1]) + (if last.Some? then {HashKey(last.value)} else {})
  }

  /** Series.nunique(): the number of distinct present values. */
  function NUnique(cells: seq<Cell>): nat
  {
    |Distinct(cells)|
  }

  /** There are never more distinct values than present cells. */
  lemma {:induction false} NUniqueAtMostPresent(cells: seq<Cell>)
    ensures NUnique(cells) <= PresentCount(cells) <= |cells|
  {
    if cells != [] {
      NUniqueAtMostPresent(cells[..|cells| - 1]);
    }
  }

  /** A cell whose str() is blank after strip(). */
  predicate IsBlank(rt: Runtime, c: Cell)
  {
    Strip(rt.render(c)) == ""
  }

  /** Present and not blank: `~isna() & (astype(str).str.strip() != '')`. */
  predicate Filled(rt: Runtime, c: Cell)
  {
    c.Some? && !IsBlank(rt, c)
  }

  function FilledCell(rt: Runtime): Cell -> bool
  {
    c => Filled(rt, c)
  }

  function Names(cols: seq<Column>): seq<string>
  {
    seq(|cols|, i requires 0 <= i < |cols| => cols[i].name)
  }

  /** `name in df.columns` */
  predicate HasColumn(t: Table, name: string)
  {
    exists i :: 0 <= i < |t.columns| && t.columns[i].name == name
  }

  /** `df[name]`, None when the column is missing (pandas raises KeyError). */
  function Lookup(cols: seq<Column>, name: string): (r: Option<Column>)
    ensures r.Some? ==> r.value in cols && r.value.name == name
    ensures r.None? <==> forall i :: 0 <= i < |cols| ==> cols[i].name != name
  {
    if cols == [] then None
    else if cols[0].name == name then Some(cols[0])
    else Lookup(cols[1..], name)
  }

  /** Total missing cells of the table, `df.isna().sum().sum()`. */
  function TableNullCount(cols: seq<Column>): nat
  {
    if cols == [] then 0 else TableNullCount(cols[..|cols| - 1]) + NullCount(cols[|cols| - 1].cells)
  }

  /** A well-formed table never has more missing cells than cells. */
  lemma {:induction false} TableNullCountBound(cols: seq<Column>, rows: nat)
    requires forall i :: 0 <= i < |cols| ==> |cols[i].cells| == rows
    ensures TableNullCount(cols) <= |cols| * rows
  {
    if cols != [] {
      var n := |cols| - 1;
      TableNullCountBound(cols[..n], rows);
      assert n * rows + rows == |cols| * rows;
    }
  }
}
