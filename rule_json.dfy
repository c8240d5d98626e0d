/**
 * The text a DataQualityRule stores: json.dumps of the definition dict
 * {'column': ..., 'condition': ..., 'value': ...} with Python's default
 * settings (", " and ": " separators, keys in insertion order, ensure_ascii),
 * and json.loads of that text.
 */
module RuleJson {
  import opened Wrappers

  datatype RuleDefinition = RuleDefinition(column: string, condition: string, value: string)

  function HexDigit(d: nat): (c: char)
    requires d < 16
    ensures '0' <= c <= '9' || 'a' <= c <= 'f'
  {
    if d < 10 then ('0' as int + d) as char else ('a' as int + d - 10) as char
  }

  /** A hex digit as json.loads reads it, in either case. */
  function HexValue(c: char): (r: Option<nat>)
    ensures r.Some? ==> r.value < 16
  {
    if '0' <= c <= '9' then Some(c as int - '0' as int)
    else if 'a' <= c <= 'f' then Some(c as int - 'a' as int + 10)
    else if 'A' <= c <= 'F' then Some(c as int - 'A' as int + 10)
    else None
  }

  lemma HexDigitValue(d: nat)
    requires d < 16
    ensures HexValue(HexDigit(d)) == Some(d)
  {
  }

  /** Four lower-case hex digits, as `'\\u{0:04x}'.format(n)`: the last digit
      is n % 16, the one before it (n / 16) % 16, and so on. */
  function Hex4(n: nat): string
    requires n < 0x10000
  {
    var r3 := n / 16;
    var r2 := r3 / 16;
    [HexDigit(r2 / 16), HexDigit(r2 % 16), HexDigit(r3 % 16), HexDigit(n % 16)]
  }

  function ParseHex4(s: string): (r: Option<nat>)
    requires |s| == 4
    ensures r.Some? ==> r.value < 0x10000
  {
    match (HexValue(s[0]), HexValue(s[1]), HexValue(s[2]), HexValue(s[3]))
    case (Some(a), Some(b), Some(c), Some(d)) => Some(((a * 16 + b) * 16 + c) * 16 + d)
    case _ => None
  }

  lemma ParseHex4Hex4(n: nat)
    requires n < 0x10000
    ensures ParseHex4(Hex4(n)) == Some(n)
  {
    var r3 := n / 16;
    var r2 := r3 / 16;
    HexDigitValue(r2 / 16);
    HexDigitValue(r2 % 16);
    HexDigitValue(r3 % 16);
    HexDigitValue(n % 16);
    assert ((r2 / 16 * 16 + r2 % 16) * 16 + r3 % 16) * 16 + n % 16 == n;
  }

  function UnicodeEscape(n: nat): string
    requires n < 0x10000
  {
    "\\u" + Hex4(n)
  }

  predicate IsHighSurrogate(n: nat)
  {
    0xD800 <= n < 0xDC00
  }

  predicate IsLowSurrogate(n: nat)
  {
    0xDC00 <= n < 0xE000
  }

  /** The character a surrogate pair encodes. */
  function Combine(hi: nat, lo: nat): char
    requires IsHighSurrogate(hi) && IsLowSurrogate(lo)
  {
    (0x10000 + (hi - 0xD800) * 1024 + (lo - 0xDC00)) as char
  }

  /** The surrogate pair json.dumps writes for a character above U+FFFF. */
  function Surrogates(c: char): (p: (nat, nat))
    requires c as int >= 0x10000
    ensures IsHighSurrogate(p.0) && IsLowSurrogate(p.1) && Combine(p.0, p.1) == c
  {
    var v := c as int - 0x10000;
    var q, r := v / 1024, v % 1024;
    assert v == q * 1024 + r && 0 <= r < 1024 && q < 1024;
    (0xD800 + q, 0xDC00 + r)
  }

  predicate Printable(c: char)
  {
    ' ' <= c <= '~'
  }

  /**
   * How json.dumps writes one character of a string with ensure_ascii:
   * the quote and the backslash are escaped, five control characters have
   * short escapes, other printable ASCII is kept, and anything else becomes
   * \uXXXX (a surrogate pair above U+FFFF).
   */
  function EscapeChar(c: char): string
  {
    if c == '"' then "\\\""
    else if c == '\\' then "\\\\"
    else if c == '\n' then "\\n"
    else if c == '\r' then "\\r"
    else if c == '\t' then "\\t"
    else if c == '\U{8}' then "\\b"
    else if c == '\U{C}' then "\\f"
    else if Printable(c) then [c]
    else if c as int < 0x10000 then UnicodeEscape(c as int)
    else
      var (hi, lo) := Surrogates(c);
      UnicodeEscape(hi) + UnicodeEscape(lo)
  }

  function Escape(s: string): string
  {
    if s == [] then [] else EscapeChar(s[0]) + Escape(s[1..])
  }

  /** The character a two-character escape stands for. */
  function ShortEscape(c: char): Option<char>
  {
    if c == '"' then Some('"')
    else if c == '\\' then Some('\\')
    else if c == '/' then Some('/')
    else if c == 'n' then Some('\n')
    else if c == 'r' then Some('\r')
    else if c == 't' then Some('\t')
    else if c == 'b' then Some('\U{8}')
    else if c == 'f' then Some('\U{C}')
    else None
  }

  function Prepend(c: char, o: Option<(string, string)>): Option<(string, string)>
  {
    match o
    case None => None
    case Some((text, rest)) => Some(([c] + text, rest))
  }

  /**
   * A \\u escape at the start of `s` (just after its backslash): the
   * character and the length of the escape, six characters or twelve for a
   * surrogate pair; None when the escape is malformed or a lone surrogate
   * (which a Dafny string cannot hold).
   */
  function UnicodeAt(s: string): (r: Option<(char, nat)>)
    ensures r.Some? ==> 6 <= r.value.1 <= |s|
  {
    if |s| < 6 || s[1] != 'u' then None
    else match ParseHex4(s[2..6])
      case None => None
      case Some(n) =>
        if IsHighSurrogate(n) then LowSurrogateAt(s, n)
        else if IsLowSurrogate(n) then None
        else Some((n as char, 6))
  }

  /** The second half of a surrogate pair whose high half `hi` was just
      read. */
  function LowSurrogateAt(s: string, hi: nat): (r: Option<(char, nat)>)
    requires IsHighSurrogate(hi)
    ensures r.Some? ==> r.value.1 == 12 <= |s|
  {
    if |s| < 12 || s[6..8] != "\\u" then None
    else match ParseHex4(s[8..12])
      case Some(lo) => if IsLowSurrogate(lo) then Some((Combine(hi, lo), 12)) else None
      case None => None
  }

  /**
   * json.loads on the body of a string literal: reads up to the closing
   * quote and returns the decoded text with what follows the quote; None
   * for a malformed escape, a raw control character or a missing quote.
   */
  function Unescape(s: string): Option<(string, string)>
    decreases |s|, 1
  {
    if s == [] then None
    else if s[0] == '"' then Some(([], s[1..]))
    else if s[0] < ' ' then None
    else if s[0] != '\\' then Prepend(s[0], Unescape(s[1..]))
    else if |s| >= 2 && ShortEscape(s[1]).Some? then Prepend(ShortEscape(s[1]).value, Unescape(s[2..]))
    else UnescapeUnicode(s)
  }

  /** The rest of a string literal that starts with a \\u escape. */
  function UnescapeUnicode(s: string): Option<(string, string)>
    decreases |s|, 0
  {
    match UnicodeAt(s)
    case None => None
    case Some((c, k)) => Prepend(c, Unescape(s[k..]))
  }

  /** What follows a decoded string literal is a proper suffix of the input. */
  predicate RestOf(s: string, o: Option<(string, string)>)
  {
    o.Some? ==> |o.value.1| < |s| && o.value.1 == s[|s| - |o.value.1|..]
  }

  lemma {:induction false} UnescapeRest(s: string)
    ensures RestOf(s, Unescape(s))
    decreases |s|, 1
  {
    if s == [] || s[0] == '"' || s[0] < ' ' {
    } else if s[0] != '\\' {
      UnescapeRest(s[1..]);
    } else if |s| >= 2 && ShortEscape(s[1]).Some? {
      UnescapeRest(s[2..]);
    } else {
      UnescapeUnicodeRest(s);
    }
  }

  lemma {:induction false} UnescapeUnicodeRest(s: string)
    ensures RestOf(s, UnescapeUnicode(s))
    decreases |s|, 0
  {
    match UnicodeAt(s)
    case None =>
    case Some((c, k)) => UnescapeRest(s[k..]);
  }

  /** A backslash and a letter decode to the character they stand for. */
  lemma UnescapeShort(c: char, e: char, t: string)
    requires e != 'u' && ShortEscape(e) == Some(c)
    ensures Unescape(['\\', e] + t) == Prepend(c, Unescape(t))
  {
    assert (['\\', e] + t)[2..] == t;
  }

  lemma UnescapePrintable(c: char, t: string)
    requires Printable(c) && c != '"' && c != '\\'
    ensures Unescape([c] + t) == Prepend(c, Unescape(t))
  {
    assert ([c] + t)[1..] == t;
  }

  lemma UnicodeAtBmp(n: nat, t: string)
    requires n < 0x10000 && !IsHighSurrogate(n) && !IsLowSurrogate(n)
    ensures UnicodeAt(UnicodeEscape(n) + t) == Some((n as char, 6))
  {
    var e := UnicodeEscape(n) + t;
    ParseHex4Hex4(n);
    assert e[2..6] == Hex4(n);
  }

  lemma UnescapeBmp(n: nat, t: string)
    requires n < 0x10000 && !IsHighSurrogate(n) && !IsLowSurrogate(n)
    ensures Unescape(UnicodeEscape(n) + t) == Prepend(n as char, Unescape(t))
  {
    var e := UnicodeEscape(n) + t;
    UnicodeAtBmp(n, t);
    assert e[6..] == t;
    assert Unescape(e) == UnescapeUnicode(e);
  }

  lemma UnicodeAtPair(hi: nat, lo: nat, t: string)
    requires IsHighSurrogate(hi) && IsLowSurrogate(lo)
    ensures UnicodeAt(UnicodeEscape(hi) + UnicodeEscape(lo) + t) == Some((Combine(hi, lo), 12))
  {
    var e := UnicodeEscape(hi) + UnicodeEscape(lo) + t;
    ParseHex4Hex4(hi);
    ParseHex4Hex4(lo);
    assert e[2..6] == Hex4(hi);
    assert e[6..8] == "\\u";
    assert e[8..12] == Hex4(lo);
  }

  lemma UnescapePair(hi: nat, lo: nat, t: string)
    requires IsHighSurrogate(hi) && IsLowSurrogate(lo)
    ensures Unescape(UnicodeEscape(hi) + UnicodeEscape(lo) + t) == Prepend(Combine(hi, lo), Unescape(t))
  {
    var e := UnicodeEscape(hi) + UnicodeEscape(lo) + t;
    UnicodeAtPair(hi, lo, t);
    assert e[12..] == t;
    assert Unescape(e) == UnescapeUnicode(e);
  }

  /** The characters with a two-character escape. */
  lemma UnescapeShortChar(c: char, t: string)
    requires c in "\"\\\n\r\t\U{8}\U{C}"
    ensures Unescape(EscapeChar(c) + t) == Prepend(c, Unescape(t))
  {
    if c == '"' {
      UnescapeShort(c, '"', t);
    } else if c == '\\' {
      UnescapeShort(c, '\\', t);
    } else if c == '\n' {
      UnescapeShort(c, 'n', t);
    } else if c == '\r' {
      UnescapeShort(c, 'r', t);
    } else if c == '\t' {
      UnescapeShort(c, 't', t);
    } else if c == '\U{8}' {
      UnescapeShort(c, 'b', t);
    } else {
      UnescapeShort(c, 'f', t);
    }
  }

  /** The characters written as \\u escapes. */
  lemma UnescapeWideChar(c: char, t: string)
    requires !Printable(c) && c !in "\n\r\t\U{8}\U{C}"
    ensures Unescape(EscapeChar(c) + t) == Prepend(c, Unescape(t))
  {
    if c as int < 0x10000 {
      UnescapeBmp(c as int, t);
    } else {
      var (hi, lo) := Surrogates(c);
      UnescapePair(hi, lo, t);
    }
  }

  /** Every escaped character, followed by anything, decodes back to itself. */
  lemma UnescapeEscapeChar(c: char, t: string)
    ensures Unescape(EscapeChar(c) + t) == Prepend(c, Unescape(t))
  {
    if c in "\"\\\n\r\t\U{8}\U{C}" {
      UnescapeShortChar(c, t);
    } else if Printable(c) {
      UnescapePrintable(c, t);
    } else {
      UnescapeWideChar(c, t);
    }
  }

  /** json.loads undoes json.dumps on a string literal, whatever follows it. */
  lemma {:induction false} UnescapeEscape(s: string, rest: string)
    ensures Unescape(Escape(s) + "\"" + rest) == Some((s, rest))
  {
    if s == [] {
      assert Escape(s) + "\"" + rest == "\"" + rest;
      assert ("\"" + rest)[1..] == rest;
    } else {
      UnescapeEscape(s[1..], rest);
      UnescapeEscapeChar(s[0], Escape(s[1..]) + "\"" + rest);
      assert Escape(s) + "\"" + rest == EscapeChar(s[0]) + (Escape(s[1..]) + "\"" + rest);
      assert [s[0]] + s[1..] == s;
    }
  }

  predicate AllPrintable(s: string)
  {
    forall i :: 0 <= i < |s| ==> Printable(s[i])
  }

  lemma AllPrintableConcat(a: string, b: string)
    requires AllPrintable(a) && AllPrintable(b)
    ensures AllPrintable(a + b)
  {
    assert forall i :: |a| <= i < |a + b| ==> (a + b)[i] == b[i - |a|];
  }

  lemma UnicodeEscapeIsAscii(n: nat)
    requires n < 0x10000
    ensures AllPrintable(UnicodeEscape(n))
  {
  }

  lemma EscapeCharIsAscii(c: char)
    ensures AllPrintable(EscapeChar(c))
  {
    if !Printable(c) && c !in "\n\r\t\U{8}\U{C}" {
      if c as int < 0x10000 {
        UnicodeEscapeIsAscii(c as int);
      } else {
        var (hi, lo) := Surrogates(c);
        UnicodeEscapeIsAscii(hi);
        UnicodeEscapeIsAscii(lo);
        AllPrintableConcat(UnicodeEscape(hi), UnicodeEscape(lo));
      }
    }
  }

  /** With ensure_ascii the stored text is printable ASCII only. */
  lemma {:induction false} EscapeIsAscii(s: string)
    ensures AllPrintable(Escape(s))
  {
    if s != [] {
      EscapeIsAscii(s[1..]);
      EscapeCharIsAscii(s[0]);
      AllPrintableConcat(EscapeChar(s[0]), Escape(s[1..]));
    }
  }

  const ColumnKey: string := "{\"column\": \""
  const ConditionKey: string := ", \"condition\": \""
  const ValueKey: string := ", \"value\": \""

  /** A key followed by a string literal. */
  function Field(key: string, x: string): string
  {
    key + Escape(x) + "\""
  }

  lemma KeysPrintable()
    ensures AllPrintable(ColumnKey) && AllPrintable(ConditionKey) && AllPrintable(ValueKey)
  {
  }

  lemma FieldPrintable(key: string, x: string)
    requires AllPrintable(key)
    ensures AllPrintable(Field(key, x)) && key <= Field(key, x)
  {
    EscapeIsAscii(x);
    AllPrintableConcat(key, Escape(x));
    AllPrintableConcat(key + Escape(x), "\"");
  }

  /** json.dumps(rule_definition) */
  function Encode(d: RuleDefinition): (r: string)
    ensures AllPrintable(r)
    ensures ColumnKey <= r && r[|r| - 1] == '}'
  {
    var f1 := Field(ColumnKey, d.column);
    var f2 := Field(ConditionKey, d.condition);
    var f3 := Field(ValueKey, d.value);
    KeysPrintable();
    FieldPrintable(ColumnKey, d.column);
    FieldPrintable(ConditionKey, d.condition);
    FieldPrintable(ValueKey, d.value);
    AllPrintableConcat(f1, f2);
    AllPrintableConcat(f1 + f2, f3);
    AllPrintableConcat(f1 + f2 + f3, "}");
    assert (f1 + f2 + f3 + "}")[..|ColumnKey|] == f1[..|ColumnKey|];
    f1 + f2 + f3 + "}"
  }

  /** Skips `key` at the start of `s`. */
  function After(s: string, key: string): Option<string>
  {
    if key <= s then Some(s[|key|..]) else None
  }

  /** Reads `key` and the string literal after it: the decoded text and what
      follows the closing quote. */
  function ReadField(s: string, key: string): Option<(string, string)>
  {
    match After(s, key)
    case None => None
    case Some(body) => Unescape(body)
  }

  /** json.loads of the stored text, for the layout json.dumps writes; None
      where json.loads would raise. */
  function Decode(s: string): (r: Option<RuleDefinition>)
    ensures r.Some? ==> ColumnKey <= s && s[|s| - 1] == '}'
  {
    match ReadField(s, ColumnKey)
    case None => None
    case Some((column, r1)) =>
      ReadFieldRest(s, ColumnKey);
      match ReadField(r1, ConditionKey)
      case None => None
      case Some((condition, r2)) =>
        ReadFieldRest(r1, ConditionKey);
        match ReadField(r2, ValueKey)
        case None => None
        case Some((value, r3)) =>
          ReadFieldRest(r2, ValueKey);
          if r3 == "}" then Some(RuleDefinition(column, condition, value)) else None
  }

  lemma ReadFieldRest(s: string, key: string)
    ensures RestOf(s, ReadField(s, key))
  {
    if key <= s {
      UnescapeRest(s[|key|..]);
    }
  }

  lemma ReadFieldField(key: string, x: string, tail: string)
    ensures ReadField(Field(key, x) + tail, key) == Some((x, tail))
  {
    var s := Field(key, x) + tail;
    assert s == key + (Escape(x) + "\"" + tail);
    assert s[|key|..] == Escape(x) + "\"" + tail;
    UnescapeEscape(x, tail);
  }

  /** get_rule_definition returns the dict the rule was created with. */
  lemma DecodeEncode(d: RuleDefinition)
    ensures Decode(Encode(d)) == Some(d)
  {
    var f3 := Field(ValueKey, d.value);
    var f2 := Field(ConditionKey, d.condition);
    var f1 := Field(ColumnKey, d.column);
    assert Encode(d) == f1 + (f2 + (f3 + "}"));
    ReadFieldField(ColumnKey, d.column, f2 + (f3 + "}"));
    ReadFieldField(ConditionKey, d.condition, f3 + "}");
    ReadFieldField(ValueKey, d.value, "}");
  }

  /** Distinct definitions are stored as distinct texts. */
  lemma EncodeInjective(d: RuleDefinition, e: RuleDefinition)
    requires Encode(d) == Encode(e)
    ensures d == e
  {
    DecodeEncode(d);
    DecodeEncode(e);
  }
}
