/**
 * The few Python string operations the scorers rely on: str.strip(),
 * str.lower(), `in` on strings, str.split(',') and float().
 */
module Strings {
  import opened Wrappers

  /** str.isspace() of one character, the set str.strip() and float()
      remove: \t to \r, the separators U+001C to U+001F, the space, U+0085,
      the no-break space and the Unicode space separators. */
  predicate IsSpace(c: char)
  {
    var n := c as int;
    || 9 <= n <= 13
    || 28 <= n <= 32
    || n == 0x85 || n == 0xA0 || n == 0x1680
    || 0x2000 <= n <= 0x200A
    || n == 0x2028 || n == 0x2029 || n == 0x202F || n == 0x205F || n == 0x3000
  }

  function TrimStart(s: string): (r: string)
    ensures |r| <= |s|
    ensures r == [] || !IsSpace(r[0])
  {
    if s != [] && IsSpace(s[0]) then TrimStart(s[1..]) else s
  }

  function TrimEnd(s: string): (r: string)
    ensures |r| <= |s| && r == s[..|r|]
    ensures r == [] || !IsSpace(r[|r| - 1])
  {
    if s != [] && IsSpace(s[|s| - 1]) then TrimEnd(s[..|s| - 1]) else s
  }

  /** str.strip() */
  function Strip(s: string): string
  {
    TrimEnd(TrimStart(s))
  }

  /** A string is blank after strip() exactly when it is all whitespace. */
  lemma {:induction false} StripEmptyIffAllSpace(s: string)
    ensures Strip(s) == [] <==> forall i :: 0 <= i < |s| ==> IsSpace(s[i])
  {
    TrimStartAllSpace(s);
    TrimEndAllSpace(TrimStart(s));
  }

  lemma {:induction false} TrimStartSuffix(s: string)
    ensures TrimStart(s) == s[|s| - |TrimStart(s)|..]
    ensures forall i :: 0 <= i < |s| - |TrimStart(s)| ==> IsSpace(s[i])
  {
    if s != [] && IsSpace(s[0]) {
      TrimStartSuffix(s[1..]);
    }
  }

  lemma {:induction false} TrimStartAllSpace(s: string)
    ensures TrimStart(s) == [] <==> forall i :: 0 <= i < |s| ==> IsSpace(s[i])
  {
    TrimStartSuffix(s);
  }

  lemma {:induction false} TrimEndAllSpace(s: string)
    ensures TrimEnd(s) == [] <==> forall i :: 0 <= i < |s| ==> IsSpace(s[i])
  {
    if s != [] && IsSpace(s[|s| - 1]) {
      TrimEndAllSpace(s[..|s| - 1]);
      if TrimEnd(s) == [] {
        forall i | 0 <= i < |s| ensures IsSpace(s[i]) {
          if i < |s| - 1 {
            assert s[i] == s[..|s| - 1][i];
          }
        }
      }
    }
  }

  function LowerChar(c: char): char
  {
    if 'A' <= c <= 'Z' then (c as int + 32) as char else c
  }

  /** str.lower() on ASCII letters; other characters are kept. */
  function Lower(s: string): (r: string)
    ensures |r| == |s|
  {
    if s == [] then [] else [LowerChar(s[0])] + Lower(s[1..])
  }

  /** Python's `k in s` for strings: `k` occurs in `s` as a substring. */
  predicate Contains(s: string, k: string)
    decreases |s|
  {
    k <= s || (s != [] && Contains(s[1..], k))
  }

  /** A string without the first character of `k` does not contain `k`. */
  lemma {:induction false} ContainsAbsent(s: string, k: string)
    requires k != [] && k[0] !in s
    ensures !Contains(s, k)
  {
    if s != [] {
      ContainsAbsent(s[1..], k);
    }
  }

  /** Positions where `k` does not start can be skipped. */
  lemma {:induction false} ContainsSkip(s: string, k: string, n: nat)
    requires n <= |s|
    requires forall j :: 0 <= j < n ==> !(k <= s[j..])
    ensures Contains(s, k) == Contains(s[n..], k)
  {
    if n > 0 {
      assert !(k <= s[0..]);
      assert s[1..][n - 1..] == s[n..];
      forall j | 0 <= j < n - 1 ensures !(k <= s[1..][j..]) {
        assert s[1..][j..] == s[j + 1..];
      }
      ContainsSkip(s[1..], k, n - 1);
    }
  }

  lemma {:induction false} ContainsAt(s: string, k: string, i: nat)
    requires i + |k| <= |s| && s[i..i + |k|] == k
    ensures Contains(s, k)
  {
    if i > 0 {
      assert s[1..][i - 1..i - 1 + |k|] == k;
      ContainsAt(s[1..], k, i - 1);
    }
  }

  /** Python's ordering of two strings, code point by code point: -1, 0
      or 1. */
  function TextSign(a: string, b: string): (r: int)
    ensures -1 <= r <= 1
    ensures r == 0 <==> a == b
  {
    if a == [] then (if b == [] then 0 else -1)
    else if b == [] then 1
    else if a[0] < b[0] then -1
    else if a[0] > b[0] then 1
    else
      assert a == [a[0]] + a[1..] && b == [b[0]] + b[1..];
      TextSign(a[1..], b[1..])
  }

  /** Swapping the operands reverses the order. */
  lemma {:induction false} TextSignAntisymmetric(a: string, b: string)
    ensures TextSign(b, a) == -TextSign(a, b)
  {
    if a != [] && b != [] && a[0] == b[0] {
      TextSignAntisymmetric(a[1..], b[1..]);
    }
  }

  /** str.split(sep) with an explicit separator: always at least one part. */
  function Split(s: string, sep: char): (parts: seq<string>)
    ensures |parts| >= 1
    decreases |s|
  {
    if s == [] then [""]
    else if s[0] == sep then [""] + Split(s[1..], sep)
    else var rest := Split(s[1..], sep); [[s[0]] + rest[0]] + rest[1..]
  }

  /** sep.join(parts) */
  function Join(parts: seq<string>, sep: char): string
    requires parts != []
  {
    if |parts| == 1 then parts[0] else parts[0] + [sep] + Join(parts[1..], sep)
  }

  /** Splitting loses nothing: joining the parts gives the string back, and
      no part holds the separator. */
  lemma {:induction false} SplitJoin(s: string, sep: char)
    ensures Join(Split(s, sep), sep) == s
    ensures forall i :: 0 <= i < |Split(s, sep)| ==> sep !in Split(s, sep)[i]
    decreases |s|
  {
    if s != [] {
      SplitJoin(s[1..], sep);
      var rest := Split(s[1..], sep);
      if s[0] == sep {
        assert Split(s, sep)[1..] == rest;
        assert [sep] + Join(rest, sep) == s;
      } else {
        var parts := Split(s, sep);
        assert parts[1..] == rest[1..];
        if |rest| == 1 {
          assert Join(parts, sep) == [s[0]] + rest[0];
        } else {
          assert Join(rest, sep) == rest[0] + [sep] + Join(rest[1..], sep);
          assert Join(parts, sep) == [s[0]] + rest[0] + [sep] + Join(rest[1..], sep);
        }
      }
    }
  }

  predicate IsDigit(c: char)
  {
    '0' <= c <= '9'
  }

  predicate AllDigits(s: string)
  {
    forall i :: 0 <= i < |s| ==> IsDigit(s[i])
  }

  function DigitsValue(s: string): nat
    requires AllDigits(s)
  {
    if s == [] then 0 else DigitsValue(s[..|s| - 1]) * 10 + (s[|s| - 1] as int - '0' as int)
  }

  function Pow10(n: nat): (r: nat)
    ensures r >= 1
  {
    if n == 0 then 1 else 10 * Pow10(n - 1)
  }

  /** Index of the first `c` in `s`, or |s| when there is none. */
  function IndexOf(s: string, c: char): (k: nat)
    ensures k <= |s|
    ensures k < |s| ==> s[k] == c
    ensures forall i :: 0 <= i < k ==> s[i] != c
  {
    if s == [] then 0 else if s[0] == c then 0 else 1 + IndexOf(s[1..], c)
  }

  /** Python's string order is transitive. */
  lemma {:induction false} TextSignTransitive(a: string, b: string, c: string)
    requires TextSign(a, b) < 0 && TextSign(b, c) < 0
    ensures TextSign(a, c) < 0
  {
    if a != [] && b != [] && c != [] && a[0] == b[0] == c[0] {
      TextSignTransitive(a[1..], b[1..], c[1..]);
    }
  }

  /** Unsigned decimal: digits, optionally a point and more digits, at least
      one digit in all. */
  function ParseUnsigned(t: string): Option<real>
  {
    var k := IndexOf(t, '.');
    var whole := t[..k];
    var frac := if k < |t| then t[k + 1..] else "";
    if AllDigits(whole) && AllDigits(frac) && |whole| + |frac| > 0 then
      Some(DigitsValue(whole) as real + DigitsValue(frac) as real / Pow10(|frac|) as real)
    else
      None
  }

  /** Python's float(s) on plain decimals: surrounding whitespace, an
      optional sign, digits with an optional fractional part. */
  function ParseFloat(s: string): Option<real>
  {
    var t := Strip(s);
    if t != [] && (t[0] == '-' || t[0] == '+') then
      match ParseUnsigned(t[1..])
      case None => None
      case Some(x) => Some(if t[0] == '-' then -x else x)
    else
      ParseUnsigned(t)
  }
}
