/**
 * Arithmetic shared by every scorer: Python's round(x, 2), the ratio of a
 * count to the row count, sums and means of score lists, and counting the
 * elements of a sequence that satisfy a predicate.
 */
module Numbers {

  /** Python's round(x, 2), taken over the reals and rounding halves up. */
  function Round2(x: real): real
  {
    ((x * 100.0 + 0.5).Floor as real) / 100.0
  }

  lemma Round2Monotone(x: real, y: real)
    requires x <= y
    ensures Round2(x) <= Round2(y)
  {
    var a, b := (x * 100.0 + 0.5).Floor, (y * 100.0 + 0.5).Floor;
    assert a <= b;
  }

  /** Rounding keeps a percentage a percentage. */
  lemma Round2Percent(x: real)
    requires 0.0 <= x <= 100.0
    ensures 0.0 <= Round2(x) <= 100.0
  {
    var a := (x * 100.0 + 0.5).Floor;
    assert 0 <= a <= 10000;
  }

  lemma Round2Within(x: real)
    ensures 0.0 <= x <= 100.0 ==> 0.0 <= Round2(x) <= 100.0
  {
    if 0.0 <= x <= 100.0 {
      Round2Percent(x);
    }
  }

  /** A value that already has at most two decimals is left as it is. */
  lemma Round2OfHundredths(k: int)
    ensures Round2(k as real / 100.0) == k as real / 100.0
  {
    var y := k as real / 100.0;
    assert y * 100.0 == k as real;
    assert (y * 100.0 + 0.5).Floor == k;
  }

  /** `k / n` as Python computes `valid_count / total_count`; the guarded
      zero-row case (and the model's stand-in for pandas' NaN mean over no
      rows) is 0. */
  function Frac(k: nat, n: nat): real
  {
    if n == 0 then 0.0 else k as real / n as real
  }

  lemma FracUnit(k: nat, n: nat)
    requires k <= n
    ensures 0.0 <= Frac(k, n) <= 1.0
  {
  }

  lemma FracMonotone(j: nat, k: nat, n: nat)
    requires j <= k
    ensures Frac(j, n) <= Frac(k, n)
  {
  }

  /** A share reaches the whole exactly when the part does. */
  lemma FracReachesOne(k: nat, n: nat)
    requires k <= n && n > 0
    ensures Frac(k, n) >= 1.0 <==> k == n
  {
    var r := k as real / n as real;
    assert r * n as real == k as real;
    if k < n {
      if r >= 1.0 {
        assert r * n as real >= 1.0 * n as real;
      }
    }
  }

  /** The shares of two parts of a whole add up to one. */
  lemma FracComplement(j: nat, k: nat, n: nat)
    requires j + k == n && n > 0
    ensures 1.0 - Frac(j, n) == Frac(k, n)
  {
    var r := n as real;
    assert j as real / r + k as real / r == (j as real + k as real) / r;
    assert (j as real + k as real) / r == 1.0;
  }

  /** A percentage of rows: `(count / total) * 100`, 0 when there are no rows. */
  function Percent(k: nat, n: nat): real
  {
    Frac(k, n) * 100.0
  }

  lemma PercentBounds(k: nat, n: nat)
    requires k <= n
    ensures 0.0 <= Percent(k, n) <= 100.0
  {
    FracUnit(k, n);
  }

  function Sum(xs: seq<real>): real
  {
    if xs == [] then 0.0 else Sum(xs[..|xs| - 1]) + xs[|xs| - 1]
  }

  /** Python's `sum(xs) / len(xs)`; the caller guards the empty list. */
  function Mean(xs: seq<real>): real
    requires xs != []
  {
    Sum(xs) / |xs| as real
  }

  ghost predicate Within(xs: seq<real>, lo: real, hi: real)
  {
    forall i :: 0 <= i < |xs| ==> lo <= xs[i] <= hi
  }

  lemma BoundsStep(k: real, n: real, lo: real, hi: real, s: real, x: real)
    requires n == k + 1.0 && k * lo <= s <= k * hi && lo <= x <= hi
    ensures n * lo <= s + x <= n * hi
  {
  }

  lemma {:induction false} SumBounds(xs: seq<real>, lo: real, hi: real)
    requires Within(xs, lo, hi)
    ensures |xs| as real * lo <= Sum(xs) <= |xs| as real * hi
  {
    if xs != [] {
      var init := xs[..|xs| - 1];
      assert Within(init, lo, hi);
      SumBounds(init, lo, hi);
      BoundsStep(|init| as real, |xs| as real, lo, hi, Sum(init), xs[|xs| - 1]);
    }
  }

  /** The mean of scores in [lo, hi] is in [lo, hi]. */
  lemma MeanBounds(xs: seq<real>, lo: real, hi: real)
    requires xs != [] && Within(xs, lo, hi)
    ensures lo <= Mean(xs) <= hi
  {
    SumBounds(xs, lo, hi);
    var n := |xs| as real;
    assert Sum(xs) / n <= (n * hi) / n;
    assert (n * lo) / n <= Sum(xs) / n;
  }

  /** A rounded mean of percentages is a percentage. */
  lemma RoundedMeanPercent(xs: seq<real>)
    requires xs != [] && Within(xs, 0.0, 100.0)
    ensures 0.0 <= Round2(Mean(xs)) <= 100.0
  {
    MeanBounds(xs, 0.0, 100.0);
    Round2Percent(Mean(xs));
  }

  lemma {:induction false} SumNonnegative(xs: seq<real>)
    requires forall i :: 0 <= i < |xs| ==> xs[i] >= 0.0
    ensures Sum(xs) >= 0.0
  {
    if xs != [] {
      var n := |xs| - 1;
      assert forall i :: 0 <= i < n ==> xs[..n][i] == xs[i];
      SumNonnegative(xs[..n]);
    }
  }

  /** Scores that are pointwise no larger have no larger sum. */
  lemma {:induction false} SumMonotone(xs: seq<real>, ys: seq<real>)
    requires |xs| == |ys| && forall i :: 0 <= i < |xs| ==> xs[i] <= ys[i]
    ensures Sum(xs) <= Sum(ys)
  {
    if xs != [] {
      var n := |xs| - 1;
      assert forall i :: 0 <= i < n ==> xs[..n][i] == xs[i] && ys[..n][i] == ys[i];
      SumMonotone(xs[..n], ys[..n]);
    }
  }

  /** So a rounded mean of pointwise smaller scores is no larger. */
  lemma RoundedMeanMonotone(xs: seq<real>, ys: seq<real>)
    requires xs != [] && |xs| == |ys| && forall i :: 0 <= i < |xs| ==> xs[i] <= ys[i]
    ensures Round2(Mean(xs)) <= Round2(Mean(ys))
  {
    SumMonotone(xs, ys);
    var n := |xs| as real;
    assert Sum(xs) / n <= Sum(ys) / n;
    Round2Monotone(Mean(xs), Mean(ys));
  }

  /** The rounded mean of scores that are all `k` hundredths is that score. */
  lemma RoundedMeanConstant(xs: seq<real>, k: int)
    requires xs != [] && forall i :: 0 <= i < |xs| ==> xs[i] == k as real / 100.0
    ensures Round2(Mean(xs)) == k as real / 100.0
  {
    var c := k as real / 100.0;
    SumBounds(xs, c, c);
    var n := |xs| as real;
    assert Sum(xs) == n * c;
    assert Mean(xs) == c;
    Round2OfHundredths(k);
  }

  function Max(a: real, b: real): real
  {
    if a < b then b else a
  }

  /** Number of elements of `s` that satisfy `p`, as pandas' `mask.sum()`. */
  function Count<T>(s: seq<T>, p: T -> bool): (n: nat)
    ensures n <= |s|
  {
    if s == [] then 0 else Count(s[..|s| - 1], p) + (if p(s[|s| - 1]) then 1 else 0)
  }

  /** A weaker predicate counts at least as many elements. */
  lemma {:induction false} CountMonotone<T>(s: seq<T>, p: T -> bool, q: T -> bool)
    requires forall x :: p(x) ==> q(x)
    ensures Count(s, p) <= Count(s, q)
  {
    if s != [] {
      CountMonotone(s[..|s| - 1], p, q);
    }
  }

  /** Elements that satisfy `p` and those that satisfy `q` partition `s`. */
  lemma {:induction false} CountPartition<T>(s: seq<T>, p: T -> bool, q: T -> bool)
    requires forall x :: p(x) <==> !q(x)
    ensures Count(s, p) + Count(s, q) == |s|
  {
    if s != [] {
      CountPartition(s[..|s| - 1], p, q);
    }
  }

  /** Two disjoint predicates count, together, what their union counts. */
  lemma {:induction false} CountDisjointUnion<T>(s: seq<T>, p: T -> bool, q: T -> bool, r: T -> bool)
    requires forall x :: r(x) <==> p(x) || q(x)
    requires forall x :: !(p(x) && q(x))
    ensures Count(s, p) + Count(s, q) == Count(s, r)
  {
    if s != [] {
      CountDisjointUnion(s[..|s| - 1], p, q, r);
    }
  }

  /** Counting distributes over concatenation. */
  lemma {:induction false} CountAppend<T>(s: seq<T>, t: seq<T>, p: T -> bool)
    ensures Count(s + t, p) == Count(s, p) + Count(t, p)
  {
    if t != [] {
      assert (s + t)[..|s + t| - 1] == s + t[..|t| - 1];
      CountAppend(s, t[..|t| - 1], p);
    } else {
      assert s + t == s;
    }
  }

  /** No element satisfies `p` exactly when the count is 0. */
  lemma {:induction false} CountZero<T>(s: seq<T>, p: T -> bool)
    ensures Count(s, p) == 0 <==> forall i :: 0 <= i < |s| ==> !p(s[i])
  {
    if s != [] {
      CountZero(s[..|s| - 1], p);
      if Count(s, p) == 0 {
        forall i | 0 <= i < |s| ensures !p(s[i]) {
          if i < |s| - 1 {
            assert s[i] == s[..|s| - 1][i];
          }
        }
      } else if !p(s[|s| - 1]) {
        var i :| 0 <= i < |s| - 1 && p(s[..|s| - 1][i]);
        assert s[i] == s[..|s| - 1][i];
      }
    }
  }

  /** Every element satisfies `p` exactly when the count is the length. */
  lemma {:induction false} CountAll<T>(s: seq<T>, p: T -> bool)
    ensures Count(s, p) == |s| <==> forall i :: 0 <= i < |s| ==> p(s[i])
  {
    if s != [] {
      var init := s[..|s| - 1];
      CountAll(init, p);
      if Count(s, p) == |s| {
        forall i | 0 <= i < |s| ensures p(s[i]) {
          if i < |s| - 1 {
            assert s[i] == init[i];
          }
        }
      } else if p(s[|s| - 1]) {
        var i :| 0 <= i < |s| - 1 && !p(init[i]);
        assert s[i] == init[i];
      }
    }
  }
}
