/**
 * The z-score outlier test that both accuracy scorers apply to numeric
 * columns: a value is an outlier when it lies more than three sample
 * standard deviations from the mean. Squared, the test needs no square
 * root: |x - m| / s > 3 exactly when (x - m)^2 > 9 * s^2.
 */
module Statistics {
  import opened Wrappers
  import opened Numbers
  import opened Frames

  /** The numbers of a column, in order, missing cells skipped (pandas'
      skipna). */
  function NumericValues(cells: seq<Cell>): (xs: seq<real>)
    ensures |xs| <= |cells|
  {
    if cells == [] then []
    else
      var last := cells[|cells| - 1];
      NumericValues(cells[..|cells| - 1]) + (if last.Some? && last.value.Num? then [last.value.x] else [])
  }

  /** Every number of a column is one of its values. */
  lemma {:induction false} NumericValuesMembers(cells: seq<Cell>)
    ensures forall i :: 0 <= i < |cells| && cells[i].Some? && cells[i].value.Num? ==> cells[i].value.x in NumericValues(cells)
  {
    if cells != [] {
      var n := |cells| - 1;
      NumericValuesMembers(cells[..n]);
      assert forall i :: 0 <= i < n ==> cells[..n][i] == cells[i];
    }
  }

  predicate HasInfinity(cells: seq<Cell>)
  {
    exists i :: 0 <= i < |cells| && cells[i].Some? && cells[i].value.Infinity?
  }

  function Deviations(xs: seq<real>, m: real): (ds: seq<real>)
    ensures |ds| == |xs|
  {
    seq(|xs|, i requires 0 <= i < |xs| => xs[i] - m)
  }

  /** The sum of the squares. */
  function SumSquares(xs: seq<real>): real
  {
    if xs == [] then 0.0 else SumSquares(xs[..|xs| - 1]) + xs[|xs| - 1] * xs[|xs| - 1]
  }

  /** Series.var(): the sum of squared deviations over n - 1. */
  function SampleVariance(xs: seq<real>): real
    requires |xs| >= 2
  {
    SumSquares(Deviations(xs, Mean(xs))) / (|xs| - 1) as real
  }

  /**
   * `col.std() > 0`: the standard deviation is a positive number. With an
   * infinity it is NaN and with fewer than two numbers it is NaN, so the
   * test fails in both cases.
   */
  predicate Spread(cells: seq<Cell>)
  {
    && !HasInfinity(cells)
    && |NumericValues(cells)| >= 2
    && SampleVariance(NumericValues(cells)) > 0.0
  }

  /** `z > 3` for one cell; a missing cell has a NaN z-score and is never an
      outlier. */
  predicate IsOutlier(m: real, v: real, c: Cell)
  {
    c.Some? && c.value.Num? && (c.value.x - m) * (c.value.x - m) > 9.0 * v
  }

  function Outlier(m: real, v: real): Cell -> bool
  {
    c => IsOutlier(m, v, c)
  }

  function OutlierCount(cells: seq<Cell>): nat
    requires Spread(cells)
  {
    var xs := NumericValues(cells);
    Count(cells, Outlier(Mean(xs), SampleVariance(xs)))
  }

  /** `100 - outlier_ratio * 100` where the ratio is over all rows, or 100
      when the column has no spread. */
  function OutlierScore(cells: seq<Cell>): (score: real)
    ensures 0.0 <= score <= 100.0
  {
    if Spread(cells) then
      PercentBounds(OutlierCount(cells), |cells|);
      100.0 - Percent(OutlierCount(cells), |cells|)
    else 100.0
  }

  lemma {:induction false} SumAppend(a: seq<real>, b: seq<real>)
    ensures Sum(a + b) == Sum(a) + Sum(b)
  {
    if b != [] {
      assert (a + b)[..|a + b| - 1] == a + b[..|b| - 1];
      SumAppend(a, b[..|b| - 1]);
    } else {
      assert a + b == a;
    }
  }

  /** Deviations from the mean sum to zero; k is the number of values. */
  lemma {:induction false} SumDeviations(xs: seq<real>, m: real, k: real)
    requires k == |xs| as real
    ensures Sum(Deviations(xs, m)) == Sum(xs) - k * m
  {
    if xs != [] {
      var n := |xs| - 1;
      SumDeviations(xs[..n], m, k - 1.0);
      assert Deviations(xs, m)[..n] == Deviations(xs[..n], m);
    }
  }

  lemma {:induction false} SumSquaresAppend(a: seq<real>, b: seq<real>)
    ensures SumSquares(a + b) == SumSquares(a) + SumSquares(b)
  {
    if b != [] {
      assert (a + b)[..|a + b| - 1] == a + b[..|b| - 1];
      SumSquaresAppend(a, b[..|b| - 1]);
    } else {
      assert a + b == a;
    }
  }

  lemma SquareNonnegative(x: real)
    ensures x * x >= 0.0
  {
  }

  lemma CauchyStep(a: real, b: real, y: real, k: real)
    requires k > 0.0 && a * a <= k * b
    ensures (a + y) * (a + y) <= (k + 1.0) * (b + y * y)
  {
    var x := (k + 1.0) * (b + y * y) - (a + y) * (a + y);
    assert k * x == k * (k + 1.0) * b - (k + 1.0) * (a * a) + (a - k * y) * (a - k * y);
    SquareNonnegative(a - k * y);
    assert k * (k + 1.0) * b >= (k + 1.0) * (a * a) by {
      assert k * b >= a * a;
    }
  }

  /** Cauchy-Schwarz against the all-ones vector: (sum y)^2 <= k * sum y^2
      where k is the number of values. */
  lemma {:induction false} SquareOfSum(ys: seq<real>, k: real)
    requires k == |ys| as real
    ensures Sum(ys) * Sum(ys) <= k * SumSquares(ys)
  {
    if |ys| == 1 {
      assert ys[..0] == [];
    } else if ys != [] {
      var n := |ys| - 1;
      var init := ys[..n];
      SquareOfSum(init, k - 1.0);
      CauchyStep(Sum(init), SumSquares(init), ys[n], k - 1.0);
    }
  }

  lemma ShiftBound(d: real, so: real, qo: real, s: real, k: real, n: real)
    requires n == k + 1.0 && k >= 0.0
    requires so == -d && qo == s - d * d && so * so <= k * qo
    ensures n * (d * d) <= k * s
  {
    assert so * so == d * d;
    assert k * (s - d * d) == k * s - k * (d * d);
  }

  /** The sum and the sum of squares of some numbers, with the
      Cauchy-Schwarz bound between them; k is their number. */
  lemma SumAndSquares(ys: seq<real>, k: real) returns (s: real, q: real)
    requires k == |ys| as real
    ensures s == Sum(ys) && q == SumSquares(ys)
    ensures s * s <= k * q
  {
    SquareOfSum(ys, k);
    s, q := Sum(ys), SumSquares(ys);
  }

  /** The last element split off a sum and a sum of squares. */
  lemma Snoc(ys: seq<real>) returns (init: seq<real>, y: real)
    requires ys != []
    ensures init == ys[..|ys| - 1] && y == ys[|ys| - 1]
    ensures Sum(ys) == Sum(init) + y && SumSquares(ys) == SumSquares(init) + y * y
  {
    init, y := ys[..|ys| - 1], ys[|ys| - 1];
  }

  /**
   * Cauchy-Schwarz for all the numbers but ys[j] == x: with s and q their
   * sum and sum of squares, s^2 <= (k - 1) * q where k counts all the
   * numbers.
   */
  lemma {:induction false} SkipOne(ys: seq<real>, j: nat, k: real, x: real) returns (s: real, q: real)
    requires j < |ys| && k == |ys| as real && ys[j] == x
    ensures s == Sum(ys) - x && q == SumSquares(ys) - x * x
    ensures s * s <= (k - 1.0) * q
  {
    var init, y := Snoc(ys);
    if j == |ys| - 1 {
      s, q := SumAndSquares(init, k - 1.0);
    } else if |ys| == 2 {
      assert init == [ys[0]] && j == 0;
      assert init[..0] == [];
      s, q := y, y * y;
    } else {
      assert init[j] == x;
      var s0, q0 := SkipOne(init, j, k - 1.0, x);
      CauchyStep(s0, q0, y, k - 2.0);
      s, q := s0 + y, q0 + y * y;
    }
  }

  /** Samuelson's inequality for numbers that sum to zero: n * d^2 <=
      (n - 1) * s for each number d, where s is the sum of squares and n
      the count. */
  lemma CenteredBound(ds: seq<real>, j: nat, n: real, d: real, s: real)
    requires j < |ds| && Sum(ds) == 0.0 && n == |ds| as real && ds[j] == d && s == SumSquares(ds)
    ensures n * (d * d) <= (n - 1.0) * s
  {
    var so, qo := SkipOne(ds, j, n, d);
    ShiftBound(d, so, qo, s, n - 1.0, n);
  }

  lemma DivTimes(a: real, b: real, q: real)
    requires b != 0.0 && q == a / b
    ensures q * b == a
  {
  }

  /**
   * Samuelson's inequality: no value lies further from the mean than
   * (n - 1) / sqrt(n) sample standard deviations; squared,
   * n * (x - m)^2 <= (n - 1) * ss where ss is the sum of squared
   * deviations.
   */
  lemma Samuelson(xs: seq<real>, j: nat, n: real, m: real, d: real, ss: real)
    requires j < |xs| && n == |xs| as real && m == Mean(xs) && d == xs[j] - m
    requires ss == SumSquares(Deviations(xs, m))
    ensures n * (d * d) <= (n - 1.0) * ss
  {
    var ds := Deviations(xs, m);
    SumDeviations(xs, m, n);
    DivTimes(Sum(xs), n, m);
    CenteredBound(ds, j, n, d, ss);
  }

  /** The arithmetic behind the ten-value bound: (n - 1)^2 <= 8.1 * n for
      n from 2 to 10. */
  lemma TenValuesArithmetic(n: int, nr: real, dd: real, s: real, v: real)
    requires 2 <= n <= 10 && nr == n as real && dd >= 0.0
    requires nr * dd <= (nr - 1.0) * s && s == v * (nr - 1.0)
    ensures dd <= 8.1 * v
  {
    if n == 2 {} else if n == 3 {} else if n == 4 {} else if n == 5 {} else if n == 6 {}
    else if n == 7 {} else if n == 8 {} else if n == 9 {} else {}
  }

  /** The mean, the variance and the sum of squared deviations, which is
      the variance times n - 1. */
  lemma Moments(xs: seq<real>, n: real) returns (m: real, v: real, ss: real)
    requires |xs| >= 2 && n == |xs| as real
    ensures m == Mean(xs) && v == SampleVariance(xs)
    ensures ss == SumSquares(Deviations(xs, m)) && ss == v * (n - 1.0)
  {
    m := Mean(xs);
    ss := SumSquares(Deviations(xs, m));
    v := SampleVariance(xs);
    DivTimes(ss, n - 1.0, v);
  }

  /** The same arithmetic with d^2 as a square. */
  lemma TenValuesSquare(n: int, nr: real, d: real, ss: real, v: real)
    requires 2 <= n <= 10 && nr == n as real
    requires nr * (d * d) <= (nr - 1.0) * ss && ss == v * (nr - 1.0)
    ensures d * d <= 8.1 * v
  {
    SquareNonnegative(d);
    TenValuesArithmetic(n, nr, d * d, ss, v);
  }

  /** Samuelson's bound for at most ten numbers: d^2 <= 8.1 * variance
      where d is a number's distance from the mean. */
  lemma FewValuesBound(xs: seq<real>, j: nat) returns (d: real)
    requires 2 <= |xs| <= 10 && j < |xs|
    ensures d == xs[j] - Mean(xs) && d * d <= 8.1 * SampleVariance(xs)
  {
    var n := |xs| as real;
    var m, v, ss := Moments(xs, n);
    d := xs[j] - m;
    Samuelson(xs, j, n, m, d, ss);
    TenValuesSquare(|xs|, n, d, ss, v);
  }

  lemma BelowThreshold(x: real, m: real, v: real, d: real)
    requires d == x - m && d * d <= 8.1 * v && v > 0.0
    ensures !((x - m) * (x - m) > 9.0 * v)
  {
  }

  /** A value among at most ten numbers with some spread is not an
      outlier. */
  lemma NotOutlierAmong(xs: seq<real>, j: nat, x: real)
    requires 2 <= |xs| <= 10 && j < |xs| && xs[j] == x && SampleVariance(xs) > 0.0
    ensures !IsOutlier(Mean(xs), SampleVariance(xs), Some(Num(x)))
  {
    var d := FewValuesBound(xs, j);
    BelowThreshold(x, Mean(xs), SampleVariance(xs), d);
  }

  /** One cell of a column with at most ten numbers is not an outlier. */
  lemma NotOutlier(cells: seq<Cell>, i: nat)
    requires 2 <= |NumericValues(cells)| <= 10 && SampleVariance(NumericValues(cells)) > 0.0
    requires i < |cells|
    requires cells[i].Some? && cells[i].value.Num?
    ensures !IsOutlier(Mean(NumericValues(cells)), SampleVariance(NumericValues(cells)), cells[i])
  {
    var j := NumericIndex(cells, i);
    NotOutlierAmong(NumericValues(cells), j, cells[i].value.x);
    assert cells[i] == Some(Num(cells[i].value.x));
  }

  /** Where a numeric cell's value sits among the column's numbers. */
  lemma NumericIndex(cells: seq<Cell>, i: nat) returns (j: nat)
    requires i < |cells| && cells[i].Some? && cells[i].value.Num?
    ensures j < |NumericValues(cells)| && NumericValues(cells)[j] == cells[i].value.x
  {
    NumericValuesMembers(cells);
    var xs := NumericValues(cells);
    j :| 0 <= j < |xs| && xs[j] == cells[i].value.x;
  }

  /**
   * With ten numbers or fewer no value can be an outlier: Samuelson's bound
   * (n - 1)^2 / n is at most 8.1, below the test's 9.
   */
  lemma FewValuesHaveNoOutliers(cells: seq<Cell>)
    requires Spread(cells) && |NumericValues(cells)| <= 10
    ensures OutlierCount(cells) == 0
  {
    var xs := NumericValues(cells);
    var m, v := Mean(xs), SampleVariance(xs);
    forall i | 0 <= i < |cells| ensures !Outlier(m, v)(cells[i]) {
      if cells[i].Some? && cells[i].value.Num? {
        NotOutlier(cells, i);
      }
    }
    CountZero(cells, Outlier(m, v));
  }

  lemma NoOutliersFullScore(cells: seq<Cell>)
    requires Spread(cells) && OutlierCount(cells) == 0
    ensures OutlierScore(cells) == 100.0
  {
    assert Frac(0, |cells|) == 0.0;
  }

  /** A column of at most ten numbers scores full marks. */
  lemma FewValuesScoreFull(cells: seq<Cell>)
    requires |NumericValues(cells)| <= 10
    ensures OutlierScore(cells) == 100.0
  {
    if Spread(cells) {
      FewValuesHaveNoOutliers(cells);
      NoOutliersFullScore(cells);
    }
  }

  /** Non-negative numbers that sum to 0 are all 0. */
  lemma {:induction false} ZeroSumOfNonnegatives(xs: seq<real>)
    requires forall i :: 0 <= i < |xs| ==> xs[i] >= 0.0
    requires Sum(xs) == 0.0
    ensures forall i :: 0 <= i < |xs| ==> xs[i] == 0.0
  {
    if xs != [] {
      var n := |xs| - 1;
      var init := xs[..n];
      assert forall i :: 0 <= i < n ==> init[i] == xs[i];
      SumNonnegative(init);
      ZeroSumOfNonnegatives(init);
    }
  }

  lemma {:induction false} SumSquaresOfZeros(xs: seq<real>)
    requires forall i :: 0 <= i < |xs| ==> xs[i] == 0.0
    ensures SumSquares(xs) == 0.0
  {
    if xs != [] {
      var n := |xs| - 1;
      assert forall i :: 0 <= i < n ==> xs[..n][i] == xs[i];
      SumSquaresOfZeros(xs[..n]);
    }
  }

  /** Values that are all equal have no variance. */
  lemma ConstantVariance(xs: seq<real>, c: real)
    requires |xs| >= 2 && forall i :: 0 <= i < |xs| ==> xs[i] == c
    ensures SampleVariance(xs) == 0.0
  {
    SumBounds(xs, c, c);
    var n := |xs| as real;
    assert Sum(xs) == n * c;
    assert Mean(xs) == c;
    SumSquaresOfZeros(Deviations(xs, c));
  }

  /** Non-negative values with a positive variance have a positive mean, so
      dividing by the mean is defined. */
  lemma PositiveMean(xs: seq<real>)
    requires |xs| >= 2 && forall i :: 0 <= i < |xs| ==> xs[i] >= 0.0
    requires SampleVariance(xs) > 0.0
    ensures Mean(xs) > 0.0
  {
    SumNonnegative(xs);
    if Mean(xs) <= 0.0 {
      var n := |xs| as real;
      assert Sum(xs) == Mean(xs) * n;
      ZeroSumOfNonnegatives(xs);
      ConstantVariance(xs, 0.0);
      assert false;
    }
  }
}
