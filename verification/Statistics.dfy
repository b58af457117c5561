/** Sums, squared deviations and the non-negativity of variances, over the reals. */
module Statistics {

  function Sum(xs: seq<real>): real
  {
    if xs == [] then 0.0 else Sum(xs[..|xs| - 1]) + xs[|xs| - 1]
  }

  function SumSquares(xs: seq<real>): real
  {
    if xs == [] then 0.0 else SumSquares(xs[..|xs| - 1]) + xs[|xs| - 1] * xs[|xs| - 1]
  }

  /** Sum of squared distances from c. */
  function Spread(xs: seq<real>, c: real): real
  {
    if xs == [] then 0.0
    else Spread(xs[..|xs| - 1], c) + (xs[|xs| - 1] - c) * (xs[|xs| - 1] - c)
  }

  /** Sum of squared distances from c, written with the sums of a sample of size n. */
  function Expanded(squares: real, sum: real, n: real, c: real): real
  {
    squares - 2.0 * (c * sum) + n * (c * c)
  }

  lemma ExpandedStep(squares: real, sum: real, n: real, c: real, x: real)
    ensures Expanded(squares, sum, n, c) + (x - c) * (x - c) == Expanded(squares + x * x, sum + x, n + 1.0, c)
    ensures (x - c) * (x - c) >= 0.0
  {
    assert c * (sum + x) == c * sum + c * x;
    assert (n + 1.0) * (c * c) == n * (c * c) + c * c;
    assert (x - c) * (x - c) == x * x - 2.0 * (c * x) + c * c;
  }

  lemma {:induction false} SpreadExpands(xs: seq<real>, c: real)
    ensures Spread(xs, c) == Expanded(SumSquares(xs), Sum(xs), |xs| as real, c)
    ensures Spread(xs, c) >= 0.0
  {
    hide Expanded;
    if xs == [] {
      ExpandedEmpty(c);
    } else {
      var front, x := xs[..|xs| - 1], xs[|xs| - 1];
      SpreadExpands(front, c);
      ExpandedStep(SumSquares(front), Sum(front), |front| as real, c, x);
      assert Spread(xs, c) == Spread(front, c) + (x - c) * (x - c);
      assert SumSquares(xs) == SumSquares(front) + x * x && Sum(xs) == Sum(front) + x;
      assert |xs| as real == |front| as real + 1.0;
    }
  }

  lemma ExpandedEmpty(c: real)
    ensures Expanded(0.0, 0.0, 0.0, c) == 0.0
  {
  }

  /** The radicand of the jitter: mean of squares minus square of the mean. */
  function Radicand(xs: seq<real>): real
    requires xs != []
  {
    SumSquares(xs) / |xs| as real - (Sum(xs) / |xs| as real) * (Sum(xs) / |xs| as real)
  }

  /** The jitter's square root is always taken of a population variance, never of a negative number. */
  lemma RadicandIsVariance(xs: seq<real>)
    requires xs != []
    ensures Radicand(xs) == Spread(xs, Sum(xs) / |xs| as real) / |xs| as real
    ensures Radicand(xs) >= 0.0
  {
    hide Spread, Sum, SumSquares, Expanded;
    var n := |xs| as real;
    var m := Sum(xs) / n;
    SpreadExpands(xs, m);
    MeanOfSpread(SumSquares(xs), Sum(xs), n);
    NonNegativeQuotient(Spread(xs, m), n);
  }

  lemma MeanOfSpread(q: real, s: real, n: real)
    requires n > 0.0
    ensures Expanded(q, s, n, s / n) / n == q / n - (s / n) * (s / n)
  {
    var m := s / n;
    assert s == m * n;
    assert n * (m * m) == m * s;
    assert Expanded(q, s, n, m) == q - m * s;
    assert (q - m * s) / n == q / n - (m * s) / n;
    assert (m * s) / n == m * m;
  }

  lemma NonNegativeQuotient(a: real, n: real)
    requires a >= 0.0 && n > 0.0
    ensures a / n >= 0.0
  {
  }

  lemma QuotientBounds(lo: real, hi: real, a: real, n: real)
    requires n > 0.0 && lo * n <= a <= hi * n
    ensures lo <= a / n <= hi
  {
    assert a == (a / n) * n;
  }

  lemma {:induction false} SumBounds(xs: seq<real>, lo: real, hi: real)
    requires forall i :: 0 <= i < |xs| ==> lo <= xs[i] <= hi
    ensures lo * |xs| as real <= Sum(xs) <= hi * |xs| as real
  {
    if xs != [] {
      var n := |xs| - 1;
      SumBounds(xs[..n], lo, hi);
      BoundsStep(lo, hi, n as real, Sum(xs[..n]), xs[n]);
      assert |xs| as real == n as real + 1.0;
    }
  }

  lemma BoundsStep(lo: real, hi: real, n: real, s: real, x: real)
    requires lo * n <= s <= hi * n && lo <= x <= hi
    ensures lo * (n + 1.0) <= s + x <= hi * (n + 1.0)
  {
  }
}
