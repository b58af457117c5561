/** The DCTCP example's fairness report: Jain's index over per-flow byte counters, in 64-bit arithmetic. */
module Fairness {
  import opened Common

  // ---------- the exact sums ----------

  function Total(xs: seq<nat>): nat
  {
    if xs == [] then 0 else Total(xs[..|xs| - 1]) + xs[|xs| - 1]
  }

  function Squares(xs: seq<nat>): nat
  {
    if xs == [] then 0 else Squares(xs[..|xs| - 1]) + xs[|xs| - 1] * xs[|xs| - 1]
  }

  /** Sum of squared differences from y. */
  function Differences(xs: seq<nat>, y: nat): nat
  {
    if xs == [] then 0 else Differences(xs[..|xs| - 1], y) + Square(xs[|xs| - 1] - y)
  }

  function Square(d: int): nat
  {
    if d >= 0 then d * d else (-d) * (-d)
  }

  /** Sum of squared differences over all pairs. */
  function PairDifferences(xs: seq<nat>): nat
  {
    if xs == [] then 0
    else PairDifferences(xs[..|xs| - 1]) + Differences(xs[..|xs| - 1], xs[|xs| - 1])
  }

  lemma SquareExpands(x: nat, y: nat)
    ensures Square(x - y) == x * x - 2 * (x * y) + y * y
    ensures Square(x - y) == 0 <==> x == y
  {
    var d := x - y;
    assert d * d == x * x - 2 * (x * y) + y * y;
    if d > 0 {
      assert d * d >= 1 * d;
    } else if d < 0 {
      assert (-d) * (-d) >= 1 * (-d);
    }
  }

  lemma {:induction false} DifferencesExpand(xs: seq<nat>, y: nat)
    ensures Differences(xs, y) == Squares(xs) - 2 * (Total(xs) * y) + |xs| * (y * y)
    ensures Differences(xs, y) == 0 <==> forall i :: 0 <= i < |xs| ==> xs[i] == y
  {
    if xs != [] {
      var front, x := xs[..|xs| - 1], xs[|xs| - 1];
      DifferencesExpand(front, y);
      SquareExpands(x, y);
      Distribute(Total(front), x, y);
      Distribute(|front|, 1, y * y);
      assert forall i :: 0 <= i < |front| ==> front[i] == xs[i];
    }
  }

  lemma Distribute(a: int, b: int, c: int)
    ensures (a + b) * c == a * c + b * c
  {
  }

  lemma LagrangeStep(n: nat, q: nat, s: nat, p: nat, d: nat, x: nat)
    requires n * q == s * s + p && d == q - 2 * (s * x) + n * (x * x)
    ensures (n + 1) * (q + x * x) == (s + x) * (s + x) + (p + d)
  {
    Distribute(n, 1, q + x * x);
    Distribute(q, x * x, n);
    Distribute(s, x, s + x);
    Distribute(s, x, s);
    Distribute(s, x, x);
  }

  /** Lagrange's identity: how far the sum is from its largest possible value. */
  lemma {:induction false} LagrangeIdentity(xs: seq<nat>)
    ensures |xs| * Squares(xs) == Total(xs) * Total(xs) + PairDifferences(xs)
    ensures PairDifferences(xs) == 0 <==> AllEqual(xs)
  {
    if xs != [] {
      var front, x := xs[..|xs| - 1], xs[|xs| - 1];
      LagrangeIdentity(front);
      DifferencesExpand(front, x);
      assert forall i :: 0 <= i < |front| ==> front[i] == xs[i];
      PairsSnoc(xs);
      hide Differences, PairDifferences, Squares, Total;
      LagrangeStep(|front|, Squares(front), Total(front), PairDifferences(front), Differences(front, x), x);
    }
  }

  lemma PairsSnoc(xs: seq<nat>)
    requires xs != []
    ensures var front, x := xs[..|xs| - 1], xs[|xs| - 1];
            && PairDifferences(xs) == PairDifferences(front) + Differences(front, x)
            && Total(xs) == Total(front) + x && Squares(xs) == Squares(front) + x * x && |xs| == |front| + 1
  {
  }

  ghost predicate AllEqual(xs: seq<nat>)
  {
    forall i, j :: 0 <= i < j < |xs| ==> xs[i] == xs[j]
  }

  /** At most one counter is not zero. */
  ghost predicate OneFlow(xs: seq<nat>)
  {
    forall i, j :: 0 <= i < j < |xs| ==> xs[i] == 0 || xs[j] == 0
  }

  lemma {:induction false} TotalZeroIff(xs: seq<nat>)
    ensures Total(xs) == 0 <==> forall i :: 0 <= i < |xs| ==> xs[i] == 0
  {
    if xs != [] {
      TotalZeroIff(xs[..|xs| - 1]);
      assert forall i :: 0 <= i < |xs| - 1 ==> xs[..|xs| - 1][i] == xs[i];
    }
  }

  /** The square of the sum is at least the sum of the squares, with equality when one flow has everything. */
  lemma {:induction false} SquaresBelowTotal(xs: seq<nat>)
    ensures Squares(xs) <= Total(xs) * Total(xs)
    ensures Squares(xs) == Total(xs) * Total(xs) <==> OneFlow(xs)
  {
    if xs != [] {
      var front, x := xs[..|xs| - 1], xs[|xs| - 1];
      SquaresBelowTotal(front);
      TotalZeroIff(front);
      PairsSnoc(xs);
      assert forall i :: 0 <= i < |front| ==> front[i] == xs[i];
      hide Total, Squares;
      SquareOfSum(Total(front), x);
      ProductZeroIff(Total(front), x);
    }
  }

  lemma SquareOfSum(s: nat, x: nat)
    ensures (s + x) * (s + x) == s * s + 2 * (s * x) + x * x
  {
    Distribute(s, x, s + x);
    Distribute(s, x, s);
    Distribute(s, x, x);
  }

  lemma ProductZeroIff(a: nat, b: nat)
    ensures a * b >= 0 && (a * b == 0 <==> a == 0 || b == 0)
  {
    if a > 0 && b > 0 {
      assert a * b >= 1 * b by { Distribute(a - 1, 1, b); NonNegativeProduct(a - 1, b); }
    }
  }

  lemma NonNegativeProduct(a: nat, b: nat)
    ensures a * b >= 0
  {
  }

  // ---------- Jain's index ----------

  function Jain(xs: seq<nat>): real
    requires Squares(xs) > 0 && xs != []
  {
    ProductZeroIff(|xs|, Squares(xs));
    (Total(xs) * Total(xs)) as real / (|xs| * Squares(xs)) as real
  }

  lemma RatioBounds(a: nat, b: nat, n: nat)
    requires 0 < b <= a <= n * b && 0 < n && 0 < n * b
    ensures 1.0 / n as real <= a as real / (n * b) as real <= 1.0
    ensures a as real / (n * b) as real == 1.0 <==> a == n * b
    ensures a as real / (n * b) as real == 1.0 / n as real <==> a == b
  {
    var d := (n * b) as real;
    var r, u := a as real / d, 1.0 / n as real;
    TimesBack(a as real, d);
    UnitTimes(n, b, u);
    assert r * d == a as real && u * d == b as real && 1.0 * d == d;
    Ordered(u, r, 1.0, d, b, a, n * b);
  }

  lemma TimesBack(x: real, d: real)
    requires d > 0.0
    ensures x / d * d == x
  {
  }

  lemma UnitTimes(n: nat, b: nat, u: real)
    requires 0 < n && u == 1.0 / n as real
    ensures u * (n * b) as real == b as real
  {
    TimesBack(1.0, n as real);
    assert (n * b) as real == n as real * b as real;
    assert u * (n as real * b as real) == (u * n as real) * b as real;
  }

  /** Three quotients compare as their numerators. */
  lemma Ordered(u: real, r: real, v: real, d: real, b: nat, a: nat, c: nat)
    requires d > 0.0 && u * d == b as real && r * d == a as real && v * d == c as real && b <= a <= c
    ensures u <= r <= v && (r == v <==> a == c) && (r == u <==> a == b)
  {
    Compare(u, r, d);
    Compare(r, v, d);
  }

  /** Multiplying by a positive number compares. */
  lemma Compare(a: real, b: real, d: real)
    requires d > 0.0
    ensures a * d <= b * d ==> a <= b
    ensures a * d == b * d <==> a == b
  {
    if a > b {
      Positive(a - b, d, (a - b) * d);
    } else if a < b {
      Positive(b - a, d, (b - a) * d);
    }
  }

  lemma Positive(a: real, d: real, product: real)
    requires a > 0.0 && d > 0.0 && product == a * d
    ensures product > 0.0
  {
  }

  /** Jain's index lies between 1/n and 1; it is 1 exactly when all flows got the same and 1/n exactly when one flow
      got everything. */
  lemma JainBounds(xs: seq<nat>)
    requires Total(xs) > 0
    ensures Squares(xs) > 0 && 1.0 / |xs| as real <= Jain(xs) <= 1.0
    ensures Jain(xs) == 1.0 <==> AllEqual(xs)
    ensures Jain(xs) == 1.0 / |xs| as real <==> OneFlow(xs)
  {
    var t, q, n := Total(xs), Squares(xs), |xs|;
    LagrangeIdentity(xs);
    SquaresBelowTotal(xs);
    ProductZeroIff(t, t);
    ProductZeroIff(n, q);
    hide Total, Squares, PairDifferences, AllEqual, OneFlow;
    RatioBounds(t * t, q, n);
  }

  // ---------- in 64 bits ----------

  /** Jain's index, if any counter is not zero. */
  ghost function IndexOrNone(xs: seq<nat>): Option<real>
    requires xs != []
  {
    if Total(xs) == 0 then None else (JainBounds(xs); Some(Jain(xs)))
  }

  function Mul64(a: nat, b: nat): u64 { (a * b) % TWO64 }

  /** One group's line of the report; no value stands for the floating-point results of dividing by zero. */
  function Ratio(sum: u64, sumSquares: u64, n: nat): Option<real>
  {
    var d := Mul64(n, sumSquares);
    if d == 0 then None else Some(Mul64(sum, sum) as real / d as real)
  }

  lemma SumStep(a: nat, b: nat)
    ensures Add64(a % TWO64, b) == (a + b) % TWO64
    ensures Add64(a % TWO64, b % TWO64) == (a + b) % TWO64
  {
    WrappedSum(a, b);
    WrappedSum(b, a % TWO64);
  }

  lemma SumsOfNothing(xs: seq<nat>)
    requires xs == []
    ensures Total(xs) % TWO64 == 0 && Squares(xs) % TWO64 == 0
  {
  }

  /** One more counter in the wrapped sums. */
  lemma SumsSnoc(xs: seq<nat>, x: u64)
    ensures Total(xs + [x]) % TWO64 == Add64(Total(xs) % TWO64, x)
    ensures Squares(xs + [x]) % TWO64 == Square64(Squares(xs) % TWO64, x)
  {
    PairsSnoc(xs + [x]);
    assert (xs + [x])[..|xs|] == xs;
    SumStep(Total(xs), x);
    SumStep(Squares(xs), x * x);
    hide Add64, Total, Squares;
  }

  /** Accumulates the sums of one group and computes its index. */
  method GroupFairness(bytes: array<u64>) returns (sum: u64, sumSquares: u64, fairness: Option<real>)
    ensures sum == Total(bytes[..]) % TWO64 && sumSquares == Squares(bytes[..]) % TWO64
    ensures fairness == Ratio(sum, sumSquares, bytes.Length)
  {
    sum, sumSquares := 0, 0;
    var i := 0;
    hide Add64, Square64, Ratio, Total, Squares;
    SumsOfNothing(bytes[..0]);
    while i < bytes.Length
      invariant 0 <= i <= bytes.Length
      invariant sum == Total(bytes[..i]) % TWO64 && sumSquares == Squares(bytes[..i]) % TWO64
    {
      SumsSnoc(bytes[..i], bytes[i]);
      assert bytes[..i + 1] == bytes[..i] + [bytes[i]];
      sum := Add64(sum, bytes[i]);
      sumSquares := Square64(sumSquares, bytes[i]);
      i := i + 1;
    }
    assert bytes[..i] == bytes[..];
    fairness := Ratio(sum, sumSquares, bytes.Length);
  }

  /** Adds a wrapped square to a wrapped sum. */
  function Square64(sumSquares: u64, b: u64): (r: u64)
    ensures r == Add64(sumSquares, (b * b) % TWO64)
  {
    Add64(sumSquares, Mul64(b, b))
  }

  /** The two exact products of the report: square of the sum, and number of flows times sum of squares. */
  function SumSquared(xs: seq<nat>): nat { Total(xs) * Total(xs) }

  function Scale(xs: seq<nat>): nat { |xs| * Squares(xs) }

  /** The wrapped denominator is not zero, and both products wrap in proportion. */
  predicate WrapsInProportion(t: nat, d: nat)
  {
    d % TWO64 != 0 && (t / TWO64) * d == (d / TWO64) * t
  }

  /** What the two sums modulo 2^64 give. */
  function Reported(xs: seq<nat>): Option<real>
  {
    Ratio(Total(xs) % TWO64, Squares(xs) % TWO64, |xs|)
  }

  /** The exact condition for the report to be right. */
  predicate ReportsIndex(xs: seq<nat>)
  {
    Total(xs) == 0 || WrapsInProportion(SumSquared(xs), Scale(xs))
  }

  lemma MulWraps(a: nat, b: nat)
    ensures (a * (b % TWO64)) % TWO64 == (a * b) % TWO64
  {
    var q, r := b / TWO64, b % TWO64;
    assert a * b == a * r + (a * q) * TWO64 by {
      assert b == q * TWO64 + r;
      assert a * (q * TWO64 + r) == a * (q * TWO64) + a * r;
      assert a * (q * TWO64) == (a * q) * TWO64;
    }
    WholeWords(a * r, a * q);
  }

  lemma WholeWords(x: nat, k: nat)
    ensures (x + k * TWO64) % TWO64 == x % TWO64
  {
  }

  /** What the report computes from the wrapped sums. */
  lemma RatioIsWrapped(xs: seq<nat>)
    ensures Reported(xs)
            == if Scale(xs) % TWO64 == 0 then None
               else Some((SumSquared(xs) % TWO64) as real / (Scale(xs) % TWO64) as real)
  {
    var t := Total(xs);
    MulWraps(|xs|, Squares(xs));
    MulWraps(t % TWO64, t);
    MulWraps(t, t);
    assert (t % TWO64) * t == t * (t % TWO64);
    hide Total, Squares;
  }

  /** Two quotients agree exactly if the cross products do. */
  lemma SameQuotient(a: nat, b: nat, c: nat, d: nat)
    requires b > 0 && d > 0
    ensures a as real / b as real == c as real / d as real <==> a * d == c * b
  {
    var p, q := a as real / b as real, c as real / d as real;
    var w := b as real * d as real;
    assert p * b as real == a as real && q * d as real == c as real;
    assert p * w == a as real * d as real by { assert p * w == (p * b as real) * d as real; }
    assert q * w == c as real * b as real by { assert q * w == (q * d as real) * b as real; }
    assert (a * d) as real == a as real * d as real && (c * b) as real == c as real * b as real;
    Positive(b as real, d as real, w);
    Compare(p, q, w);
  }

  /** The remainders are in the proportion of the numbers exactly if the quotients are. */
  lemma RemaindersInProportion(t: nat, d: nat)
    ensures (t % TWO64) * d == t * (d % TWO64) <==> (t / TWO64) * d == (d / TWO64) * t
  {
    var m, n := t / TWO64, d / TWO64;
    assert (t % TWO64) * d == t * d - (m * d) * TWO64 by {
      assert t % TWO64 == t - m * TWO64;
      assert (t - m * TWO64) * d == t * d - (m * TWO64) * d;
      assert (m * TWO64) * d == (m * d) * TWO64;
    }
    assert t * (d % TWO64) == t * d - (n * t) * TWO64 by {
      assert d % TWO64 == d - n * TWO64;
      assert t * (d - n * TWO64) == t * d - t * (n * TWO64);
      assert t * (n * TWO64) == (n * t) * TWO64;
    }
  }

  /** The report, in 64 bits, is Jain's index (or none, when all counters are zero) exactly if all counters are zero or
      the two products wrap in proportion. */
  lemma ReportIsJainIff(xs: seq<nat>)
    requires xs != []
    ensures Reported(xs) == IndexOrNone(xs) <==> ReportsIndex(xs)
  {
    var t, d := SumSquared(xs), Scale(xs);
    RatioIsWrapped(xs);
    if Total(xs) == 0 {
      ZeroTotals(xs);
    } else {
      ExactIndex(xs);
      hide Total, SumSquared, Scale, Ratio, IndexOrNone;
      if d % TWO64 != 0 {
        SameQuotient(t % TWO64, d % TWO64, t, d);
        RemaindersInProportion(t, d);
      }
    }
  }

  lemma ZeroTotals(xs: seq<nat>)
    requires xs != [] && Total(xs) == 0
    ensures Scale(xs) == 0 && IndexOrNone(xs) == None
  {
    SquaresBelowTotal(xs);
  }

  lemma ExactIndex(xs: seq<nat>)
    requires xs != [] && Total(xs) > 0
    ensures Scale(xs) > 0 && IndexOrNone(xs) == Some(SumSquared(xs) as real / Scale(xs) as real)
  {
    JainBounds(xs);
    ProductZeroIff(|xs|, Squares(xs));
    hide Total, Squares;
  }

  /** In particular the report is right whenever nothing wraps. */
  lemma ReportIsJain(xs: seq<nat>)
    requires xs != [] && Scale(xs) < TWO64
    ensures Reported(xs) == IndexOrNone(xs)
  {
    ReportIsJainIff(xs);
    LagrangeIdentity(xs);
    var t, d := SumSquared(xs), Scale(xs);
    if Total(xs) != 0 {
      ExactIndex(xs);
    }
    hide Total, Squares, Ratio, IndexOrNone, PairDifferences;
    SmallMod(t);
    SmallMod(d);
    assert t / TWO64 == 0 && d / TWO64 == 0;
  }

  lemma SmallMod(a: nat)
    requires a < TWO64
    ensures a % TWO64 == a
  {
  }

  lemma {:induction false} SumBound(xs: seq<nat>, b: nat)
    requires forall i :: 0 <= i < |xs| ==> xs[i] <= b
    ensures Squares(xs) <= |xs| * (b * b)
  {
    if xs != [] {
      var front, x := xs[..|xs| - 1], xs[|xs| - 1];
      SumBound(front, b);
      Distribute(|front|, 1, b * b);
      SquareGrows(x, b);
    }
  }

  lemma SquareGrows(x: nat, b: nat)
    requires x <= b
    ensures x * x <= b * b
  {
    Distribute(x, b - x, b);
    Distribute(x, b - x, x);
    NonNegativeProduct(b - x, b);
    NonNegativeProduct(b - x, x);
  }

  lemma ScaledBound(n: nat, q: nat, c: nat)
    requires q <= n * c
    ensures n * q <= n * (n * c)
  {
    Distribute(q, n * c - q, n);
    NonNegativeProduct(n * c - q, n);
  }

  lemma Regroup(n: nat, b: nat)
    ensures n * (n * (b * b)) == (n * b) * (n * b)
  {
    assert n * (b * b) == (n * b) * b;
    assert n * ((n * b) * b) == (n * b) * (n * b);
  }

  /** Counters of at most b bytes in n flows do not wrap as long as the square of n times b fits in 64 bits. */
  lemma SmallCountersDoNotWrap(xs: seq<nat>, b: nat)
    requires forall i :: 0 <= i < |xs| ==> xs[i] <= b
    requires (|xs| * b) * (|xs| * b) < TWO64
    ensures Scale(xs) < TWO64
  {
    SumBound(xs, b);
    hide Squares;
    ScaledBound(|xs|, Squares(xs), b * b);
    Regroup(|xs|, b);
  }

  /** Beyond that the report can be meaningless: ten flows that got exactly the same, 2^31 bytes each, have index 1
      but are reported without any value. */
  lemma WrapLosesIndex(xs: seq<nat>)
    requires xs == seq(10, i => 0x8000_0000)
    ensures AllEqual(xs) && Total(xs) > 0 && Reported(xs) == None
    ensures !ReportsIndex(xs)
  {
    EqualFlows(10, 0x8000_0000);
    ExactIndex(xs);
    ReportIsJainIff(xs);
    hide Total, Squares, IndexOrNone, ReportsIndex;
    assert Squares(xs) == 0xA * 0x4000_0000_0000_0000;
    assert Squares(xs) % TWO64 == 0x8000_0000_0000_0000;
    assert Mul64(10, 0x8000_0000_0000_0000) == 0;
  }

  lemma {:induction false} EqualFlows(n: nat, b: nat)
    ensures var xs := seq(n, i => b); Total(xs) == n * b && Squares(xs) == n * (b * b)
  {
    if n > 0 {
      var xs := seq(n, i => b);
      EqualFlows(n - 1, b);
      assert xs[..n - 1] == seq(n - 1, i => b);
      Distribute(n - 1, 1, b);
      Distribute(n - 1, 1, b * b);
    }
  }

  // ---------- the counters and the whole report ----------

  datatype Group = S1R1 | S2R2 | S3R1

  /** The global counter vectors. */
  class Counters {
    const s1r1: array<u64>
    const s2r2: array<u64>
    const s3r1: array<u64>

    function Of(g: Group): array<u64>
    {
      match g case S1R1 => s1r1 case S2R2 => s2r2 case S3R1 => s3r1
    }

    ghost predicate Valid()
    {
      s1r1.Length == 10 && s2r2.Length == 20 && s3r1.Length == 10
      && s1r1 != s2r2 && s1r1 != s3r1 && s2r2 != s3r1
    }

    /** Zeroes every counter, as the start of the measurement window does. */
    constructor ()
      ensures Valid() && forall g :: fresh(Of(g)) && forall i :: 0 <= i < Of(g).Length ==> Of(g)[i] == 0
    {
      s1r1 := new u64[10](i => 0);
      s2r2 := new u64[20](i => 0);
      s3r1 := new u64[10](i => 0);
    }

    /** A packet arrived at one sink: only its counter changes. */
    method TraceSink(g: Group, index: nat, size: u64)
      requires Valid() && index < Of(g).Length
      modifies Of(g)
      ensures Of(g)[..] == old(Of(g)[..])[index := Add64(old(Of(g)[index]), size)]
    {
      var counters := Of(g);
      counters[index] := Add64(counters[index], size);
    }

    /** The three indices of the report, each over its own group. */
    method PrintFairness() returns (f1: Option<real>, f2: Option<real>, f3: Option<real>)
      requires Valid()
      ensures f1 == Reported(s1r1[..]) && f2 == Reported(s2r2[..]) && f3 == Reported(s3r1[..])
      ensures f1 == IndexOrNone(s1r1[..]) <==> ReportsIndex(s1r1[..])
      ensures f2 == IndexOrNone(s2r2[..]) <==> ReportsIndex(s2r2[..])
      ensures f3 == IndexOrNone(s3r1[..]) <==> ReportsIndex(s3r1[..])
    {
      hide IndexOrNone, ReportsIndex, Reported;
      f1 := GroupIndex(s1r1);
      f2 := GroupIndex(s2r2);
      f3 := GroupIndex(s3r1);
    }
  }

  method GroupIndex(bytes: array<u64>) returns (fairness: Option<real>)
    requires bytes.Length > 0
    ensures fairness == Reported(bytes[..])
    ensures fairness == IndexOrNone(bytes[..]) <==> ReportsIndex(bytes[..])
  {
    hide Ratio, Squares, Total, IndexOrNone, ReportsIndex;
    var sum, sumSquares;
    sum, sumSquares, fairness := GroupFairness(bytes);
    ReportIsJainIff(bytes[..]);
  }
}
