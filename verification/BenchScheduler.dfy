/** The scheduler benchmark: a run that keeps its event population, and the running mean and variance of the
    results, computed with one pass over them. */
module BenchScheduler {
  import opened Common
  import opened Statistics

  datatype Phase = Phase(time: real, rate: real, period: real)

  datatype Result = Result(init: Phase, run: Phase)

  /** The six numbers of a result. */
  datatype Field = InitTime | InitRate | InitPeriod | RunTime | RunRate | RunPeriod

  function Get(r: Result, f: Field): real
  {
    match f
    case InitTime => r.init.time
    case InitRate => r.init.rate
    case InitPeriod => r.init.period
    case RunTime => r.run.time
    case RunRate => r.run.rate
    case RunPeriod => r.run.period
  }

  function Samples(rs: seq<Result>, f: Field): (xs: seq<real>)
    ensures |xs| == |rs| && forall i :: 0 <= i < |rs| ==> xs[i] == Get(rs[i], f)
  {
    seq(|rs|, i requires 0 <= i < |rs| => Get(rs[i], f))
  }

  // ---------- one accumulation ----------

  /** The accumulated pair after one more sample. */
  function Average(average: real, x: real, count: nat): real
    requires count > 0
  {
    average + (x - average) / count as real
  }

  function Moment(average: real, moment2: real, x: real, count: nat): real
    requires count > 0
  {
    moment2 + (x - average) * (x - Average(average, x, count))
  }

  /** The accumulated pair describes the samples so far: the average is their mean (with no sample, it may be
      anything), and the moment is the sum of their squared distances from it. */
  ghost predicate Describes(average: real, moment2: real, xs: seq<real>)
  {
    && (xs != [] ==> |xs| as real * average == Sum(xs))
    && moment2 == Spread(xs, average)
  }

  lemma AverageStep(n: real, s: real, a: real, x: real)
    requires n >= 0.0 && (n > 0.0 ==> n * a == s) && (n == 0.0 ==> s == 0.0)
    ensures (n + 1.0) * (a + (x - a) / (n + 1.0)) == s + x
  {
    var q := (x - a) / (n + 1.0);
    assert (n + 1.0) * q == x - a;
    assert (n + 1.0) * (a + q) == (n + 1.0) * a + (n + 1.0) * q;
    assert (n + 1.0) * a == n * a + a;
  }

  /** The algebra of the update: the product of the two deviations is what the new centre costs. */
  lemma MomentStep(q: real, s: real, n: real, a: real, b: real, x: real)
    requires n * a == s && (n + 1.0) * b == s + x
    ensures Expanded(q, s, n, a) + (x - a) * (x - b) == Expanded(q + x * x, s + x, n + 1.0, b)
  {
    assert a * s == n * (a * a);
    assert b * (s + x) == (n + 1.0) * (b * b);
    assert Expanded(q, s, n, a) == q - a * s;
    assert Expanded(q + x * x, s + x, n + 1.0, b) == q + x * x - b * (s + x);
    assert (x - a) * (x - b) == x * x - x * b - a * x + a * b;
    assert a * b * (n + 1.0) == a * (s + x) by { assert a * (b * (n + 1.0)) == a * (s + x); }
    assert a * b * (n + 1.0) == n * a * b + a * b by { assert a * b * (n + 1.0) == a * b * n + a * b; }
    assert n * a * b == s * b;
    assert b * (s + x) == b * s + b * x && a * (s + x) == a * s + a * x;
  }

  lemma SumsSnoc(xs: seq<real>, x: real)
    ensures Sum(xs + [x]) == Sum(xs) + x && SumSquares(xs + [x]) == SumSquares(xs) + x * x
    ensures |xs + [x]| as real == |xs| as real + 1.0
  {
    assert (xs + [x])[..|xs|] == xs;
  }

  lemma MomentAfter(a: real, moment2: real, xs: seq<real>, x: real, b: real)
    requires xs != [] && Describes(a, moment2, xs) && (|xs| as real + 1.0) * b == Sum(xs) + x
    ensures moment2 + (x - a) * (x - b) == Spread(xs + [x], b)
  {
    SumsSnoc(xs, x);
    SpreadExpands(xs + [x], b);
    SpreadExpands(xs, a);
    hide Sum, SumSquares, Spread, Expanded;
    MomentStep(SumSquares(xs), Sum(xs), |xs| as real, a, b, x);
  }

  lemma MeanAfter(a: real, moment2: real, xs: seq<real>, x: real)
    requires Describes(a, moment2, xs)
    ensures (|xs| as real + 1.0) * Average(a, x, |xs| + 1) == Sum(xs) + x
  {
    EmptySum();
    hide Sum, Spread;
    assert (|xs| + 1) as real == |xs| as real + 1.0;
    AverageStep(|xs| as real, Sum(xs), a, x);
  }

  /** One accumulation keeps the description. */
  lemma AccumulateStep(average: real, moment2: real, xs: seq<real>, x: real)
    requires Describes(average, moment2, xs)
    ensures Describes(Average(average, x, |xs| + 1), Moment(average, moment2, x, |xs| + 1), xs + [x])
  {
    hide Average, Sum, SumSquares, Spread;
    var b := Average(average, x, |xs| + 1);
    MeanAfter(average, moment2, xs, x);
    SumsSnoc(xs, x);
    MomentIsSpread(average, moment2, xs, x, b);
    assert |xs + [x]| as real * b == Sum(xs + [x]);
  }

  lemma MomentIsSpread(average: real, moment2: real, xs: seq<real>, x: real, b: real)
    requires Describes(average, moment2, xs) && (|xs| as real + 1.0) * b == Sum(xs) + x
    ensures moment2 + (x - average) * (x - b) == Spread(xs + [x], b)
  {
    EmptySum();
    hide Sum, SumSquares, Spread;
    if xs == [] {
      assert b == x && xs + [x] == [x];
      FirstSample(average, moment2, x, b);
    } else {
      MomentAfter(average, moment2, xs, x, b);
    }
  }

  lemma EmptySum()
    ensures Sum([]) == 0.0 && SumSquares([]) == 0.0
  {
  }

  lemma FirstSample(average: real, moment2: real, x: real, b: real)
    requires Describes(average, moment2, []) && b == x
    ensures moment2 + (x - average) * (x - b) == Spread([x], b)
  {
    assert [x][..0] == [];
    assert (x - average) * 0.0 == 0.0 && (x - b) * (x - b) == 0.0;
  }

  /** The population variance as the report has it: the accumulated moment over the number of samples is the mean
      of the squares minus the square of the mean, and never negative. */
  lemma DescribedVariance(average: real, moment2: real, xs: seq<real>)
    requires xs != [] && Describes(average, moment2, xs)
    ensures average == Sum(xs) / |xs| as real
    ensures moment2 / |xs| as real == Radicand(xs) && Radicand(xs) >= 0.0
  {
    hide Sum, Spread, Radicand;
    QuotientOf(average, |xs| as real, Sum(xs));
    RadicandIsVariance(xs);
    assert moment2 == Spread(xs, Sum(xs) / |xs| as real);
    hide Describes;
  }

  lemma QuotientOf(a: real, n: real, s: real)
    requires n > 0.0 && n * a == s
    ensures a == s / n
  {
  }

  /** The samples vary exactly when some is not c. */
  lemma {:induction false} SpreadPositiveIff(xs: seq<real>, c: real)
    ensures Spread(xs, c) >= 0.0
    ensures Spread(xs, c) > 0.0 <==> exists i :: 0 <= i < |xs| && xs[i] != c
  {
    if xs != [] {
      var front, x := xs[..|xs| - 1], xs[|xs| - 1];
      hide Spread, Square;
      SpreadPositiveIff(front, c);
      SquarePositiveIff(x - c);
      assert forall i :: 0 <= i < |front| ==> front[i] == xs[i];
      SpreadSnoc(front, x, c);
      assert xs == front + [x];
      if Square(x - c) > 0.0 {
        assert xs[|xs| - 1] != c;
      } else if Spread(front, c) > 0.0 {
        var i :| 0 <= i < |front| && front[i] != c;
        assert xs[i] != c;
      }
    }
  }

  lemma SpreadSnoc(xs: seq<real>, x: real, c: real)
    ensures Spread(xs + [x], c) == Spread(xs, c) + Square(x - c)
  {
    assert (xs + [x])[..|xs|] == xs;
  }

  function Square(d: real): real { d * d }

  lemma SquarePositiveIff(d: real)
    ensures Square(d) >= 0.0
    ensures Square(d) > 0.0 <==> d != 0.0
  {
    if d != 0.0 {
      ProductOfSameSign(d, d, Square(d));
    }
  }

  lemma ProductOfSameSign(a: real, b: real, product: real)
    requires product == a * b && ((a > 0.0 && b > 0.0) || (a < 0.0 && b < 0.0))
    ensures product > 0.0
  {
  }

  // ---------- the report ----------

  /** Averages and variances of the six numbers. */
  datatype Report = Report(average: Result, variance: Result)

  ghost predicate Accumulated(average: Result, moment2: Result, rs: seq<Result>)
  {
    forall f :: Describes(Get(average, f), Get(moment2, f), Samples(rs, f))
  }

  function Accumulate(average: Result, moment2: Result, run: Result, count: nat): (Result, Result)
    requires count > 0
  {
    (Result(Phase(Average(average.init.time, run.init.time, count), Average(average.init.rate, run.init.rate, count),
                  Average(average.init.period, run.init.period, count)),
            Phase(Average(average.run.time, run.run.time, count), Average(average.run.rate, run.run.rate, count),
                  Average(average.run.period, run.run.period, count))),
     Result(Phase(Moment(average.init.time, moment2.init.time, run.init.time, count),
                  Moment(average.init.rate, moment2.init.rate, run.init.rate, count),
                  Moment(average.init.period, moment2.init.period, run.init.period, count)),
            Phase(Moment(average.run.time, moment2.run.time, run.run.time, count),
                  Moment(average.run.rate, moment2.run.rate, run.run.rate, count),
                  Moment(average.run.period, moment2.run.period, run.run.period, count))))
  }

  lemma AccumulateAll(average: Result, moment2: Result, rs: seq<Result>, run: Result)
    requires Accumulated(average, moment2, rs)
    ensures var (a, m) := Accumulate(average, moment2, run, |rs| + 1); Accumulated(a, m, rs + [run])
  {
    hide Describes, Average, Moment;
    var (a, m) := Accumulate(average, moment2, run, |rs| + 1);
    forall f ensures Describes(Get(a, f), Get(m, f), Samples(rs + [run], f)) {
      AccumulateStep(Get(average, f), Get(moment2, f), Samples(rs, f), Get(run, f));
      assert Samples(rs + [run], f) == Samples(rs, f) + [Get(run, f)];
    }
  }

  function OverCount(p: Phase, n: real): Phase
    requires n != 0.0
  {
    Phase(p.time / n, p.rate / n, p.period / n)
  }

  /** The report over all runs; with fewer than two there is none. The square roots that the report prints are
      taken of the variances. */
  method Log(results: seq<Result>) returns (report: Option<Report>)
    ensures report.None? <==> |results| < 2
    ensures report.Some? ==> forall f ::
              && Get(report.value.average, f) == Sum(Samples(results, f)) / |results| as real
              && Get(report.value.variance, f) == Radicand(Samples(results, f)) >= 0.0
              && (Get(report.value.variance, f) == 0.0 <==> AllEqual(Samples(results, f)))
  {
    if |results| < 2 {
      return None;
    }
    hide Average, Moment, Sum, Radicand, Spread, AllEqual;
    var n := 0;
    var average := results[0];
    var zero := Phase(0.0, 0.0, 0.0);
    var moment2 := Result(zero, zero);
    NothingYet(average);
    while n < |results|
      invariant 0 <= n <= |results|
      invariant Accumulated(average, moment2, results[..n])
    {
      hide Accumulated, Accumulate;
      AccumulateAll(average, moment2, results[..n], results[n]);
      var (a, m) := Accumulate(average, moment2, results[n], n + 1);
      average, moment2 := a, m;
      n := n + 1;
      assert results[..n] == results[..n - 1] + [results[n - 1]];
    }
    assert results[..n] == results;
    var count := n as real;
    var variance := Result(OverCount(moment2.init, count), OverCount(moment2.run, count));
    forall f
      ensures Get(average, f) == Sum(Samples(results, f)) / |results| as real
      ensures Get(variance, f) == Radicand(Samples(results, f)) >= 0.0
      ensures Get(variance, f) == 0.0 <==> AllEqual(Samples(results, f))
    {
      assert Get(variance, f) == Get(moment2, f) / count;
      VarianceFacts(Get(average, f), Get(moment2, f), Samples(results, f));
    }
    return Some(Report(average, variance));
  }

  lemma NothingYet(average: Result)
    ensures Accumulated(average, Result(Phase(0.0, 0.0, 0.0), Phase(0.0, 0.0, 0.0)), [])
  {
  }

  ghost predicate AllEqual(xs: seq<real>)
  {
    forall i, j :: 0 <= i < j < |xs| ==> xs[i] == xs[j]
  }

  lemma VarianceFacts(average: real, moment2: real, xs: seq<real>)
    requires xs != [] && Describes(average, moment2, xs)
    ensures average == Sum(xs) / |xs| as real
    ensures moment2 / |xs| as real == Radicand(xs) && Radicand(xs) >= 0.0
    ensures Radicand(xs) == 0.0 <==> AllEqual(xs)
  {
    DescribedVariance(average, moment2, xs);
    SpreadPositiveIff(xs, average);
    hide Sum, Spread, Radicand;
    PositiveQuotient(moment2, |xs| as real);
    if AllEqual(xs) {
      EqualMean(xs, average);
    }
  }

  lemma PositiveQuotient(a: real, n: real)
    requires a >= 0.0 && n > 0.0
    ensures a / n > 0.0 <==> a > 0.0
  {
    assert a == (a / n) * n;
  }

  lemma EqualMean(xs: seq<real>, average: real)
    requires xs != [] && AllEqual(xs) && average == Sum(xs) / |xs| as real
    ensures forall i :: 0 <= i < |xs| ==> xs[i] == average
  {
    hide Sum;
    forall i | 0 <= i < |xs| ensures xs[0] <= xs[i] <= xs[0] {
    }
    SumBounds(xs, xs[0], xs[0]);
    QuotientBounds(xs[0], xs[0], Sum(xs), |xs| as real);
  }

  // ---------- one benchmark run ----------

  datatype Measured = Measured(population: nat, events: nat)

  /** The benchmark object with the number of events waiting in the scheduler. */
  class Bench {
    var m_population: nat
    var m_total: nat
    var m_count: nat
    var pending: nat
    var stopped: bool

    constructor (population: nat, total: nat)
      ensures m_population == population && m_total == total && m_count == 0 && pending == 0 && !stopped
    {
      m_population, m_total, m_count, pending, stopped := population, total, 0, 0, false;
    }

    /** The event function; the event itself has just left the scheduler. */
    method Cb()
      requires m_count <= m_total
      modifies `m_count, `pending, `stopped
      ensures m_count <= m_total
      ensures stopped == (old(stopped) || old(m_count) >= m_total)
      ensures m_count == old(m_count) + if old(m_count) >= m_total then 0 else 1
      ensures pending == old(pending) + if old(m_count) >= m_total then 0 else 1
    {
      if m_count >= m_total {
        stopped := true;
        return;
      }
      pending := pending + 1;
      m_count := m_count + 1;
    }

    /** Every event but the last one schedules the next, so the population is kept and the run executes exactly
        the requested number of events, unless there is no event to begin with. */
    method Run() returns (r: Measured)
      modifies `m_count, `pending, `stopped
      ensures r == Measured(m_population, if m_population == 0 then 0 else m_total)
      ensures pending == 0
    {
      m_count, pending, stopped := 0, 0, false;
      var i := 0;
      while i < m_population
        invariant 0 <= i <= m_population && pending == i && m_count == 0 && !stopped
      {
        pending := pending + 1;
        i := i + 1;
      }
      while pending > 0 && !stopped
        invariant m_count <= m_total
        invariant m_population == 0 ==> pending == 0 && m_count == 0
        invariant m_population > 0 ==> if stopped then m_count == m_total else pending == m_population
        decreases m_total - m_count, !stopped
      {
        pending := pending - 1;
        Cb();
      }
      pending := 0;
      r := Measured(m_population, m_count);
    }
  }
}
