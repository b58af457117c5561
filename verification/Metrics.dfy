/** The sampling metrics collector. */
module Metrics {
  import opened Common
  import opened Statistics
  import opened Traffic

  /** What the collector reads off one sink. */
  datatype SinkStats = SinkStats(totalRx: u64, lost: u64, avgMs: real, minMs: real, maxMs: real)

  /** The accumulators of the two loops over sinks. */
  datatype Totals = Totals(rx: u64, lost: u64, sumDelay: real, delays: seq<real>, minMs: real, maxMs: real)
  {
    function Add(s: SinkStats): Totals
    {
      var counted := this.(rx := Add64(rx, s.totalRx), lost := Add64(lost, s.lost));
      if s.avgMs > 0.0 then
        counted.(sumDelay := sumDelay + s.avgMs * s.totalRx as real,
                 delays := delays + [s.avgMs],
                 minMs := if s.minMs < minMs then s.minMs else minMs,
                 maxMs := if s.maxMs > maxMs then s.maxMs else maxMs)
      else counted
    }

    function AddAll(sinks: seq<SinkStats>): Totals
    {
      if sinks == [] then this else AddAll(sinks[..|sinks| - 1]).Add(sinks[|sinks| - 1])
    }
  }

  const NO_TOTALS := Totals(0, 0, 0.0, [], NO_DELAY, 0.0)

  /** The "last seen" fields. */
  datatype Cursor = Cursor(time: real, dlRx: u64, ulRx: u64)

  /** The names under which the program takes samples. */
  datatype SampleName =
    | Baseline | PreBaselineNormal | BaselineFailureMid | BaselineFailureEnd | PeriodicCheck
    | CrashDuring | CrashRecovery | MigrationStart | MigrationSuccess | RestartStart | RestartSuccess
    | TeardownStart | TeardownRedeploy | PartitionMid | PartitionEnd | Final

  /** What a sample notes besides the measurements: its name and the state of the verifications. */
  datatype Note = Note(name: SampleName, verificationEvents: u32, verificationSuccess: bool)

  /** One call of the collector: when and under which note it happens, and what the sinks hold then. */
  datatype Observation = Observation(now: real, note: Note, dl: seq<SinkStats>, ul: seq<SinkStats>)

  datatype Sample = Sample(
    timestamp: real, note: Note, dlMbps: real, ulMbps: real, totalMbps: real,
    avgDelayMs: real, minDelayMs: real, maxDelayMs: real, jitterRadicand: real,
    rxPackets: u64, lostPackets: u64, lossRatio: real)

  function Throughput(now: u64, before: u64, interval: real): real
    requires interval > 0.0
  {
    Sub64(now, before) as real * 8.0 / interval / 1000000.0
  }

  function LossRatio(rx: u64, lost: u64): real
  {
    var all := Add64(rx, lost);
    if all > 0 then lost as real / all as real else 0.0
  }

  function Measure(c: Cursor, o: Observation): Sample
  {
    var d := NO_TOTALS.AddAll(o.dl);
    var a := d.(rx := 0).AddAll(o.ul);
    var totalRx := Add64(d.rx, a.rx);
    var interval := o.now - c.time;
    var dlMbps := if interval > 0.0 then Throughput(d.rx, c.dlRx, interval) else 0.0;
    var ulMbps := if interval > 0.0 then Throughput(a.rx, c.ulRx, interval) else 0.0;
    Sample(o.now, o.note, dlMbps, ulMbps, dlMbps + ulMbps,
           if totalRx > 0 then a.sumDelay / totalRx as real else 0.0,
           if a.minMs < NO_DELAY then a.minMs else 0.0,
           a.maxMs,
           if |a.delays| > 1 then Radicand(a.delays) else 0.0,
           totalRx, a.lost, LossRatio(totalRx, a.lost))
  }

  function Advance(o: Observation): Cursor
  {
    Cursor(o.now, NO_TOTALS.AddAll(o.dl).rx, NO_TOTALS.AddAll(o.ul).rx)
  }

  lemma AddAllPrefix(t: Totals, sinks: seq<SinkStats>, i: nat)
    requires i < |sinks|
    ensures t.AddAll(sinks[..i + 1]) == t.AddAll(sinks[..i]).Add(sinks[i])
  {
    hide Totals.Add;
    assert sinks[..i + 1][..i] == sinks[..i];
  }

  lemma SampleOfLast(before: seq<Observation>, o: Observation)
    ensures var obs := before + [o];
            && SampleAt(obs, |before|) == Measure(CursorAfter(before), o)
            && CursorAfter(obs) == Advance(o)
  {
    hide Measure, Advance;
    assert (before + [o])[..|before|] == before;
  }

  // ---------- counter sums ----------

  /** Received bytes over all sinks, without wrap-around. */
  function TotalRx(sinks: seq<SinkStats>): nat
  {
    if sinks == [] then 0 else TotalRx(sinks[..|sinks| - 1]) + sinks[|sinks| - 1].totalRx
  }

  function TotalLost(sinks: seq<SinkStats>): nat
  {
    if sinks == [] then 0 else TotalLost(sinks[..|sinks| - 1]) + sinks[|sinks| - 1].lost
  }

  lemma AddCounts(t: Totals, s: SinkStats)
    ensures t.Add(s).rx == Add64(t.rx, s.totalRx) && t.Add(s).lost == Add64(t.lost, s.lost)
  {
    hide Add64;
  }

  lemma {:induction false} AddAllCounts(t: Totals, sinks: seq<SinkStats>)
    ensures t.AddAll(sinks).rx == (t.rx + TotalRx(sinks)) % TWO64
    ensures t.AddAll(sinks).lost == (t.lost + TotalLost(sinks)) % TWO64
  {
    if sinks != [] {
      var front := sinks[..|sinks| - 1];
      AddAllCounts(t, front);
      AddCounts(t.AddAll(front), sinks[|sinks| - 1]);
      hide Add64, Totals.Add;
      WrappedSum(t.rx + TotalRx(front), sinks[|sinks| - 1].totalRx);
      WrappedSum(t.lost + TotalLost(front), sinks[|sinks| - 1].lost);
    }
  }

  // ---------- throughput conserves bytes ----------

  /** The cursor after the observations; the first sample is measured against time 0 and zero bytes. */
  function CursorAfter(obs: seq<Observation>): Cursor
  {
    if obs == [] then Cursor(0.0, 0, 0)
    else Advance(obs[|obs| - 1])
  }

  function SampleAt(obs: seq<Observation>, i: nat): Sample
    requires i < |obs|
  {
    Measure(CursorAfter(obs[..i]), obs[i])
  }

  function Interval(obs: seq<Observation>): real
    requires obs != []
  {
    obs[|obs| - 1].now - CursorAfter(obs[..|obs| - 1]).time
  }

  function DlBytes(obs: seq<Observation>): nat { if obs == [] then 0 else TotalRx(obs[|obs| - 1].dl) }

  function UlBytes(obs: seq<Observation>): nat { if obs == [] then 0 else TotalRx(obs[|obs| - 1].ul) }

  /** Sinks only ever count up (by less than 2^64 between samples) and time does not run backwards. */
  ghost predicate Monotone(obs: seq<Observation>)
  {
    obs == [] ||
    (var front := obs[..|obs| - 1];
     && Monotone(front)
     && Interval(obs) >= 0.0
     && 0 <= DlBytes(obs) - DlBytes(front) < TWO64
     && 0 <= UlBytes(obs) - UlBytes(front) < TWO64)
  }

  /** Bytes recovered from the reported rates: interval * Mbps * 1e6 / 8, summed. */
  function ReportedDl(obs: seq<Observation>): real
  {
    if obs == [] then 0.0
    else ReportedDl(obs[..|obs| - 1]) + Interval(obs) * SampleAt(obs, |obs| - 1).dlMbps * 1000000.0 / 8.0
  }

  function ReportedUl(obs: seq<Observation>): real
  {
    if obs == [] then 0.0
    else ReportedUl(obs[..|obs| - 1]) + Interval(obs) * SampleAt(obs, |obs| - 1).ulMbps * 1000000.0 / 8.0
  }

  /** Bytes that arrived in an interval of length zero, which no rate reports. */
  function AbsorbedDl(obs: seq<Observation>): nat
    requires Monotone(obs)
  {
    if obs == [] then 0
    else
      var front := obs[..|obs| - 1];
      AbsorbedDl(front) + if Interval(obs) > 0.0 then 0 else DlBytes(obs) - DlBytes(front)
  }

  function AbsorbedUl(obs: seq<Observation>): nat
    requires Monotone(obs)
  {
    if obs == [] then 0
    else
      var front := obs[..|obs| - 1];
      AbsorbedUl(front) + if Interval(obs) > 0.0 then 0 else UlBytes(obs) - UlBytes(front)
  }

  /** Interval times reported rate gives back the counted bytes. */
  lemma RateTimesInterval(now: u64, before: u64, interval: real)
    requires interval > 0.0
    ensures interval * Throughput(now, before, interval) * 1000000.0 / 8.0 == Sub64(now, before) as real
  {
    hide Sub64;
    var bits := Sub64(now, before) as real * 8.0;
    var perSecond := bits / interval;
    assert interval * (perSecond / 1000000.0) * 1000000.0 == interval * perSecond;
    assert interval * perSecond == bits;
  }

  lemma CursorRx(obs: seq<Observation>)
    ensures CursorAfter(obs).dlRx == DlBytes(obs) % TWO64 && CursorAfter(obs).ulRx == UlBytes(obs) % TWO64
  {
    if obs != [] {
      AddAllCounts(NO_TOTALS, obs[|obs| - 1].dl);
      AddAllCounts(NO_TOTALS, obs[|obs| - 1].ul);
    }
  }

  /** The counter subtraction of one sample never underflows and yields exactly the new bytes. */
  lemma CursorTracksBytes(obs: seq<Observation>)
    requires Monotone(obs) && obs != []
    ensures var front := obs[..|obs| - 1]; var o := obs[|obs| - 1];
            && Sub64(NO_TOTALS.AddAll(o.dl).rx, CursorAfter(front).dlRx) == DlBytes(obs) - DlBytes(front)
            && Sub64(NO_TOTALS.AddAll(o.ul).rx, CursorAfter(front).ulRx) == UlBytes(obs) - UlBytes(front)
  {
    hide Sub64, Interval, Advance;
    var front, o := obs[..|obs| - 1], obs[|obs| - 1];
    CursorRx(front);
    AddAllCounts(NO_TOTALS, o.dl);
    AddAllCounts(NO_TOTALS, o.ul);
    WrappedDifference(DlBytes(obs), DlBytes(front));
    WrappedDifference(UlBytes(obs), UlBytes(front));
  }

  /** The shared accumulators of the downlink loop do not influence the uplink byte count. */
  lemma UplinkRx(t: Totals, ul: seq<SinkStats>)
    ensures t.(rx := 0).AddAll(ul).rx == NO_TOTALS.AddAll(ul).rx
  {
    AddAllCounts(t.(rx := 0), ul);
    AddAllCounts(NO_TOTALS, ul);
  }

  /** Over any run, the bytes recovered from the reported rates plus those absorbed by empty intervals
      are exactly the bytes received. */
  lemma {:induction false} BytesConserved(obs: seq<Observation>)
    requires Monotone(obs)
    ensures ReportedDl(obs) + AbsorbedDl(obs) as real == DlBytes(obs) as real
    ensures ReportedUl(obs) + AbsorbedUl(obs) as real == UlBytes(obs) as real
  {
    if obs != [] {
      var n := |obs| - 1;
      BytesConserved(obs[..n]);
      SampleBytes(obs);
    }
  }

  lemma MeasureRates(c: Cursor, o: Observation)
    ensures var m := Measure(c, o); var t := o.now - c.time;
            && m.dlMbps == (if t > 0.0 then Throughput(NO_TOTALS.AddAll(o.dl).rx, c.dlRx, t) else 0.0)
            && m.ulMbps == (if t > 0.0 then Throughput(NO_TOTALS.AddAll(o.ul).rx, c.ulRx, t) else 0.0)
  {
    hide Throughput, LossRatio, Radicand, Add64;
    UplinkRx(NO_TOTALS.AddAll(o.dl), o.ul);
  }

  lemma SampleBytes(obs: seq<Observation>)
    requires Monotone(obs) && obs != []
    ensures var front := obs[..|obs| - 1]; var s := SampleAt(obs, |obs| - 1);
            && Interval(obs) * s.dlMbps * 1000000.0 / 8.0
               == (if Interval(obs) > 0.0 then (DlBytes(obs) - DlBytes(front)) as real else 0.0)
            && Interval(obs) * s.ulMbps * 1000000.0 / 8.0
               == (if Interval(obs) > 0.0 then (UlBytes(obs) - UlBytes(front)) as real else 0.0)
  {
    hide Measure, Sub64, Throughput, DlBytes, UlBytes, CursorAfter;
    var front, o := obs[..|obs| - 1], obs[|obs| - 1];
    var c := CursorAfter(front);
    CursorTracksBytes(obs);
    MeasureRates(c, o);
    if Interval(obs) > 0.0 {
      RateTimesInterval(NO_TOTALS.AddAll(o.dl).rx, c.dlRx, Interval(obs));
      RateTimesInterval(NO_TOTALS.AddAll(o.ul).rx, c.ulRx, Interval(obs));
    }
  }

  lemma MeasureTotal(c: Cursor, o: Observation)
    ensures var m := Measure(c, o); m.totalMbps == m.dlMbps + m.ulMbps
  {
    hide Throughput, LossRatio, Radicand, Add64, Totals.AddAll;
  }

  /** Bytes recovered from the total rates. */
  function ReportedTotal(obs: seq<Observation>): real
  {
    if obs == [] then 0.0
    else ReportedTotal(obs[..|obs| - 1]) + Interval(obs) * SampleAt(obs, |obs| - 1).totalMbps * 1000000.0 / 8.0
  }

  function Recovered(t: real, rate: real): real { t * rate * 1000000.0 / 8.0 }

  lemma SumOfRates(t: real, a: real, b: real)
    ensures Recovered(t, a + b) == Recovered(t, a) + Recovered(t, b)
  {
    assert t * (a + b) == t * a + t * b;
  }

  lemma ReportedLast(obs: seq<Observation>)
    requires obs != []
    ensures var front, t, m := obs[..|obs| - 1], Interval(obs), SampleAt(obs, |obs| - 1);
            && ReportedTotal(obs) == ReportedTotal(front) + Recovered(t, m.totalMbps)
            && ReportedDl(obs) == ReportedDl(front) + Recovered(t, m.dlMbps)
            && ReportedUl(obs) == ReportedUl(front) + Recovered(t, m.ulMbps)
  {
    hide SampleAt, Interval;
  }

  lemma {:induction false} TotalIsBoth(obs: seq<Observation>)
    ensures ReportedTotal(obs) == ReportedDl(obs) + ReportedUl(obs)
  {
    if obs != [] {
      hide *;
      var n := |obs| - 1;
      TotalIsBoth(obs[..n]);
      ReportedLast(obs);
      TotalOf(obs, n);
      SumOfRates(Interval(obs), SampleAt(obs, n).dlMbps, SampleAt(obs, n).ulMbps);
    }
  }

  /** The total rates recover the bytes of both directions. */
  lemma TotalConserved(obs: seq<Observation>)
    requires Monotone(obs)
    ensures ReportedTotal(obs) + (AbsorbedDl(obs) + AbsorbedUl(obs)) as real == (DlBytes(obs) + UlBytes(obs)) as real
  {
    hide *;
    TotalIsBoth(obs);
    BytesConserved(obs);
  }

  lemma TotalOf(obs: seq<Observation>, i: nat)
    requires i < |obs|
    ensures var m := SampleAt(obs, i); m.totalMbps == m.dlMbps + m.ulMbps
  {
    MeasureTotal(CursorAfter(obs[..i]), obs[i]);
    hide Measure;
  }

  // ---------- a sample spelled out ----------

  /** The averages of the sinks that the collector counts: those with a positive average. */
  function Averages(sinks: seq<SinkStats>): seq<real>
  {
    if sinks == [] then []
    else
      var s := sinks[|sinks| - 1];
      Averages(sinks[..|sinks| - 1]) + if s.avgMs > 0.0 then [s.avgMs] else []
  }

  /** The averages of the counted sinks, weighted by bytes. */
  function Weighted(sinks: seq<SinkStats>): real
  {
    if sinks == [] then 0.0
    else
      var s := sinks[|sinks| - 1];
      Weighted(sinks[..|sinks| - 1]) + if s.avgMs > 0.0 then s.avgMs * s.totalRx as real else 0.0
  }

  /** The greatest delay of any counted sink, from a start value on. */
  function GreatestCounted(sinks: seq<SinkStats>, start: real): real
  {
    if sinks == [] then start
    else
      var greatest, s := GreatestCounted(sinks[..|sinks| - 1], start), sinks[|sinks| - 1];
      if s.avgMs > 0.0 && s.maxMs > greatest then s.maxMs else greatest
  }

  lemma AddDelays(t: Totals, s: SinkStats)
    ensures t.Add(s).delays == t.delays + if s.avgMs > 0.0 then [s.avgMs] else []
    ensures t.Add(s).sumDelay == t.sumDelay + if s.avgMs > 0.0 then s.avgMs * s.totalRx as real else 0.0
    ensures t.Add(s).maxMs == if s.avgMs > 0.0 && s.maxMs > t.maxMs then s.maxMs else t.maxMs
  {
    hide Add64;
    assert t.delays + [] == t.delays;
  }

  lemma {:induction false} AddAllDelays(t: Totals, sinks: seq<SinkStats>)
    ensures t.AddAll(sinks).delays == t.delays + Averages(sinks)
    ensures t.AddAll(sinks).sumDelay == t.sumDelay + Weighted(sinks)
    ensures t.AddAll(sinks).maxMs == GreatestCounted(sinks, t.maxMs)
  {
    hide Totals.Add;
    if sinks != [] {
      AddAllDelays(t, sinks[..|sinks| - 1]);
      AddDelays(t.AddAll(sinks[..|sinks| - 1]), sinks[|sinks| - 1]);
    }
  }

  /** What a sample says of the packets: bytes and losses of both directions and their ratio. */
  ghost predicate DescribesPackets(m: Sample, o: Observation)
  {
    var bytes, lost := (TotalRx(o.dl) + TotalRx(o.ul)) % TWO64, (TotalLost(o.dl) + TotalLost(o.ul)) % TWO64;
    var all := (bytes + lost) % TWO64;
    && m.rxPackets == bytes && m.lostPackets == lost
    && m.lossRatio == if all > 0 then lost as real / all as real else 0.0
  }

  /** What it says of the rates: those of each direction since the last sample, and their sum. */
  ghost predicate DescribesRates(m: Sample, c: Cursor, o: Observation)
  {
    var t := o.now - c.time;
    && m.timestamp == o.now && m.note == o.note
    && m.dlMbps == (if t > 0.0 then Sub64(TotalRx(o.dl) % TWO64, c.dlRx) as real * 8.0 / t / 1000000.0 else 0.0)
    && m.ulMbps == (if t > 0.0 then Sub64(TotalRx(o.ul) % TWO64, c.ulRx) as real * 8.0 / t / 1000000.0 else 0.0)
    && m.totalMbps == m.dlMbps + m.ulMbps
  }

  /** What it says of the delays: the byte-weighted average, the extremes, and the variance of the sinks' averages. */
  ghost predicate DescribesDelays(m: Sample, o: Observation)
  {
    var bytes, averages := (TotalRx(o.dl) + TotalRx(o.ul)) % TWO64, Averages(o.dl) + Averages(o.ul);
    && m.avgDelayMs == (if bytes > 0 then (Weighted(o.dl) + Weighted(o.ul)) / bytes as real else 0.0)
    && m.minDelayMs == Floor(o)
    && m.maxDelayMs == GreatestCounted(o.ul, GreatestCounted(o.dl, 0.0))
    && m.jitterRadicand == if |averages| > 1 then Variance(averages) else 0.0
  }

  /** The mean squared distance from the mean. */
  function Variance(xs: seq<real>): real
    requires xs != []
  {
    Spread(xs, Sum(xs) / |xs| as real) / |xs| as real
  }

  lemma AddMod(a: nat, b: nat)
    ensures Add64(a % TWO64, b % TWO64) == (a + b) % TWO64
  {
  }

  /** The totals of the two loops. */
  lemma BothTotals(o: Observation)
    ensures var d := NO_TOTALS.AddAll(o.dl); var a := d.(rx := 0).AddAll(o.ul);
            && d.rx == TotalRx(o.dl) % TWO64 && a.rx == TotalRx(o.ul) % TWO64
            && a.lost == (TotalLost(o.dl) + TotalLost(o.ul)) % TWO64
            && a.sumDelay == Weighted(o.dl) + Weighted(o.ul) && a.delays == Averages(o.dl) + Averages(o.ul)
            && a.maxMs == GreatestCounted(o.ul, GreatestCounted(o.dl, 0.0))
  {
    hide Totals.AddAll, TotalRx, TotalLost, Weighted, Averages, GreatestCounted;
    var d := NO_TOTALS.AddAll(o.dl);
    AddAllCounts(NO_TOTALS, o.dl);
    AddAllCounts(d.(rx := 0), o.ul);
    AddAllDelays(NO_TOTALS, o.dl);
    AddAllDelays(d.(rx := 0), o.ul);
    SumMod(TotalLost(o.dl), TotalLost(o.ul));
  }

  lemma SumMod(a: nat, b: nat)
    ensures (a % TWO64 + b) % TWO64 == (a + b) % TWO64
  {
  }

  /** A sample in terms of the totals of the two loops. */
  lemma MeasureReads(c: Cursor, o: Observation, d: Totals, a: Totals)
    requires d == NO_TOTALS.AddAll(o.dl) && a == d.(rx := 0).AddAll(o.ul)
    ensures var m, t, bytes := Measure(c, o), o.now - c.time, Add64(d.rx, a.rx);
            && m.timestamp == o.now && m.note == o.note && m.rxPackets == bytes && m.lostPackets == a.lost
            && m.lossRatio == LossRatio(bytes, a.lost)
            && m.dlMbps == (if t > 0.0 then Throughput(d.rx, c.dlRx, t) else 0.0)
            && m.ulMbps == (if t > 0.0 then Throughput(a.rx, c.ulRx, t) else 0.0)
            && m.totalMbps == m.dlMbps + m.ulMbps
            && m.avgDelayMs == (if bytes > 0 then a.sumDelay / bytes as real else 0.0)
            && m.minDelayMs == Floor(o) && m.maxDelayMs == a.maxMs
            && m.jitterRadicand == (if |a.delays| > 1 then Radicand(a.delays) else 0.0)
  {
    FloorIsMin(o);
    hide Totals.AddAll, Floor, Radicand, Throughput, LossRatio, Add64;
  }

  lemma RatesSpelled(now: u64, before: u64, interval: real)
    requires interval > 0.0
    ensures Throughput(now, before, interval) == Sub64(now, before) as real * 8.0 / interval / 1000000.0
  {
  }

  lemma RatioSpelled(bytes: u64, lost: u64)
    ensures var all := (bytes + lost) % TWO64;
            LossRatio(bytes, lost) == if all > 0 then lost as real / all as real else 0.0
  {
  }

  lemma PacketsAre(m: Sample, o: Observation, bytes: u64, lost: u64)
    requires bytes == (TotalRx(o.dl) + TotalRx(o.ul)) % TWO64 && lost == (TotalLost(o.dl) + TotalLost(o.ul)) % TWO64
    requires m.rxPackets == bytes && m.lostPackets == lost && m.lossRatio == LossRatio(bytes, lost)
    ensures DescribesPackets(m, o)
  {
    RatioSpelled(bytes, lost);
    hide TotalRx, TotalLost, LossRatio;
  }

  lemma PacketsDescribed(c: Cursor, o: Observation)
    ensures DescribesPackets(Measure(c, o), o)
  {
    hide *;
    var d := NO_TOTALS.AddAll(o.dl);
    var a := d.(rx := 0).AddAll(o.ul);
    BothTotals(o);
    MeasureReads(c, o, d, a);
    AddMod(TotalRx(o.dl), TotalRx(o.ul));
    PacketsAre(Measure(c, o), o, Add64(d.rx, a.rx), a.lost);
  }

  lemma RatesDescribed(c: Cursor, o: Observation)
    ensures DescribesRates(Measure(c, o), c, o)
  {
    var d := NO_TOTALS.AddAll(o.dl);
    var a := d.(rx := 0).AddAll(o.ul);
    BothTotals(o);
    MeasureReads(c, o, d, a);
    if o.now - c.time > 0.0 {
      RatesSpelled(d.rx, c.dlRx, o.now - c.time);
      RatesSpelled(a.rx, c.ulRx, o.now - c.time);
    }
    hide Totals.AddAll, TotalRx, Sub64, Measure, Throughput;
  }

  lemma DelaysAre(m: Sample, o: Observation, bytes: u64, averages: seq<real>)
    requires bytes == (TotalRx(o.dl) + TotalRx(o.ul)) % TWO64 && averages == Averages(o.dl) + Averages(o.ul)
    requires m.avgDelayMs == if bytes > 0 then (Weighted(o.dl) + Weighted(o.ul)) / bytes as real else 0.0
    requires m.minDelayMs == Floor(o) && m.maxDelayMs == GreatestCounted(o.ul, GreatestCounted(o.dl, 0.0))
    requires m.jitterRadicand == if |averages| > 1 then Radicand(averages) else 0.0
    ensures DescribesDelays(m, o)
  {
    if |averages| > 1 {
      VarianceIsRadicand(averages);
    }
    hide TotalRx, Weighted, Averages, GreatestCounted, Floor, Radicand, Variance;
  }

  lemma DelaysDescribed(c: Cursor, o: Observation)
    ensures DescribesDelays(Measure(c, o), o)
  {
    hide *;
    var d := NO_TOTALS.AddAll(o.dl);
    var a := d.(rx := 0).AddAll(o.ul);
    BothTotals(o);
    MeasureReads(c, o, d, a);
    AddMod(TotalRx(o.dl), TotalRx(o.ul));
    DelaysAre(Measure(c, o), o, Add64(d.rx, a.rx), a.delays);
  }

  lemma VarianceIsRadicand(xs: seq<real>)
    requires xs != []
    ensures Variance(xs) == Radicand(xs)
  {
    RadicandIsVariance(xs);
    hide Radicand, Spread, Sum;
  }

  /** Every sample describes its observation. */
  lemma MeasureDescribes(c: Cursor, o: Observation)
    ensures var m := Measure(c, o); DescribesPackets(m, o) && DescribesRates(m, c, o) && DescribesDelays(m, o)
  {
    hide *;
    PacketsDescribed(c, o);
    RatesDescribed(c, o);
    DelaysDescribed(c, o);
  }

  // ---------- the reported loss ratio ----------

  ghost predicate NoEmptyPacket(arrivals: seq<Arrival>)
  {
    forall i :: 0 <= i < |arrivals| ==> arrivals[i].packet.size >= 1
  }

  /** The collector divides lost packets by lost packets plus received BYTES. For packets of any sizes that is at
      most the packet loss ratio, and equal to it only if nothing was lost or every packet has a single byte. */
  lemma LossRatioUnderstates(arrivals: seq<Arrival>, lost: nat)
    requires NoEmptyPacket(arrivals) && Bytes(arrivals) + lost < TWO64
    ensures |arrivals| <= Bytes(arrivals)
    ensures LossRatio(Bytes(arrivals), lost) <= LossRatio(|arrivals|, lost)
    ensures LossRatio(Bytes(arrivals), lost) == LossRatio(|arrivals|, lost)
       <==> lost == 0 || forall i :: 0 <= i < |arrivals| ==> arrivals[i].packet.size == 1
  {
    BytesOfPackets(arrivals);
    var n, bytes := |arrivals|, Bytes(arrivals);
    SmallSums(n, bytes, lost);
    hide LossRatio, Bytes;
    if lost > 0 {
      QuotientOrder(lost as real, (n + lost) as real, (bytes + lost) as real);
    }
  }

  lemma {:induction false} BytesOfPackets(arrivals: seq<Arrival>)
    requires NoEmptyPacket(arrivals)
    ensures |arrivals| <= Bytes(arrivals)
    ensures |arrivals| == Bytes(arrivals) <==> forall i :: 0 <= i < |arrivals| ==> arrivals[i].packet.size == 1
  {
    if arrivals != [] {
      var front := arrivals[..|arrivals| - 1];
      BytesOfPackets(front);
      assert forall i :: 0 <= i < |front| ==> front[i] == arrivals[i];
    }
  }

  lemma SmallSums(n: nat, bytes: nat, lost: nat)
    requires n <= bytes && bytes + lost < TWO64
    ensures LossRatio(n, lost) == if n + lost > 0 then lost as real / (n + lost) as real else 0.0
    ensures LossRatio(bytes, lost) == if bytes + lost > 0 then lost as real / (bytes + lost) as real else 0.0
  {
    hide Add64;
    NoWrap(n, lost);
    NoWrap(bytes, lost);
  }

  lemma QuotientOrder(a: real, b: real, c: real)
    requires a > 0.0 && 0.0 < b <= c
    ensures a / c <= a / b
    ensures a / c == a / b <==> b == c
  {
    var q, r := a / b, a / c;
    assert q * b == a && r * c == a;
    assert r > 0.0;
    assert r * b <= r * c;
    assert (q - r) * b == r * (c - b);
  }

  // ---------- the reported latency ----------

  /** A sink with a positive average delay has it between its extremes. */
  ghost predicate Consistent(s: SinkStats)
  {
    s.avgMs > 0.0 ==> s.minMs <= s.avgMs <= s.maxMs
  }

  /** Bytes of the sinks whose delays the collector skips: those without a positive average. */
  function SkippedRx(sinks: seq<SinkStats>): nat
  {
    if sinks == [] then 0
    else
      var s := sinks[|sinks| - 1];
      SkippedRx(sinks[..|sinks| - 1]) + if s.avgMs > 0.0 then 0 else s.totalRx
  }

  /** By how much a sink's average exceeds a bound, weighted by its bytes; nothing for a skipped sink. */
  function ExcessOf(s: SinkStats, bound: real): real
  {
    if s.avgMs > 0.0 then (s.avgMs - bound) * s.totalRx as real else 0.0
  }

  function Excess(sinks: seq<SinkStats>, bound: real): real
  {
    if sinks == [] then 0.0
    else Excess(sinks[..|sinks| - 1], bound) + ExcessOf(sinks[|sinks| - 1], bound)
  }

  function Scaled(bound: real, n: int): real { bound * n as real }

  lemma ScaledSum(bound: real, m: int, n: int)
    ensures Scaled(bound, m + n) == Scaled(bound, m) + Scaled(bound, n)
    ensures Scaled(bound, m - n) == Scaled(bound, m) - Scaled(bound, n)
    ensures Scaled(bound, 0) == 0.0
  {
    assert bound * (m as real + n as real) == bound * m as real + bound * n as real;
    assert bound * (m as real - n as real) == bound * m as real - bound * n as real;
  }

  /** What one sink adds to the delay sum. */
  lemma ExcessSplits(s: SinkStats, bound: real)
    ensures (if s.avgMs > 0.0 then s.avgMs * s.totalRx as real else 0.0)
            == ExcessOf(s, bound) + Scaled(bound, if s.avgMs > 0.0 then s.totalRx else 0)
  {
    assert (s.avgMs - bound) * s.totalRx as real == s.avgMs * s.totalRx as real - bound * s.totalRx as real;
    assert bound * 0.0 == 0.0;
  }

  /** The delay sum, split at any bound. */
  lemma {:induction false} DelaySum(t: Totals, sinks: seq<SinkStats>, bound: real)
    ensures SkippedRx(sinks) <= TotalRx(sinks)
    ensures t.AddAll(sinks).sumDelay
            == t.sumDelay + Excess(sinks, bound) + Scaled(bound, TotalRx(sinks) - SkippedRx(sinks))
  {
    hide Totals.Add, ExcessOf, Scaled;
    if sinks != [] {
      var front, s := sinks[..|sinks| - 1], sinks[|sinks| - 1];
      DelaySum(t, front, bound);
      SumDelayStep(t.AddAll(front), s);
      ExcessSplits(s, bound);
      ScaledSum(bound, TotalRx(front) - SkippedRx(front), if s.avgMs > 0.0 then s.totalRx else 0);
    } else {
      ScaledSum(bound, 0, 0);
    }
  }

  lemma SumDelayStep(t: Totals, s: SinkStats)
    ensures t.Add(s).sumDelay == t.sumDelay + if s.avgMs > 0.0 then s.avgMs * s.totalRx as real else 0.0
    ensures t.Add(s).minMs <= t.minMs && t.maxMs <= t.Add(s).maxMs
    ensures s.avgMs > 0.0 ==> t.Add(s).minMs <= s.minMs && s.maxMs <= t.Add(s).maxMs
  {
    hide Add64;
  }

  lemma SignOfProduct(d: real, w: real, product: real)
    requires w >= 0.0 && product == d * w
    ensures d >= 0.0 ==> product >= 0.0
    ensures d <= 0.0 ==> product <= 0.0
  {
  }

  lemma ExcessOfSign(s: SinkStats, lo: real, hi: real)
    requires s.avgMs > 0.0 ==> lo <= s.avgMs <= hi
    ensures ExcessOf(s, lo) >= 0.0 && ExcessOf(s, hi) <= 0.0
  {
    SignOfProduct(s.avgMs - lo, s.totalRx as real, (s.avgMs - lo) * s.totalRx as real);
    SignOfProduct(s.avgMs - hi, s.totalRx as real, (s.avgMs - hi) * s.totalRx as real);
  }

  /** A bound below all counted averages leaves a non-negative excess, one above all a non-positive one. */
  lemma {:induction false} ExcessSign(t: Totals, sinks: seq<SinkStats>, lo: real, hi: real)
    requires forall s :: s in sinks ==> Consistent(s)
    requires lo <= t.AddAll(sinks).minMs && t.AddAll(sinks).maxMs <= hi
    ensures Excess(sinks, lo) >= 0.0 && Excess(sinks, hi) <= 0.0
    ensures lo <= t.minMs && t.maxMs <= hi
  {
    hide Totals.Add, ExcessOf;
    if sinks != [] {
      var front, s := sinks[..|sinks| - 1], sinks[|sinks| - 1];
      assert s in sinks && Consistent(s);
      SumDelayStep(t.AddAll(front), s);
      ExcessSign(t, front, lo, hi);
      ExcessOfSign(s, lo, hi);
    }
  }

  /** The two loops together. */
  lemma BothSums(dl: seq<SinkStats>, ul: seq<SinkStats>, bound: real)
    ensures SkippedRx(dl) + SkippedRx(ul) <= TotalRx(dl) + TotalRx(ul)
    ensures NO_TOTALS.AddAll(dl).(rx := 0).AddAll(ul).sumDelay
            == Excess(dl, bound) + Excess(ul, bound)
               + Scaled(bound, TotalRx(dl) + TotalRx(ul)) - Scaled(bound, SkippedRx(dl) + SkippedRx(ul))
  {
    hide Totals.AddAll, Excess, TotalRx, SkippedRx, Scaled;
    DelaySum(NO_TOTALS, dl, bound);
    DelaySum(NO_TOTALS.AddAll(dl).(rx := 0), ul, bound);
    ScaledSum(bound, TotalRx(dl) - SkippedRx(dl), TotalRx(ul) - SkippedRx(ul));
    ScaledSum(bound, TotalRx(dl) + TotalRx(ul), SkippedRx(dl) + SkippedRx(ul));
    assert (TotalRx(dl) - SkippedRx(dl)) + (TotalRx(ul) - SkippedRx(ul))
        == (TotalRx(dl) + TotalRx(ul)) - (SkippedRx(dl) + SkippedRx(ul));
  }

  lemma AverageWithin(dl: seq<SinkStats>, ul: seq<SinkStats>, a: Totals)
    requires (forall s :: s in dl ==> Consistent(s)) && (forall s :: s in ul ==> Consistent(s))
    requires a == NO_TOTALS.AddAll(dl).(rx := 0).AddAll(ul) && 0 < TotalRx(dl) + TotalRx(ul)
    ensures var avg := a.sumDelay / (TotalRx(dl) + TotalRx(ul)) as real;
            var lo, skipped := if a.minMs < NO_DELAY then a.minMs else 0.0, SkippedRx(dl) + SkippedRx(ul);
            && avg <= a.maxMs
            && (lo <= avg <==> Scaled(lo, skipped) <= Excess(dl, lo) + Excess(ul, lo))
            && (skipped == 0 ==> lo <= avg)
  {
    hide *;
    var lo, hi := if a.minMs < NO_DELAY then a.minMs else 0.0, a.maxMs;
    var bytes, skipped := TotalRx(dl) + TotalRx(ul), SkippedRx(dl) + SkippedRx(ul);
    ExtremesHold(dl, ul, lo, hi);
    BothSums(dl, ul, lo);
    BothSums(dl, ul, hi);
    QuotientAgainst(a.sumDelay, bytes, lo);
    QuotientAgainst(a.sumDelay, bytes, hi);
    ScaledSign(hi, skipped);
    ScaledSum(lo, 0, 0);
  }

  /** The least delay of any counted sink, from a start value on. */
  function LeastCounted(sinks: seq<SinkStats>, start: real): real
  {
    if sinks == [] then start
    else
      var least, s := LeastCounted(sinks[..|sinks| - 1], start), sinks[|sinks| - 1];
      if s.avgMs > 0.0 && s.minMs < least then s.minMs else least
  }

  lemma {:induction false} AddAllMin(t: Totals, sinks: seq<SinkStats>)
    ensures t.AddAll(sinks).minMs == LeastCounted(sinks, t.minMs)
  {
    hide Add64;
    if sinks != [] {
      AddAllMin(t, sinks[..|sinks| - 1]);
    }
  }

  /** The least delay that the counted sinks of an observation recorded, or 0 if there is none below the limit. */
  function Floor(o: Observation): real
  {
    var least := LeastCounted(o.ul, LeastCounted(o.dl, NO_DELAY));
    if least < NO_DELAY then least else 0.0
  }

  /** The reported minimum is that least delay. The reported average, weighted by bytes, never exceeds the reported
      maximum. It is at least the least delay exactly when the excess of the counted sinks over it makes up for the
      bytes of the skipped ones, in particular when nothing is skipped. */
  lemma LatencyWithinExtremesIff(c: Cursor, o: Observation)
    requires (forall s :: s in o.dl ==> Consistent(s)) && (forall s :: s in o.ul ==> Consistent(s))
    requires 0 < TotalRx(o.dl) + TotalRx(o.ul) < TWO64
    ensures var m, least, skipped := Measure(c, o), Floor(o), SkippedRx(o.dl) + SkippedRx(o.ul);
            && m.minDelayMs == least
            && m.avgDelayMs <= m.maxDelayMs
            && (least <= m.avgDelayMs <==> Scaled(least, skipped) <= Excess(o.dl, least) + Excess(o.ul, least))
            && (skipped == 0 ==> least <= m.avgDelayMs)
  {
    MeasuredDelays(c, o);
    FloorIsMin(o);
    hide *;
    AverageWithin(o.dl, o.ul, NO_TOTALS.AddAll(o.dl).(rx := 0).AddAll(o.ul));
  }

  lemma FloorIsMin(o: Observation)
    ensures var a := NO_TOTALS.AddAll(o.dl).(rx := 0).AddAll(o.ul);
            Floor(o) == if a.minMs < NO_DELAY then a.minMs else 0.0
  {
    hide Totals.AddAll, LeastCounted;
    AddAllMin(NO_TOTALS, o.dl);
    AddAllMin(NO_TOTALS.AddAll(o.dl).(rx := 0), o.ul);
  }

  lemma ScaledSign(bound: real, n: nat)
    requires bound >= 0.0
    ensures Scaled(bound, n) >= 0.0
  {
    SignOfProduct(bound, n as real, Scaled(bound, n));
  }

  lemma QuotientAgainst(a: real, n: nat, bound: real)
    requires n > 0
    ensures bound <= a / n as real <==> Scaled(bound, n) <= a
    ensures a / n as real <= bound <==> a <= Scaled(bound, n)
  {
    var w := n as real;
    var q := a / w;
    assert a == q * w;
    var d := (q - bound) * w;
    assert d == a - bound * w;
    SignOfProduct(q - bound, w, d);
    StrictSign(q - bound, w, d);
  }

  lemma StrictSign(d: real, w: real, product: real)
    requires w > 0.0 && product == d * w
    ensures d > 0.0 ==> product > 0.0
    ensures d < 0.0 ==> product < 0.0
  {
  }

  lemma MeasuredDelays(c: Cursor, o: Observation)
    requires 0 < TotalRx(o.dl) + TotalRx(o.ul) < TWO64
    ensures var m := Measure(c, o); var a := NO_TOTALS.AddAll(o.dl).(rx := 0).AddAll(o.ul);
            && m.avgDelayMs == a.sumDelay / (TotalRx(o.dl) + TotalRx(o.ul)) as real
            && m.minDelayMs == (if a.minMs < NO_DELAY then a.minMs else 0.0) && m.maxDelayMs == a.maxMs
  {
    hide Throughput, LossRatio, Radicand, Totals.AddAll, TotalRx, Sub64;
    AddAllCounts(NO_TOTALS, o.dl);
    AddAllCounts(NO_TOTALS.AddAll(o.dl).(rx := 0), o.ul);
    NoWrap(TotalRx(o.dl), TotalRx(o.ul));
  }

  lemma ExtremesHold(dl: seq<SinkStats>, ul: seq<SinkStats>, lo: real, hi: real)
    requires (forall s :: s in dl ==> Consistent(s)) && (forall s :: s in ul ==> Consistent(s))
    requires var a := NO_TOTALS.AddAll(dl).(rx := 0).AddAll(ul);
             hi == a.maxMs && lo == if a.minMs < NO_DELAY then a.minMs else 0.0
    ensures Excess(dl, lo) >= 0.0 && Excess(ul, lo) >= 0.0 && Excess(dl, hi) <= 0.0 && Excess(ul, hi) <= 0.0
    ensures hi >= 0.0
  {
    hide Totals.AddAll, Excess, Consistent;
    var d := NO_TOTALS.AddAll(dl);
    var a := d.(rx := 0).AddAll(ul);
    ExcessSign(d.(rx := 0), ul, a.minMs, hi);
    ExcessSign(NO_TOTALS, dl, a.minMs, hi);
    if a.minMs >= NO_DELAY {
      ExcessSign(d.(rx := 0), ul, 0.0, hi);
      ExcessSign(NO_TOTALS, dl, 0.0, hi);
    }
  }

  /** A sink with bytes but no positive average pulls the reported average below the reported minimum: two sinks with
      1000 bytes each, one of them at 10 ms, are reported with 5 ms on average and 10 ms at least. */
  lemma SkippedSinkBreaksMinimum(c: Cursor, note: Note)
    ensures var dl, ul := [SinkStats(1000, 0, 10.0, 10.0, 10.0)], [SinkStats(1000, 0, 0.0, 0.0, 0.0)];
            var o := Observation(1.0, note, dl, ul);
            Measure(c, o).avgDelayMs == 5.0 && Measure(c, o).minDelayMs == 10.0
  {
    var s1, s2 := SinkStats(1000, 0, 10.0, 10.0, 10.0), SinkStats(1000, 0, 0.0, 0.0, 0.0);
    var o := Observation(1.0, note, [s1], [s2]);
    assert [s1][..0] == [] && [s2][..0] == [];
    assert TotalRx([s1]) == 1000 && TotalRx([s2]) == 1000;
    MeasuredDelays(c, o);
    hide Measure, TotalRx;
    var d := NO_TOTALS.AddAll([s1]);
    assert d == NO_TOTALS.Add(s1) && d.(rx := 0).AddAll([s2]) == d.(rx := 0).Add(s2);
  }

  // ---------- the collector object ----------

  function StatsOf(sink: PacketSinkWithStats): SinkStats
    reads sink
    requires sink.Valid()
  {
    SinkStats(sink.m_totalRx, sink.m_lost, sink.GetAvgDelayMs(), sink.m_minDelayMs, sink.m_maxDelayMs)
  }

  function AllStats(sinks: seq<PacketSinkWithStats>): (r: seq<SinkStats>)
    reads sinks
    requires forall s :: s in sinks ==> s.Valid()
    ensures |r| == |sinks|
    ensures forall i :: 0 <= i < |r| ==> r[i] == StatsOf(sinks[i])
  {
    if sinks == [] then [] else AllStats(sinks[..|sinks| - 1]) + [StatsOf(sinks[|sinks| - 1])]
  }

  /** The statistics of a sink that has received one packet. */
  lemma OnePacketStats(sink: PacketSinkWithStats, a: Arrival)
    requires sink.Valid() && sink.arrivals == [a] && a.packet.size < TWO64 && 0.0 <= a.DelayMs() < NO_DELAY
    ensures StatsOf(sink) == SinkStats(a.packet.size, 0, a.DelayMs(), a.DelayMs(), a.DelayMs())
  {
    hide Gap, Arrival.DelayMs;
    assert [a][..0] == [] && Bytes([a]) == a.packet.size;
    assert SeqNos([a])[..0] == [] && Lost(SeqNos([a])) == Gap(0, a.packet.seqNo) by {
      assert Last([]) == 0 && Lost([]) == 0;
    }
    assert Gap(0, a.packet.seqNo) == 0 by { NoGapAtStart(a.packet.seqNo); }
    assert Delays([a]) == [a.DelayMs()];
    OneDelay(a.DelayMs());
    OneOverOne(a.DelayMs());
  }

  lemma NoGapAtStart(n: u64)
    ensures Gap(0, n) == 0
  {
  }

  lemma OneDelay(d: real)
    requires 0.0 <= d < NO_DELAY
    ensures MinDelay([d]) == d && MaxDelay([d]) == d && Sum([d]) == d
  {
    assert [d][..0] == [];
  }

  lemma OneOverOne(d: real)
    ensures d / 1.0 == d
  {
  }

  /** Such a pair of sinks comes about: each has received one packet of 1000 bytes, one of them in no time. */
  lemma SkippedSinkOccurs(slow: PacketSinkWithStats, fast: PacketSinkWithStats, n: u64)
    requires slow.Valid() && slow.arrivals == [Arrival(Packet(n, 0.0, 1000), 0.01)]
    requires fast.Valid() && fast.arrivals == [Arrival(Packet(n, 0.0, 1000), 0.0)]
    ensures StatsOf(slow) == SinkStats(1000, 0, 10.0, 10.0, 10.0)
    ensures StatsOf(fast) == SinkStats(1000, 0, 0.0, 0.0, 0.0)
  {
    assert slow.arrivals[0].DelayMs() == 10.0 && fast.arrivals[0].DelayMs() == 0.0;
    hide PacketSinkWithStats.Valid, StatsOf;
    OnePacketStats(slow, slow.arrivals[0]);
    OnePacketStats(fast, fast.arrivals[0]);
  }

  /** Every sink's statistics are consistent, and a sink with bytes whose packets all took some time is not skipped. */
  lemma SinkIsConsistent(sink: PacketSinkWithStats)
    requires sink.Valid()
    ensures Consistent(StatsOf(sink))
    ensures sink.m_totalRx > 0 && (forall i :: 0 <= i < |sink.m_delaysMs| ==> sink.m_delaysMs[i] > 0.0) ==>
              SkippedRx([StatsOf(sink)]) == 0
  {
    var ds := sink.m_delaysMs;
    hide Lost, SeqNos, MinDelay, MaxDelay;
    assert [StatsOf(sink)][..0] == [];
    if sink.m_totalRx > 0 && (forall i :: 0 <= i < |ds| ==> ds[i] > 0.0) {
      assert sink.arrivals != [] && ds != [];
      SumOfPositive(ds);
      PositiveOverPositive(Sum(ds), |ds| as real);
    }
  }

  lemma {:induction false} SumOfPositive(xs: seq<real>)
    requires xs != [] && forall i :: 0 <= i < |xs| ==> xs[i] > 0.0
    ensures Sum(xs) > 0.0
  {
    if |xs| > 1 {
      SumOfPositive(xs[..|xs| - 1]);
    }
  }

  lemma PositiveOverPositive(a: real, n: real)
    requires a > 0.0 && n > 0.0
    ensures a / n > 0.0
  {
  }

  // ---------- sinks that only count up ----------

  /** Bytes received over all sinks. */
  ghost function Received(sinks: seq<PacketSinkWithStats>): nat
    reads sinks
  {
    if sinks == [] then 0 else Received(sinks[..|sinks| - 1]) + Bytes(sinks[|sinks| - 1].arrivals)
  }

  lemma StatsSnoc(sinks: seq<PacketSinkWithStats>)
    requires sinks != [] && forall s :: s in sinks ==> s.Valid()
    ensures var front, last := sinks[..|sinks| - 1], sinks[|sinks| - 1];
            last in sinks && AllStats(sinks) == AllStats(front) + [StatsOf(last)]
  {
    hide PacketSinkWithStats.Valid, StatsOf;
    assert sinks[|sinks| - 1] in sinks;
  }

  lemma TotalSnoc(stats: seq<SinkStats>, s: SinkStats)
    ensures TotalRx(stats + [s]) == TotalRx(stats) + s.totalRx
  {
    assert (stats + [s])[..|stats|] == stats;
  }

  lemma OneReceived(sink: PacketSinkWithStats)
    requires sink.Valid() && Bytes(sink.arrivals) < TWO64
    ensures StatsOf(sink).totalRx == Bytes(sink.arrivals)
  {
    NoWrap(Bytes(sink.arrivals), 0);
    hide PacketSinkWithStats.GetAvgDelayMs;
  }

  lemma {:induction false} TotalIsReceived(sinks: seq<PacketSinkWithStats>)
    requires (forall s :: s in sinks ==> s.Valid()) && Received(sinks) < TWO64
    ensures TotalRx(AllStats(sinks)) == Received(sinks)
  {
    hide PacketSinkWithStats.Valid, StatsOf;
    if sinks != [] {
      var front, last := sinks[..|sinks| - 1], sinks[|sinks| - 1];
      StatsSnoc(sinks);
      TotalIsReceived(front);
      TotalSnoc(AllStats(front), StatsOf(last));
      OneReceived(last);
      hide TotalRx, AllStats;
    }
  }

  lemma {:induction false} PrefixBytes(before: seq<Arrival>, after: seq<Arrival>)
    requires before <= after
    ensures Bytes(before) <= Bytes(after)
  {
    if |before| < |after| {
      PrefixBytes(before, after[..|after| - 1]);
    } else {
      assert before == after;
    }
  }

  /** What each sink has received so far. */
  ghost function Histories(sinks: seq<PacketSinkWithStats>): (r: seq<seq<Arrival>>)
    reads sinks
    ensures |r| == |sinks| && forall i :: 0 <= i < |r| ==> r[i] == sinks[i].arrivals
  {
    if sinks == [] then [] else Histories(sinks[..|sinks| - 1]) + [sinks[|sinks| - 1].arrivals]
  }

  /** Sinks that have received more hold at least as many bytes. */
  lemma {:induction false} ReceivedGrows(sinks: seq<PacketSinkWithStats>, before: seq<seq<Arrival>>)
    requires |before| == |sinks| && forall i :: 0 <= i < |sinks| ==> before[i] <= sinks[i].arrivals
    ensures HistoryBytes(before) <= Received(sinks)
  {
    if sinks != [] {
      var n := |sinks| - 1;
      ReceivedGrows(sinks[..n], before[..n]);
      PrefixBytes(before[n], sinks[n].arrivals);
    }
  }

  ghost function HistoryBytes(hs: seq<seq<Arrival>>): nat
  {
    if hs == [] then 0 else HistoryBytes(hs[..|hs| - 1]) + Bytes(hs[|hs| - 1])
  }

  lemma {:induction false} ReceivedIsHistory(sinks: seq<PacketSinkWithStats>)
    ensures Received(sinks) == HistoryBytes(Histories(sinks))
  {
    if sinks != [] {
      ReceivedIsHistory(sinks[..|sinks| - 1]);
      assert Histories(sinks)[..|sinks| - 1] == Histories(sinks[..|sinks| - 1]);
    }
  }

  lemma OneMoreCap(n: nat, cap: nat)
    ensures (n + 1) * cap == n * cap + cap
  {
  }

  lemma {:induction false} ReceivedBound(sinks: seq<PacketSinkWithStats>, cap: nat)
    requires forall s :: s in sinks ==> Bytes(s.arrivals) <= cap
    ensures Received(sinks) <= |sinks| * cap
  {
    if sinks != [] {
      var n := |sinks| - 1;
      assert sinks[n] in sinks;
      ReceivedBound(sinks[..n], cap);
      hide Bytes;
      OneMoreCap(n, cap);
    }
  }

  lemma MonotoneSnoc(obs: seq<Observation>, o: Observation)
    requires Monotone(obs) && CursorAfter(obs).time <= o.now
    requires DlBytes(obs) <= TotalRx(o.dl) < TWO64 && UlBytes(obs) <= TotalRx(o.ul) < TWO64
    ensures Monotone(obs + [o]) && CursorAfter(obs + [o]).time == o.now
    ensures DlBytes(obs + [o]) == TotalRx(o.dl) && UlBytes(obs + [o]) == TotalRx(o.ul)
  {
    hide TotalRx, Totals.AddAll;
    assert (obs + [o])[..|obs|] == obs;
  }

  /** Packets queued at a sink's socket. */
  datatype Batch = Batch(sink: PacketSinkWithStats, queue: seq<Packet>)

  function QueueBytes(queue: seq<Packet>): nat
  {
    if queue == [] then 0 else QueueBytes(queue[..|queue| - 1]) + queue[|queue| - 1].size
  }

  function BatchBytes(batches: seq<Batch>): nat
  {
    if batches == [] then 0 else QueueBytes(batches[0].queue) + BatchBytes(batches[1..])
  }

  function TrafficBytes(traffic: seq<seq<Batch>>): nat
  {
    if traffic == [] then 0 else BatchBytes(traffic[0]) + TrafficBytes(traffic[1..])
  }

  lemma {:induction false} QueueArrives(before: seq<Arrival>, queue: seq<Packet>, now: real)
    ensures Bytes(before + Arrivals(queue, now)) == Bytes(before) + QueueBytes(queue)
  {
    if queue == [] {
      assert before + Arrivals(queue, now) == before;
    } else {
      var n := |queue| - 1;
      QueueArrives(before, queue[..n], now);
      assert (before + Arrivals(queue, now))[..|before| + n] == before + Arrivals(queue[..n], now);
    }
  }

  // ---------- the loss ratio of a sample ----------

  /** All packets that arrived at any of the sinks. */
  ghost function AllArrivals(sinks: seq<PacketSinkWithStats>): seq<Arrival>
    reads sinks
  {
    if sinks == [] then [] else AllArrivals(sinks[..|sinks| - 1]) + sinks[|sinks| - 1].arrivals
  }

  /** Losses that the sinks have counted. */
  function AllLost(sinks: seq<PacketSinkWithStats>): nat
    reads sinks
  {
    if sinks == [] then 0 else AllLost(sinks[..|sinks| - 1]) + sinks[|sinks| - 1].m_lost
  }

  lemma {:induction false} BytesConcat(a: seq<Arrival>, b: seq<Arrival>)
    ensures Bytes(a + b) == Bytes(a) + Bytes(b)
  {
    if b == [] {
      assert a + b == a;
    } else {
      BytesConcat(a, b[..|b| - 1]);
      assert (a + b)[..|a + b| - 1] == a + b[..|b| - 1];
    }
  }

  lemma {:induction false} BytesOfAll(sinks: seq<PacketSinkWithStats>)
    ensures Bytes(AllArrivals(sinks)) == Received(sinks)
  {
    hide Bytes;
    if sinks != [] {
      BytesOfAll(sinks[..|sinks| - 1]);
      BytesConcat(AllArrivals(sinks[..|sinks| - 1]), sinks[|sinks| - 1].arrivals);
    } else {
      NoBytes();
    }
  }

  lemma NoBytes()
    ensures Bytes([]) == 0
  {
  }

  lemma LostSnoc(stats: seq<SinkStats>, s: SinkStats)
    ensures TotalLost(stats + [s]) == TotalLost(stats) + s.lost
  {
    assert (stats + [s])[..|stats|] == stats;
  }

  lemma {:induction false} TotalLostIs(sinks: seq<PacketSinkWithStats>)
    requires forall s :: s in sinks ==> s.Valid()
    ensures TotalLost(AllStats(sinks)) == AllLost(sinks)
  {
    hide PacketSinkWithStats.Valid, PacketSinkWithStats.GetAvgDelayMs;
    if sinks != [] {
      var front, last := sinks[..|sinks| - 1], sinks[|sinks| - 1];
      StatsSnoc(sinks);
      TotalLostIs(front);
      LostSnoc(AllStats(front), StatsOf(last));
      assert StatsOf(last).lost == last.m_lost;
      hide TotalLost, AllStats, StatsOf;
    }
  }

  function Ratio(a: nat, b: nat): real { if a + b > 0 then b as real / (a + b) as real else 0.0 }

  /** In a sample taken from the sinks, the reported loss ratio of non-empty packets is at most the ratio of packets
      lost to packets lost or received, and equal to it only if nothing was lost or every packet has a single byte. */
  lemma SampleUnderstatesLoss(c: Cursor, o: Observation, dl: seq<PacketSinkWithStats>, ul: seq<PacketSinkWithStats>)
    requires (forall s :: s in dl ==> s.Valid()) && (forall s :: s in ul ==> s.Valid())
    requires o.dl == AllStats(dl) && o.ul == AllStats(ul)
    requires NoEmptyPacket(AllArrivals(dl) + AllArrivals(ul))
    requires Received(dl) + Received(ul) + AllLost(dl) + AllLost(ul) < TWO64
    ensures var m, all, lost := Measure(c, o), AllArrivals(dl) + AllArrivals(ul), AllLost(dl) + AllLost(ul);
            && m.rxPackets == Bytes(all) && m.lostPackets == lost
            && m.lossRatio <= Ratio(|all|, lost)
            && (m.lossRatio == Ratio(|all|, lost) <==> lost == 0 || forall a :: a in all ==> a.packet.size == 1)
  {
    hide *;
    var m, all, lost := Measure(c, o), AllArrivals(dl) + AllArrivals(ul), AllLost(dl) + AllLost(ul);
    MeasureDescribes(c, o);
    TotalIsReceived(dl);
    TotalIsReceived(ul);
    TotalLostIs(dl);
    TotalLostIs(ul);
    BytesOfAll(dl);
    BytesOfAll(ul);
    BytesConcat(AllArrivals(dl), AllArrivals(ul));
    PacketsOf(m, o, Bytes(all), lost);
    LossRatioUnderstates(all, lost);
    RatioIs(Bytes(all), lost);
    RatioIs(|all|, lost);
    assert (forall a :: a in all ==> a.packet.size == 1) <==> (forall i :: 0 <= i < |all| ==> all[i].packet.size == 1);
  }

  lemma PacketsOf(m: Sample, o: Observation, bytes: nat, lost: nat)
    requires DescribesPackets(m, o)
    requires bytes == TotalRx(o.dl) + TotalRx(o.ul) && lost == TotalLost(o.dl) + TotalLost(o.ul)
    requires bytes + lost < TWO64
    ensures m.rxPackets == bytes && m.lostPackets == lost && m.lossRatio == Ratio(bytes, lost)
  {
    hide TotalRx, TotalLost;
    NoWrap(bytes, lost);
  }

  lemma RatioIs(n: nat, lost: nat)
    requires n + lost < TWO64
    ensures n < TWO64 && lost < TWO64 && LossRatio(n, lost) == Ratio(n, lost)
  {
    NoWrap(n, lost);
  }

  class RealMetricsCollector {
    var m_dlSinks: seq<PacketSinkWithStats>
    var m_ulSinks: seq<PacketSinkWithStats>
    var m_metrics: seq<Sample>
    var m_baselineMetrics: Option<Sample>
    var m_last: Cursor
    var m_totalVerificationEvents: u32
    var m_lastVerificationResult: bool
    ghost var obs: seq<Observation>

    ghost predicate SinksValid()
      reads `m_dlSinks, `m_ulSinks, m_dlSinks, m_ulSinks
    {
      (forall s :: s in m_dlSinks ==> s.Valid()) && (forall s :: s in m_ulSinks ==> s.Valid())
    }

    constructor ()
      ensures m_dlSinks == [] && m_ulSinks == [] && m_metrics == [] && m_baselineMetrics == None
      ensures obs == [] && m_last == CursorAfter(obs)
      ensures m_totalVerificationEvents == 0 && !m_lastVerificationResult
    {
      m_dlSinks, m_ulSinks, m_metrics, m_baselineMetrics := [], [], [], None;
      m_last := Cursor(0.0, 0, 0);
      m_totalVerificationEvents, m_lastVerificationResult := 0, false;
      obs := [];
    }

    method AddDlSink(sink: PacketSinkWithStats)
      modifies `m_dlSinks
      ensures m_dlSinks == old(m_dlSinks) + [sink]
    {
      m_dlSinks := m_dlSinks + [sink];
    }

    method AddUlSink(sink: PacketSinkWithStats)
      modifies `m_ulSinks
      ensures m_ulSinks == old(m_ulSinks) + [sink]
    {
      m_ulSinks := m_ulSinks + [sink];
    }

    method IncVerificationEvents(success: bool)
      modifies `m_totalVerificationEvents, `m_lastVerificationResult
      ensures m_totalVerificationEvents == Inc32(old(m_totalVerificationEvents))
      ensures m_lastVerificationResult == success
    {
      m_totalVerificationEvents := Inc32(m_totalVerificationEvents);
      m_lastVerificationResult := success;
    }

    /** What a sample under that name would see now. */
    ghost function Seen(now: real, name: SampleName): Observation
      reads this, m_dlSinks, m_ulSinks
      requires SinksValid()
    {
      Observation(now, Note(name, m_totalVerificationEvents, m_lastVerificationResult),
                  AllStats(m_dlSinks), AllStats(m_ulSinks))
    }

    /** Time and byte counts have not gone back since the last sample, nor in any earlier interval. */
    ghost predicate Counting(now: real)
      reads `obs, `m_last, `m_dlSinks, `m_ulSinks, m_dlSinks, m_ulSinks
    {
      && SinksValid() && m_last == CursorAfter(obs) && Monotone(obs) && m_last.time <= now
      && DlBytes(obs) <= Received(m_dlSinks) < TWO64 && UlBytes(obs) <= Received(m_ulSinks) < TWO64
    }

    /** A sample taken now continues the observations in order, and the counting goes on. */
    lemma SampleKeepsCounting(now: real, name: SampleName, before: seq<Observation>)
      requires SinksValid() && m_last == CursorAfter(obs) && obs == before + [Seen(now, name)]
      requires Monotone(before) && CursorAfter(before).time <= now
      requires DlBytes(before) <= Received(m_dlSinks) < TWO64 && UlBytes(before) <= Received(m_ulSinks) < TWO64
      ensures Counting(now)
    {
      hide AllStats, Received, Monotone, DlBytes, UlBytes, CursorAfter, TotalRx, PacketSinkWithStats.Valid;
      TotalIsReceived(m_dlSinks);
      TotalIsReceived(m_ulSinks);
      MonotoneSnoc(before, Seen(now, name));
    }

    lemma TimePasses(now: real, later: real)
      requires Counting(now) && now <= later
      ensures Counting(later)
    {
      hide Received, Monotone, DlBytes, UlBytes, CursorAfter;
    }

    /** No sink holds more than the cap with so much more to come, and the caps of all fit in 64 bits. */
    ghost predicate RoomFor(more: nat, cap: nat)
      reads `m_dlSinks, `m_ulSinks, m_dlSinks, m_ulSinks
    {
      && |m_dlSinks| * cap < TWO64 && |m_ulSinks| * cap < TWO64
      && forall s :: s in m_dlSinks + m_ulSinks ==> Bytes(s.arrivals) + more <= cap
    }

    /** Sinks that go on receiving, within 64 bits, keep the counting going. */
    lemma GrowthKeepsCounting(now: real, dl: seq<seq<Arrival>>, ul: seq<seq<Arrival>>)
      requires SinksValid() && m_last == CursorAfter(obs) && Monotone(obs) && m_last.time <= now
      requires DlBytes(obs) <= HistoryBytes(dl) && UlBytes(obs) <= HistoryBytes(ul)
      requires |dl| == |m_dlSinks| && forall i :: 0 <= i < |dl| ==> dl[i] <= m_dlSinks[i].arrivals
      requires |ul| == |m_ulSinks| && forall i :: 0 <= i < |ul| ==> ul[i] <= m_ulSinks[i].arrivals
      requires Received(m_dlSinks) < TWO64 && Received(m_ulSinks) < TWO64
      ensures Counting(now)
    {
      hide Received, Monotone, DlBytes, UlBytes, CursorAfter, PacketSinkWithStats.Valid, HistoryBytes;
      ReceivedGrows(m_dlSinks, dl);
      ReceivedGrows(m_ulSinks, ul);
    }

    /** Packets arrive at one of the sinks; there is room for them and for more. */
    method Deliver(b: Batch, now: real, ghost more: nat, ghost cap: nat)
      requires Counting(now) && b.sink in m_dlSinks + m_ulSinks && RoomFor(more + QueueBytes(b.queue), cap)
      modifies b.sink
      ensures Counting(now) && RoomFor(more, cap)
      ensures b.sink.arrivals == old(b.sink.arrivals) + Arrivals(b.queue, now)
    {
      hide Received, Monotone, DlBytes, UlBytes, CursorAfter, SinksValid, RoomFor, QueueBytes;
      ReceivedIsHistory(m_dlSinks);
      ReceivedIsHistory(m_ulSinks);
      ghost var dl, ul := Histories(m_dlSinks), Histories(m_ulSinks);
      Arrive(b, now, more, cap);
      StillRoom(more, cap);
      GrowthKeepsCounting(now, dl, ul);
    }

    method Arrive(b: Batch, now: real, ghost more: nat, ghost cap: nat)
      requires SinksValid() && b.sink in m_dlSinks + m_ulSinks && RoomFor(more + QueueBytes(b.queue), cap)
      modifies b.sink
      ensures SinksValid() && RoomFor(more, cap)
      ensures b.sink.arrivals == old(b.sink.arrivals) + Arrivals(b.queue, now)
    {
      hide PacketSinkWithStats.Valid, Bytes, QueueBytes;
      QueueArrives(b.sink.arrivals, b.queue, now);
      b.sink.HandleRead(b.queue, now);
    }

    lemma StillRoom(more: nat, cap: nat)
      requires RoomFor(more, cap)
      ensures Received(m_dlSinks) < TWO64 && Received(m_ulSinks) < TWO64
    {
      hide Bytes;
      ReceivedBound(m_dlSinks, cap);
      ReceivedBound(m_ulSinks, cap);
    }

    /** One pass of a loop over sinks. */
    method AddSink(t: Totals, sink: PacketSinkWithStats) returns (r: Totals)
      requires sink.Valid()
      ensures r == t.Add(StatsOf(sink))
    {
      hide Add64, PacketSinkWithStats.Valid, PacketSinkWithStats.GetAvgDelayMs;
      r := t.(rx := Add64(t.rx, sink.m_totalRx), lost := Add64(t.lost, sink.m_lost));
      var avg := sink.GetAvgDelayMs();
      if avg > 0.0 {
        r := r.(sumDelay := r.sumDelay + avg * sink.m_totalRx as real, delays := r.delays + [avg],
                minMs := if sink.m_minDelayMs < r.minMs then sink.m_minDelayMs else r.minMs,
                maxMs := if sink.m_maxDelayMs > r.maxMs then sink.m_maxDelayMs else r.maxMs);
      }
    }

    /** One of the two loops over sinks. */
    method SumSinks(sinks: seq<PacketSinkWithStats>, start: Totals) returns (t: Totals)
      requires forall s :: s in sinks ==> s.Valid()
      ensures t == start.AddAll(AllStats(sinks))
    {
      hide Totals.Add, Totals.AddAll, StatsOf, AllStats, PacketSinkWithStats.Valid;
      t := start;
      AddNone(start, AllStats(sinks)[..0]);
      var i := 0;
      while i < |sinks|
        invariant 0 <= i <= |sinks|
        invariant t == start.AddAll(AllStats(sinks)[..i])
      {
        AddAllPrefix(start, AllStats(sinks), i);
        t := AddSink(t, sinks[i]);
        i := i + 1;
      }
      assert AllStats(sinks)[..i] == AllStats(sinks);
    }

    method CollectCurrentMetrics(now: real, name: SampleName) returns (m: Sample)
      requires SinksValid() && m_last == CursorAfter(obs)
      modifies `m_last, `obs
      ensures obs == old(obs) + [old(Seen(now, name))]
      ensures m_last == CursorAfter(obs)
      ensures m == SampleAt(obs, |obs| - 1)
      ensures var o := old(Seen(now, name));
              DescribesPackets(m, o) && DescribesRates(m, old(m_last), o) && DescribesDelays(m, o)
      ensures old(Counting(now)) ==> Counting(now)
    {
      hide DescribesPackets, DescribesRates, DescribesDelays;
      hide SampleAt, Advance, CursorAfter, Measure, StatsOf, AllStats, SinksValid, PacketSinkWithStats.Valid;
      hide Monotone, Received, DlBytes, UlBytes;
      ghost var o := Seen(now, name);
      ghost var before, counting := obs, Counting(now);
      var cursor;
      MeasureDescribes(m_last, o);
      m, cursor := MeasureNow(now, name);
      SampleOfLast(before, o);
      m_last := cursor;
      obs := before + [o];
      if counting { SampleKeepsCounting(now, name, before); }
    }

    /** The two loops over the sinks: the totals go on from the downlink into the uplink, the byte count starts anew. */
    method SumBoth() returns (d: Totals, a: Totals)
      requires SinksValid()
      ensures d == NO_TOTALS.AddAll(AllStats(m_dlSinks)) && a == d.(rx := 0).AddAll(AllStats(m_ulSinks))
      ensures a.rx == NO_TOTALS.AddAll(AllStats(m_ulSinks)).rx
    {
      hide Totals.AddAll, AllStats, PacketSinkWithStats.Valid;
      d := SumSinks(m_dlSinks, NO_TOTALS);
      a := SumSinks(m_ulSinks, d.(rx := 0));
      UplinkRx(d, AllStats(m_ulSinks));
    }

    /** The computation of one sample; the cursor returned becomes the "last seen" fields. */
    method MeasureNow(now: real, name: SampleName) returns (m: Sample, cursor: Cursor)
      requires SinksValid()
      ensures m == Measure(m_last, Seen(now, name)) && cursor == Advance(Seen(now, name))
    {
      hide Add64, Throughput, LossRatio, Radicand, AllStats, SinksValid, Totals.AddAll;
      var d, a := SumBoth();
      var totalRx := Add64(d.rx, a.rx);
      var interval := now - m_last.time;
      var dl, ul := 0.0, 0.0;
      if interval > 0.0 {
        dl := Throughput(d.rx, m_last.dlRx, interval);
        ul := Throughput(a.rx, m_last.ulRx, interval);
      }
      m := Sample(now, Note(name, m_totalVerificationEvents, m_lastVerificationResult), dl, ul, dl + ul,
                  if totalRx > 0 then a.sumDelay / totalRx as real else 0.0,
                  if a.minMs < NO_DELAY then a.minMs else 0.0,
                  a.maxMs,
                  if |a.delays| > 1 then Radicand(a.delays) else 0.0,
                  totalRx, a.lost, LossRatio(totalRx, a.lost));
      cursor := Cursor(now, d.rx, a.rx);
    }

    /** The baseline is captured once, and its collection counts as a sample. */
    method CaptureBaseline(now: real)
      requires SinksValid() && m_last == CursorAfter(obs)
      modifies `m_last, `obs, `m_baselineMetrics
      ensures m_last == CursorAfter(obs)
      ensures old(m_baselineMetrics).Some? ==> m_baselineMetrics == old(m_baselineMetrics) && obs == old(obs)
      ensures old(m_baselineMetrics).None? ==>
                && obs == old(obs) + [old(Seen(now, Baseline))]
                && m_baselineMetrics == Some(SampleAt(obs, |obs| - 1))
      ensures old(Counting(now)) ==> Counting(now)
    {
      hide Counting, SampleAt, CursorAfter, StatsOf, AllStats, SinksValid, Advance, PacketSinkWithStats.Valid;
      if m_baselineMetrics.None? {
        var m := CollectCurrentMetrics(now, Baseline);
        m_baselineMetrics := Some(m);
      }
    }

    method RecordMetrics(now: real, name: SampleName)
      requires SinksValid() && m_last == CursorAfter(obs)
      modifies `m_last, `obs, `m_metrics
      ensures m_last == CursorAfter(obs)
      ensures obs == old(obs) + [old(Seen(now, name))]
      ensures m_metrics == old(m_metrics) + [SampleAt(obs, |obs| - 1)]
      ensures old(Counting(now)) ==> Counting(now)
    {
      hide Counting, SampleAt, CursorAfter, StatsOf, AllStats, SinksValid, Advance, PacketSinkWithStats.Valid;
      var m := CollectCurrentMetrics(now, name);
      m_metrics := m_metrics + [m];
    }
  }

  lemma AddNone(t: Totals, none: seq<SinkStats>)
    requires none == []
    ensures t.AddAll(none) == t
  {
  }

  /** A sample carries the time and the note of its observation. */
  lemma SampleIsNoted(obs: seq<Observation>, i: nat)
    requires i < |obs|
    ensures SampleAt(obs, i).timestamp == obs[i].now && SampleAt(obs, i).note == obs[i].note
  {
    hide Throughput, LossRatio, Radicand, Totals.AddAll, CursorAfter;
  }
}
