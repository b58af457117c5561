/** The numbered UDP sender, a lossy in-order channel and the loss-counting sink. */
module Traffic {
  import opened Common
  import opened Statistics

  datatype Packet = Packet(seqNo: u64, txTime: real, size: nat)

  // ---------- the sink: loss counting ----------

  function Last(ns: seq<u64>): u64 { if ns == [] then 0 else ns[|ns| - 1] }

  /** What one arrival adds to the loss counter. */
  function Gap(last: u64, n: u64): u64
  {
    if n > Add64(last, 1) && last != 0 then Sub64(n, Add64(last, 1)) else 0
  }

  /** The loss counter after the given arrivals, before any wrap-around. */
  function Lost(ns: seq<u64>): nat
  {
    if ns == [] then 0
    else Lost(ns[..|ns| - 1]) + Gap(Last(ns[..|ns| - 1]), ns[|ns| - 1])
  }

  function Max(ns: seq<u64>): u64
  {
    if ns == [] then 0
    else
      var m := Max(ns[..|ns| - 1]);
      if ns[|ns| - 1] > m then ns[|ns| - 1] else m
  }

  /** The integers strictly between two bounds. */
  ghost function Between(lo: int, hi: int): (s: set<int>)
    ensures forall v :: v in s <==> lo < v < hi
    ensures |s| == if lo + 1 < hi then hi - lo - 1 else 0
    decreases hi - lo
  {
    if lo + 1 < hi then Between(lo, hi - 1) + {hi - 1} else {}
  }

  ghost predicate Arrived(ns: seq<u64>, v: int)
  {
    exists i :: 0 <= i < |ns| && ns[i] == v
  }

  /** The numbers between the first and the largest received that never arrived. */
  ghost function Missing(ns: seq<u64>): set<int>
    requires ns != []
  {
    set v | v in Between(ns[0], Max(ns)) && !Arrived(ns, v)
  }

  lemma {:induction false} MaxIsLargest(ns: seq<u64>)
    ensures forall i :: 0 <= i < |ns| ==> ns[i] <= Max(ns)
    ensures ns != [] ==> exists i :: 0 <= i < |ns| && ns[i] == Max(ns)
  {
    if ns != [] {
      var front, x := ns[..|ns| - 1], ns[|ns| - 1];
      MaxIsLargest(front);
      if x > Max(front) || front == [] {
        assert ns[|ns| - 1] == Max(ns);
      } else {
        var i :| 0 <= i < |front| && front[i] == Max(front);
        assert ns[i] == Max(ns);
      }
    }
  }

  lemma SubsetSize<T>(a: set<T>, b: set<T>)
    requires a <= b
    ensures |a| <= |b|
  {
    assert b == a + (b - a);
  }

  lemma GapValue(last: u64, n: u64)
    requires 1 <= last
    ensures last < n ==> Gap(last, n) == n - last - 1
  {
  }

  /** One more arrival can only make the numbers above the old maximum missing. */
  lemma MissingGrows(front: seq<u64>, x: u64)
    requires front != []
    ensures Missing(front + [x]) <= Missing(front) + Between(Max(front), x)
  {
    var ns := front + [x];
    assert ns[..|ns| - 1] == front;
    MaxIsLargest(front);
    forall v | v in Missing(ns) ensures v in Missing(front) + Between(Max(front), x) {
      forall i | 0 <= i < |front| ensures front[i] != v { assert ns[i] == front[i]; }
      assert !Arrived(front, v) && Arrived(front, Max(front));
    }
  }

  /** Whatever gaps, duplicates and reordering occur, every number that is missing is counted. */
  lemma {:induction false} LostCoversMissing(ns: seq<u64>)
    requires ns != [] && forall i :: 0 <= i < |ns| ==> ns[i] >= 1
    ensures Lost(ns) >= |Missing(ns)|
  {
    var front, x := ns[..|ns| - 1], ns[|ns| - 1];
    assert ns == front + [x];
    if front == [] {
      assert Max(front) == 0 && Max(ns) == ns[0];
      assert Missing(ns) == {};
    } else {
      LostCoversMissing(front);
      MaxIsLargest(front);
      MissingGrows(front, x);
      var old', new' := Missing(front), Between(Max(front), x);
      SubsetSize(Missing(ns), old' + new');
      assert |old' + new'| <= |old'| + |new'|;
      GapValue(Last(front), x);
    }
  }

  ghost predicate Increasing(ns: seq<u64>)
  {
    forall i, j :: 0 <= i < j < |ns| ==> ns[i] < ns[j]
  }

  lemma NextGap(last: u64, n: u64)
    requires 1 <= last < n
    ensures Gap(last, n) == n - last - 1
  {
  }

  /** For strictly increasing arrivals the count is exact. */
  lemma {:induction false} LostExactWhenIncreasing(ns: seq<u64>)
    requires ns != [] && ns[0] >= 1 && Increasing(ns)
    ensures |ns| + Lost(ns) == Last(ns) - ns[0] + 1
  {
    var front, x := ns[..|ns| - 1], ns[|ns| - 1];
    if front != [] {
      LostExactWhenIncreasing(front);
      assert Last(front) == ns[|ns| - 2] && ns[0] <= ns[|ns| - 2] < x;
      NextGap(Last(front), x);
      hide Gap;
    }
  }

  lemma CountersSnoc(ns: seq<u64>, n: u64)
    ensures Lost(ns + [n]) == Lost(ns) + Gap(Last(ns), n)
    ensures Max(ns + [n]) == if n > Max(ns) then n else Max(ns)
  {
    assert (ns + [n])[..|ns|] == ns;
  }

  // ---------- when the count is exact ----------

  /** Every jump upwards starts at the largest number so far and nothing ever arrives inside it; and nothing follows
      the largest 64-bit number. */
  ghost predicate CleanJumps(ns: seq<u64>)
  {
    forall i :: 0 <= i < |ns| - 1 ==> CleanStep(ns, i)
  }

  ghost predicate CleanStep(ns: seq<u64>, i: nat)
    requires i + 1 < |ns|
  {
    && ns[i] != TWO64 - 1
    && (ns[i + 1] > ns[i] + 1 ==> ns[i] == Max(ns[..i + 1]))
    && NothingInside(ns, ns[i], ns[i + 1])
  }

  ghost predicate NothingInside(ns: seq<u64>, lo: u64, hi: u64)
  {
    forall j :: 0 <= j < |ns| ==> !(lo < ns[j] < hi)
  }

  lemma NothingMissingYet(ns: seq<u64>)
    requires |ns| == 1
    ensures Missing(ns) == {}
  {
    assert Max(ns[..0]) == 0 && Max(ns) == ns[0];
  }

  /** A missing number lies strictly inside some jump. */
  lemma {:induction false} MissingInJump(ns: seq<u64>, v: int) returns (i: nat)
    requires ns != [] && v in Missing(ns)
    ensures i + 1 < |ns| && ns[i] < v < ns[i + 1]
  {
    var front, x := ns[..|ns| - 1], ns[|ns| - 1];
    assert ns == front + [x];
    if front == [] {
      NothingMissingYet(ns);
      assert false;
    } else if v < Max(front) {
      forall j | 0 <= j < |front| ensures front[j] != v { assert ns[j] == front[j]; }
      i := MissingInJump(front, v);
    } else {
      MaxIsLargest(front);
      assert Arrived(ns, Max(front)) by {
        var m :| 0 <= m < |front| && front[m] == Max(front);
        assert ns[m] == Max(front);
      }
      i := |front| - 1;
      assert front[i] <= Max(front) && ns[i] == front[i];
    }
  }

  lemma ArrivedSnoc(front: seq<u64>, x: u64, v: int)
    ensures Arrived(front + [x], v) <==> Arrived(front, v) || v == x
  {
    var ns := front + [x];
    if Arrived(front, v) {
      var i :| 0 <= i < |front| && front[i] == v;
      assert ns[i] == v;
    }
    assert ns[|front|] == x;
  }

  lemma MaxFacts(ns: seq<u64>)
    requires ns != []
    ensures ns[0] <= Max(ns) && Arrived(ns, Max(ns))
    ensures forall v :: v > Max(ns) ==> !Arrived(ns, v)
  {
    MaxIsLargest(ns);
  }

  /** An arrival below the maximum can only turn up what was missing. */
  lemma MissingBelow(front: seq<u64>, x: u64)
    requires front != [] && x <= Max(front)
    ensures Missing(front + [x]) == Missing(front) - {x as int}
  {
    CountersSnoc(front, x);
    forall v: int ensures Arrived(front + [x], v) <==> Arrived(front, v) || v == x {
      ArrivedSnoc(front, x, v);
    }
    hide Arrived, Max, Between, Lost;
  }

  /** An arrival above the maximum makes everything between missing. */
  lemma MissingAbove(front: seq<u64>, x: u64)
    requires front != [] && x > Max(front)
    ensures Missing(front + [x]) == Missing(front) + Between(Max(front), x)
    ensures Missing(front) !! Between(Max(front), x)
  {
    CountersSnoc(front, x);
    MaxFacts(front);
    hide Arrived, Max, Between, Lost;
    forall v: int
      ensures v in Missing(front + [x]) <==> v in Missing(front) || v in Between(Max(front), x)
    {
      ArrivedSnoc(front, x, v);
    }
  }

  /** What one more arrival does to the numbers missing. */
  lemma MissingSnoc(front: seq<u64>, x: u64)
    requires front != []
    ensures x <= Max(front) ==> Missing(front + [x]) == Missing(front) - {x as int}
    ensures x > Max(front) ==> Missing(front + [x]) == Missing(front) + Between(Max(front), x)
                               && Missing(front) !! Between(Max(front), x)
  {
    hide Missing, Max, Between;
    if x > Max(front) {
      MissingAbove(front, x);
    } else {
      MissingBelow(front, x);
    }
  }

  /** Under clean jumps a number arrives inside an earlier jump exactly when it was missing. */
  lemma InsideIsMissing(front: seq<u64>, x: u64)
    requires front != [] && CleanJumps(front)
    ensures x as int in Missing(front)
       <==> exists i :: 0 <= i < |front| - 1 && front[i] < x < front[i + 1]
  {
    if x as int in Missing(front) {
      var i := MissingInJump(front, x);
    }
    if i :| 0 <= i < |front| - 1 && front[i] < x < front[i + 1] {
      assert CleanStep(front, i);
      MaxIsLargest(front);
      MaxIsLargest(front[..i + 1]);
      assert front[..i + 1][0] == front[0];
      assert !Arrived(front, x);
    }
  }

  /** The earlier steps with one more arrival. */
  lemma CleanEarlier(front: seq<u64>, x: u64, i: nat)
    requires i + 1 < |front|
    ensures CleanStep(front + [x], i) <==> CleanStep(front, i) && !(front[i] < x < front[i + 1])
  {
    var ns := front + [x];
    assert ns[..i + 1] == front[..i + 1] && ns[|front|] == x;
    assert forall j :: 0 <= j < |front| ==> ns[j] == front[j];
    assert NothingInside(ns, ns[i], ns[i + 1]) <==> NothingInside(front, ns[i], ns[i + 1]) && !(ns[i] < x < ns[i + 1]);
  }

  /** The step to the new arrival. */
  lemma CleanLast(front: seq<u64>, x: u64)
    requires front != []
    ensures CleanStep(front + [x], |front| - 1) <==>
              Last(front) != TWO64 - 1 && (x > Last(front) + 1 ==> Last(front) == Max(front))
  {
    var ns, k := front + [x], |front| - 1;
    MaxIsLargest(front);
    assert ns[..k + 1] == front && ns[k] == Last(front) && ns[k + 1] == x;
    assert forall j :: 0 <= j < |front| ==> ns[j] == front[j];
    assert Last(front) == Max(front) ==> NothingInside(ns, Last(front), x);
    assert Last(front) != TWO64 - 1 && x <= Last(front) + 1 ==> NothingInside(ns, Last(front), x);
    hide Max;
  }

  /** Clean jumps with one more arrival. */
  lemma CleanSnoc(front: seq<u64>, x: u64)
    requires front != []
    ensures CleanJumps(front + [x]) <==>
              && CleanJumps(front)
              && (forall i :: 0 <= i < |front| - 1 ==> !(front[i] < x < front[i + 1]))
              && Last(front) != TWO64 - 1
              && (x > Last(front) + 1 ==> Last(front) == Max(front))
  {
    hide CleanStep, Max;
    var ns := front + [x];
    CleanLast(front, x);
    if CleanJumps(ns) {
      forall i | 0 <= i < |front| - 1 ensures CleanStep(front, i) && !(front[i] < x < front[i + 1]) {
        assert CleanStep(ns, i);
        CleanEarlier(front, x, i);
      }
      assert CleanStep(ns, |front| - 1);
    } else {
      var i :| 0 <= i < |ns| - 1 && !CleanStep(ns, i);
      if i < |front| - 1 {
        CleanEarlier(front, x, i);
      }
    }
  }

  lemma GapZeroIff(last: u64, n: u64)
    requires 1 <= last && 1 <= n
    ensures Gap(last, n) == 0 <==> last != TWO64 - 1 && n <= last + 1
  {
  }

  /** The counter, before any wrap-around, is exact if and only if all jumps are clean. */
  lemma {:induction false} LostExactIff(ns: seq<u64>)
    requires ns != [] && forall i :: 0 <= i < |ns| ==> ns[i] >= 1
    ensures Lost(ns) == |Missing(ns)| <==> CleanJumps(ns)
  {
    var front, x := ns[..|ns| - 1], ns[|ns| - 1];
    assert ns == front + [x];
    if front == [] {
      assert Max(front) == 0 && Max(ns) == ns[0];
      assert Missing(ns) == {};
    } else {
      LostExactIff(front);
      LostCoversMissing(front);
      MissingSnoc(front, x);
      CleanSnoc(front, x);
      ExactStep(front, x);
    }
  }

  /** One more arrival keeps the count exact if and only if it keeps the jumps clean. */
  lemma ExactStep(front: seq<u64>, x: u64)
    requires front != [] && x >= 1 && forall i :: 0 <= i < |front| ==> front[i] >= 1
    requires Lost(front) >= |Missing(front)| && (Lost(front) == |Missing(front)| <==> CleanJumps(front))
    ensures Lost(front + [x]) == |Missing(front + [x])| <==> CleanJumps(front + [x])
  {
    var last, m := Last(front), Max(front);
    CountersSnoc(front, x);
    MissingSnoc(front, x);
    CleanSnoc(front, x);
    MaxIsLargest(front);
    assert 1 <= last <= m;
    hide Lost, Max, Missing, CleanJumps;
    if x > m {
      GapValue(last, x);
      assert |Missing(front) + Between(m, x)| == |Missing(front)| + |Between(m, x)|;
    } else {
      GapZeroIff(last, x);
      var mf := Missing(front);
      assert |mf - {x as int}| == |mf| - if x as int in mf then 1 else 0;
      if CleanJumps(front) {
        InsideIsMissing(front, x);
      }
    }
  }

  // ---------- the 64-bit counter ----------

  /** The sink's counter covers every missing number as long as the losses fit in 64 bits. */
  lemma CounterCoversMissing(sink: PacketSinkWithStats)
    requires sink.Valid() && sink.arrivals != []
    requires forall i :: 0 <= i < |sink.arrivals| ==> sink.arrivals[i].packet.seqNo >= 1
    requires Lost(SeqNos(sink.arrivals)) < TWO64
    ensures sink.m_lost >= |Missing(SeqNos(sink.arrivals))|
    ensures sink.m_lost == |Missing(SeqNos(sink.arrivals))| <==> CleanJumps(SeqNos(sink.arrivals))
  {
    hide Lost, Missing, CleanJumps;
    LostCoversMissing(SeqNos(sink.arrivals));
    LostExactIff(SeqNos(sink.arrivals));
  }

  /** A sum reduced modulo a word stays at or above one of its parts exactly if the other part leaves room for it. */
  lemma WrappedPart(excess: nat, part: nat)
    requires part < TWO64
    ensures (excess + part) % TWO64 >= part <==> excess % TWO64 + part < TWO64
    ensures (excess + part) % TWO64 == part <==> excess % TWO64 == 0
  {
    var q, r := excess / TWO64, excess % TWO64;
    if r + part < TWO64 {
      WordRemainder(excess + part, q, r + part);
    } else {
      WordRemainder(excess + part, q + 1, r + part - TWO64);
    }
  }

  lemma MissingFitsAWord(ns: seq<u64>)
    requires ns != []
    ensures |Missing(ns)| < TWO64
  {
    SubsetSize(Missing(ns), Between(ns[0], Max(ns)));
  }

  /** The sink's counter covers the missing numbers exactly if the overcount, modulo 2^64, leaves room for them, and is
      exact exactly if the overcount is a multiple of 2^64. While the overcount fits in 64 bits, covering means that
      the losses do. */
  lemma CounterCoversIff(sink: PacketSinkWithStats)
    requires sink.Valid() && sink.arrivals != []
    requires forall i :: 0 <= i < |sink.arrivals| ==> sink.arrivals[i].packet.seqNo >= 1
    ensures var ns := SeqNos(sink.arrivals);
            var missing, excess := |Missing(ns)|, Lost(ns) - |Missing(ns)|;
            && excess >= 0
            && (sink.m_lost >= missing <==> excess % TWO64 + missing < TWO64)
            && (sink.m_lost == missing <==> excess % TWO64 == 0)
            && (excess < TWO64 ==> (sink.m_lost >= missing <==> Lost(ns) < TWO64))
  {
    var ns := SeqNos(sink.arrivals);
    assert sink.m_lost == Lost(ns) % TWO64;
    hide *;
    LostCoversMissing(ns);
    MissingFitsAWord(ns);
    WrappedPart(Lost(ns) - |Missing(ns)|, |Missing(ns)|);
  }

  /** Fewer than 2^32 numbers, each below 2^32, never wrap the counter. */
  lemma {:induction false} SmallNumbersDoNotWrap(ns: seq<u64>)
    requires |ns| < TWO32 && forall i :: 0 <= i < |ns| ==> ns[i] < TWO32
    ensures Lost(ns) <= |ns| * TWO32 < TWO64
  {
    if ns != [] {
      SmallNumbersDoNotWrap(ns[..|ns| - 1]);
      SmallGap(Last(ns[..|ns| - 1]), ns[|ns| - 1]);
    }
  }

  lemma SmallGap(last: u64, n: u64)
    requires last < TWO32 && n < TWO32
    ensures Gap(last, n) <= TWO32
  {
  }

  /** Numbers near 2^64 can wrap the counter below the number of losses. */
  lemma WrappedCounterMisses(ns: seq<u64>)
    requires ns == [1, TWO64 - 1, 1, TWO64 - 1]
    ensures Lost(ns) >= TWO64 && Lost(ns) % TWO64 == TWO64 - 5 && |Missing(ns)| == TWO64 - 3
  {
    WrappedCounters();
    hide Lost, Max;
    assert forall v :: Arrived(ns, v) ==> v == 1 || v == TWO64 - 1;
    assert Missing(ns) == Between(1, TWO64 - 1);
  }

  lemma WrappedCounters()
    ensures Lost([1, TWO64 - 1, 1, TWO64 - 1]) == 2 * (TWO64 - 3) + 1
    ensures Max([1, TWO64 - 1, 1, TWO64 - 1]) == TWO64 - 1
  {
    var a: seq<u64> := [1, TWO64 - 1];
    assert [1] + [TWO64 - 1] == a && a + [1] == [1, TWO64 - 1, 1];
    assert a + [1] + [TWO64 - 1] == [1, TWO64 - 1, 1, TWO64 - 1];
    assert Lost([1]) == 0 && Max([1]) == 1;
    assert Gap(1, TWO64 - 1) == TWO64 - 3 && Gap(TWO64 - 1, 1) == 1;
    hide Lost, Max, Gap;
    CountersSnoc([1], TWO64 - 1);
    CountersSnoc(a, 1);
    CountersSnoc(a + [1], TWO64 - 1);
  }

  /** Reordering makes the counter exceed the true loss: nothing is missing here, yet two losses are counted. */
  lemma ReorderingOvercounts()
    ensures Missing([1, 3, 2, 4]) == {} && Lost([1, 3, 2, 4]) == 2
  {
    var ns: seq<u64> := [1, 3, 2, 4];
    assert ns[1] == 3 && ns[2] == 2 && Arrived(ns, 2) && Arrived(ns, 3);
    hide Arrived;
    ReorderedCounters();
    hide Lost, Max;
  }

  lemma ReorderedCounters()
    ensures Lost([1, 3, 2, 4]) == 2 && Max([1, 3, 2, 4]) == 4
  {
    assert [1] + [3] == [1, 3] && [1, 3] + [2] == [1, 3, 2] && [1, 3, 2] + [4] == [1, 3, 2, 4];
    assert Lost([1]) == 0 && Max([1]) == 1;
    hide Lost, Max;
    CountersSnoc([1], 3);
    CountersSnoc([1, 3], 2);
    CountersSnoc([1, 3, 2], 4);
  }

  // ---------- the sink: what it records of a stream of arrivals ----------

  datatype Arrival = Arrival(packet: Packet, rxTime: real)
  {
    function DelayMs(): real { (rxTime - packet.txTime) * 1000.0 }
  }

  function SeqNos(arrivals: seq<Arrival>): (ns: seq<u64>)
    ensures |ns| == |arrivals|
    ensures forall i :: 0 <= i < |ns| ==> ns[i] == arrivals[i].packet.seqNo
  {
    seq(|arrivals|, i requires 0 <= i < |arrivals| => arrivals[i].packet.seqNo)
  }

  function Delays(arrivals: seq<Arrival>): (ds: seq<real>)
    ensures |ds| == |arrivals|
    ensures forall i :: 0 <= i < |ds| ==> ds[i] == arrivals[i].DelayMs()
  {
    seq(|arrivals|, i requires 0 <= i < |arrivals| => arrivals[i].DelayMs())
  }

  /** Received bytes, headers included. */
  function Bytes(arrivals: seq<Arrival>): nat
  {
    if arrivals == [] then 0
    else Bytes(arrivals[..|arrivals| - 1]) + arrivals[|arrivals| - 1].packet.size
  }

  const NO_DELAY := 1000000000.0

  function MinDelay(ds: seq<real>): real
  {
    if ds == [] then NO_DELAY
    else
      var m := MinDelay(ds[..|ds| - 1]);
      if ds[|ds| - 1] < m then ds[|ds| - 1] else m
  }

  function MaxDelay(ds: seq<real>): real
  {
    if ds == [] then 0.0
    else
      var m := MaxDelay(ds[..|ds| - 1]);
      if ds[|ds| - 1] > m then ds[|ds| - 1] else m
  }

  lemma {:induction false} DelayBounds(ds: seq<real>)
    ensures forall i :: 0 <= i < |ds| ==> MinDelay(ds) <= ds[i] <= MaxDelay(ds)
  {
    if ds != [] {
      DelayBounds(ds[..|ds| - 1]);
    }
  }

  /** How each statistic changes with one more arrival. */
  lemma ReceiveOne(before: seq<Arrival>, a: Arrival)
    ensures var after := before + [a];
            && Bytes(after) == Bytes(before) + a.packet.size
            && Delays(after) == Delays(before) + [a.DelayMs()]
            && var least, most := MinDelay(Delays(before)), MaxDelay(Delays(before));
            && MinDelay(Delays(after)) == (if a.DelayMs() < least then a.DelayMs() else least)
            && MaxDelay(Delays(after)) == (if a.DelayMs() > most then a.DelayMs() else most)
            && Lost(SeqNos(after)) == Lost(SeqNos(before)) + Gap(Last(SeqNos(before)), a.packet.seqNo)
            && Last(SeqNos(after)) == a.packet.seqNo
  {
    var after := before + [a];
    assert after[..|before|] == before;
    assert SeqNos(after)[..|before|] == SeqNos(before);
    assert Delays(after)[..|before|] == Delays(before);
    assert Delays(after) == Delays(before) + [a.DelayMs()];
  }

  /** Queued packets, received at one time. */
  function Arrivals(queue: seq<Packet>, now: real): (r: seq<Arrival>)
    ensures |r| == |queue| && forall i :: 0 <= i < |r| ==> r[i] == Arrival(queue[i], now)
  {
    seq(|queue|, i requires 0 <= i < |queue| => Arrival(queue[i], now))
  }

  lemma TimesBack(a: real, n: real)
    requires n > 0.0
    ensures a / n * n == a
  {
  }

  /** The sink object. */
  class PacketSinkWithStats {
    var m_totalRx: u64
    var m_delaysMs: seq<real>
    var m_minDelayMs: real
    var m_maxDelayMs: real
    var m_lost: u64
    var m_lastSeq: u64
    ghost var arrivals: seq<Arrival>

    /** Every statistic is the corresponding function of all arrivals so far (counters modulo 2^64). */
    ghost predicate Valid()
      reads this
    {
      && m_totalRx == Bytes(arrivals) % TWO64
      && m_delaysMs == Delays(arrivals)
      && m_minDelayMs == MinDelay(m_delaysMs)
      && m_maxDelayMs == MaxDelay(m_delaysMs)
      && m_lost == Lost(SeqNos(arrivals)) % TWO64
      && m_lastSeq == Last(SeqNos(arrivals))
    }

    constructor ()
      ensures Valid() && arrivals == []
    {
      m_totalRx, m_delaysMs, m_minDelayMs, m_maxDelayMs, m_lost, m_lastSeq := 0, [], NO_DELAY, 0.0, 0, 0;
      arrivals := [];
    }

    /** Drains the socket: every queued packet is received now. */
    method HandleRead(queue: seq<Packet>, now: real)
      requires Valid()
      modifies this
      ensures Valid()
      ensures arrivals == old(arrivals) + Arrivals(queue, now)
    {
      hide Valid, Arrival.DelayMs;
      var i := 0;
      while i < |queue|
        invariant 0 <= i <= |queue|
        invariant Valid()
        invariant arrivals == old(arrivals) + Arrivals(queue[..i], now)
      {
        Receive(queue[i], now);
        assert Arrivals(queue[..i + 1], now) == Arrivals(queue[..i], now) + [Arrival(queue[i], now)];
        i := i + 1;
      }
      assert queue[..i] == queue;
    }

    /** The counter updates of one pass of the read loop. */
    method CountPacket(packet: Packet)
      modifies `m_totalRx, `m_lost, `m_lastSeq
      ensures m_totalRx == Add64(old(m_totalRx), packet.size)
      ensures m_lost == Add64(old(m_lost), Gap(old(m_lastSeq), packet.seqNo))
      ensures m_lastSeq == packet.seqNo
    {
      m_totalRx := Add64(m_totalRx, packet.size);
      if packet.seqNo > Add64(m_lastSeq, 1) && m_lastSeq != 0 {
        m_lost := Add64(m_lost, Sub64(packet.seqNo, Add64(m_lastSeq, 1)));
      }
      m_lastSeq := packet.seqNo;
    }

    /** One pass of the read loop. */
    method Receive(packet: Packet, now: real)
      requires Valid()
      modifies this
      ensures Valid()
      ensures arrivals == old(arrivals) + [Arrival(packet, now)]
    {
      hide Add64, Gap, Lost, Bytes, MinDelay, MaxDelay, Last, Delays, SeqNos;
      ghost var before := arrivals;
      ReceiveOne(before, Arrival(packet, now));
      WrappedSum(Bytes(before), packet.size);
      WrappedSum(Lost(SeqNos(before)), Gap(m_lastSeq, packet.seqNo));
      CountPacket(packet);
      var delayMs := (now - packet.txTime) * 1000.0;
      m_delaysMs := m_delaysMs + [delayMs];
      if delayMs < m_minDelayMs { m_minDelayMs := delayMs; }
      if delayMs > m_maxDelayMs { m_maxDelayMs := delayMs; }
      arrivals := before + [Arrival(packet, now)];
    }

    function GetAvgDelayMs(): (avg: real)
      reads this
      requires Valid()
      ensures m_delaysMs != [] ==> m_minDelayMs <= avg <= m_maxDelayMs
      ensures avg * |m_delaysMs| as real == Sum(m_delaysMs)
      ensures m_delaysMs == [] ==> avg == 0.0
    {
      if m_delaysMs == [] then 0.0
      else
        DelayBounds(m_delaysMs);
        SumBounds(m_delaysMs, m_minDelayMs, m_maxDelayMs);
        QuotientBounds(m_minDelayMs, m_maxDelayMs, Sum(m_delaysMs), |m_delaysMs| as real);
        TimesBack(Sum(m_delaysMs), |m_delaysMs| as real);
        Sum(m_delaysMs) / |m_delaysMs| as real
    }

    /** What GetJitterMs takes the square root of. */
    function GetJitterRadicand(): (v: real)
      reads this
      ensures v >= 0.0 && (|m_delaysMs| < 2 ==> v == 0.0)
      ensures |m_delaysMs| >= 2 ==>
                v == Spread(m_delaysMs, Sum(m_delaysMs) / |m_delaysMs| as real) / |m_delaysMs| as real
    {
      if |m_delaysMs| < 2 then 0.0
      else
        RadicandIsVariance(m_delaysMs);
        Radicand(m_delaysMs)
    }
  }

  lemma {:induction false} ExtremesReached(ds: seq<real>)
    ensures MinDelay(ds) == NO_DELAY || MinDelay(ds) in ds
    ensures MaxDelay(ds) == 0.0 || MaxDelay(ds) in ds
    ensures MinDelay(ds) <= NO_DELAY && MaxDelay(ds) >= 0.0
  {
    if ds != [] {
      var n := |ds| - 1;
      ExtremesReached(ds[..n]);
      assert ds[n] in ds && forall d :: d in ds[..n] ==> d in ds;
    }
  }

  /** What a sink holds of the packets received: the delay of each in milliseconds, the least and the greatest of them
      (or the values it started with, if no delay passes those), and the last number. */
  lemma SinkReads(sink: PacketSinkWithStats)
    requires sink.Valid()
    ensures |sink.m_delaysMs| == |sink.arrivals|
    ensures forall i :: 0 <= i < |sink.arrivals| ==>
              && sink.m_delaysMs[i] == (sink.arrivals[i].rxTime - sink.arrivals[i].packet.txTime) * 1000.0
              && sink.m_minDelayMs <= sink.m_delaysMs[i] <= sink.m_maxDelayMs
    ensures sink.m_minDelayMs == 1000000000.0 || sink.m_minDelayMs in sink.m_delaysMs
    ensures sink.m_maxDelayMs == 0.0 || sink.m_maxDelayMs in sink.m_delaysMs
    ensures 0.0 <= sink.m_maxDelayMs && sink.m_minDelayMs <= 1000000000.0
    ensures sink.m_lastSeq == if sink.arrivals == [] then 0 else sink.arrivals[|sink.arrivals| - 1].packet.seqNo
  {
    ExtremesReached(sink.m_delaysMs);
    DelayBounds(sink.m_delaysMs);
    hide MinDelay, MaxDelay, Lost, Bytes;
  }

  // ---------- the sender ----------

  /** Sender state; pending is this client's share of the simulator's event queue. */
  datatype Sender = Sender(
    interval: real, packetSize: nat, maxPackets: u32,
    sent: u32, pending: multiset<real>, sendEvent: Option<real>, log: seq<Packet>)
  {
    function ScheduleTx(now: real): Sender
    {
      if sent < maxPackets
      then this.(pending := pending + multiset{now + interval}, sendEvent := Some(now + interval))
      else this
    }

    function StartApplication(now: real): Sender
    {
      this.(sent := 0).ScheduleTx(now)
    }

    /** The send event's handler; the simulator has already taken the event off the queue. */
    function SendPacket(now: real): Sender
    {
      this.(log := log + [Packet(sent + 1, now, packetSize)], sent := Inc32(sent)).ScheduleTx(now)
    }

    /** Cancelling an event that has already run is a no-op. */
    function StopApplication(): Sender
    {
      match sendEvent
      case None => this
      case Some(t) => this.(pending := pending - multiset{t})
    }
  }

  class UdpClientWithHeader {
    const m_interval: real
    const m_packetSize: nat
    const m_maxPackets: u32
    var m_sent: u32
    var m_sendEvent: Option<real>
    var pending: multiset<real>
    var log: seq<Packet>

    function Value(): Sender
      reads this
    {
      Sender(m_interval, m_packetSize, m_maxPackets, m_sent, pending, m_sendEvent, log)
    }

    constructor (interval: real, packetSize: nat, maxPackets: u32)
      ensures Value() == Sender(interval, packetSize, maxPackets, 0, multiset{}, None, [])
    {
      m_interval, m_packetSize, m_maxPackets := interval, packetSize, maxPackets;
      m_sent, m_sendEvent, pending, log := 0, None, multiset{}, [];
    }

    method ScheduleTx(now: real)
      modifies this
      ensures Value() == old(Value()).ScheduleTx(now)
    {
      if m_sent < m_maxPackets {
        pending := pending + multiset{now + m_interval};
        m_sendEvent := Some(now + m_interval);
      }
    }

    method StartApplication(now: real)
      modifies this
      ensures Value() == old(Value()).StartApplication(now)
    {
      m_sent := 0;
      ScheduleTx(now);
    }

    method SendPacket(now: real)
      modifies this
      ensures Value() == old(Value()).SendPacket(now)
    {
      log := log + [Packet(m_sent + 1, now, m_packetSize)];
      m_sent := Inc32(m_sent);
      ScheduleTx(now);
    }

    method StopApplication()
      modifies this
      ensures Value() == old(Value()).StopApplication()
    {
      if m_sendEvent.Some? {
        pending := pending - multiset{m_sendEvent.value};
      }
    }
  }

  // ---------- sender, channel and sink together ----------

  /** The channel keeps order but may drop any packet at any time. */
  datatype Net = Net(now: real, sender: Sender, channel: seq<Packet>, sink: seq<Arrival>)

  datatype Label =
    | FireSend(at: real)
    | Drop(at: real, index: nat)
    | Deliver(at: real)
    | Stop(at: real)

  /** No step may leave a due event behind. */
  ghost predicate Enabled(n: Net, l: Label)
  {
    && n.now <= l.at
    && (forall t :: t in n.sender.pending ==> l.at <= t)
    && match l {
         case FireSend(at) => at in n.sender.pending
         case Drop(_, i) => i < |n.channel|
         case Deliver(_) => n.channel != []
         case Stop(_) => true
       }
  }

  function Next(n: Net, l: Label): Net
    requires l.Drop? ==> l.index < |n.channel|
    requires l.Deliver? ==> n.channel != []
  {
    match l
    case FireSend(at) =>
      var s := n.sender.(pending := n.sender.pending - multiset{at}).SendPacket(at);
      Net(at, s, n.channel + s.log[|s.log| - 1..], n.sink)
    case Drop(at, i) => n.(now := at, channel := n.channel[..i] + n.channel[i + 1..])
    case Deliver(at) => n.(now := at, channel := n.channel[1..], sink := n.sink + [Arrival(n.channel[0], at)])
    case Stop(at) => n.(now := at, sender := n.sender.StopApplication())
  }

  function Started(start: real, interval: real, packetSize: nat, maxPackets: u32): Net
  {
    Net(start, Sender(interval, packetSize, maxPackets, 0, multiset{}, None, []).StartApplication(start), [], [])
  }

  /** A run: each label enabled where it happens. */
  ghost predicate IsRun(n: Net, labels: seq<Label>)
    decreases |labels|
  {
    labels == [] || (Enabled(n, labels[0]) && IsRun(Next(n, labels[0]), labels[1..]))
  }

  ghost function After(n: Net, labels: seq<Label>): Net
    requires IsRun(n, labels)
    decreases |labels|
  {
    if labels == [] then n else After(Next(n, labels[0]), labels[1..])
  }

  function DueTime(start: real, interval: real, k: nat): real { start + k as real * interval }

  /** Everything that went in and has not been lost, oldest first. */
  function Surviving(n: Net): seq<u64>
  {
    SeqNos(n.sink) + seq(|n.channel|, i requires 0 <= i < |n.channel| => n.channel[i].seqNo)
  }

  ghost predicate Inv(n: Net, start: real)
  {
    var s := n.sender;
    && |s.log| == s.sent <= s.maxPackets
    && (forall k :: 0 <= k < |s.log| ==>
          s.log[k] == Packet(k + 1, DueTime(start, s.interval, k + 1), s.packetSize))
    && (s.pending == multiset{}
        || (s.sent < s.maxPackets && s.pending == multiset{DueTime(start, s.interval, s.sent + 1)}
            && s.sendEvent == Some(DueTime(start, s.interval, s.sent + 1))))
    && Increasing(Surviving(n))
    && (forall i :: 0 <= i < |Surviving(n)| ==> 1 <= Surviving(n)[i] <= s.sent)
  }

  lemma NextDueTime(start: real, interval: real, k: nat)
    ensures DueTime(start, interval, k) + interval == DueTime(start, interval, k + 1)
  {
    assert (k + 1) as real * interval == k as real * interval + interval;
  }

  lemma InvInitially(start: real, interval: real, packetSize: nat, maxPackets: u32)
    ensures Inv(Started(start, interval, packetSize, maxPackets), start)
  {
    NextDueTime(start, interval, 0);
  }

  /** What a due send does to sender and channel. */
  lemma SendFacts(n: Net, at: real, start: real)
    requires Inv(n, start) && Enabled(n, FireSend(at))
    ensures var s, n' := n.sender, Next(n, FireSend(at));
            && at == DueTime(start, s.interval, s.sent + 1)
            && n'.sender.log == s.log + [Packet(s.sent + 1, at, s.packetSize)]
            && n'.sender.sent == s.sent + 1 <= s.maxPackets == n'.sender.maxPackets
            && n'.sender.interval == s.interval && n'.sender.packetSize == s.packetSize
            && (n'.sender.pending == multiset{}
                || (s.sent + 1 < s.maxPackets && n'.sender.pending == multiset{at + s.interval}
                    && n'.sender.sendEvent == Some(at + s.interval)))
            && Surviving(n') == Surviving(n) + [s.sent + 1]
  {
    hide DueTime, SeqNos, Increasing;
  }

  lemma InvFireSend(n: Net, at: real, start: real)
    requires Inv(n, start) && Enabled(n, FireSend(at))
    ensures Inv(Next(n, FireSend(at)), start)
  {
    SendFacts(n, at, start);
    NextDueTime(start, n.sender.interval, n.sender.sent + 1);
    hide Next, Enabled, Surviving, DueTime;
  }

  lemma InvStep(n: Net, l: Label, start: real)
    requires Inv(n, start) && Enabled(n, l)
    ensures Inv(Next(n, l), start)
  {
    match l {
      case FireSend(at) => InvFireSend(n, at, start);
      case Drop(at, i) => InvDrop(n, at, i, start);
      case Deliver(at) => InvDeliver(n, at, start);
      case Stop(at) => InvStop(n, at, start);
    }
    hide *;
  }

  lemma InvDrop(n: Net, at: real, i: nat, start: real)
    requires Inv(n, start) && i < |n.channel|
    ensures Inv(Next(n, Drop(at, i)), start)
  {
    var k := |n.sink| + i;
    var n' := Next(n, Drop(at, i));
    assert Surviving(n') == Surviving(n)[..k] + Surviving(n)[k + 1..];
    hide Surviving, DueTime;
  }

  lemma InvDeliver(n: Net, at: real, start: real)
    requires Inv(n, start) && n.channel != []
    ensures Inv(Next(n, Deliver(at)), start)
  {
    var n' := Next(n, Deliver(at));
    assert Surviving(n') == Surviving(n);
    hide Surviving, DueTime;
  }

  lemma InvStop(n: Net, at: real, start: real)
    requires Inv(n, start)
    ensures Inv(Next(n, Stop(at)), start)
  {
    var n' := Next(n, Stop(at));
    assert Surviving(n') == Surviving(n);
    hide Surviving, DueTime;
  }

  lemma {:induction false} InvAlways(n: Net, labels: seq<Label>, start: real)
    requires Inv(n, start) && IsRun(n, labels)
    ensures Inv(After(n, labels), start)
    ensures After(n, labels).sender.maxPackets == n.sender.maxPackets
    ensures After(n, labels).sender.interval == n.sender.interval
    decreases |labels|
  {
    if labels != [] {
      InvStep(n, labels[0], start);
      InvAlways(Next(n, labels[0]), labels[1..], start);
    }
  }

  /** Every run from a single start: the sent numbers are 1..sent, at most maxPackets, packet k leaves at
      start + k * interval, and at most one send event is pending. */
  lemma SenderIsPaced(start: real, interval: real, packetSize: nat, maxPackets: u32, labels: seq<Label>)
    requires IsRun(Started(start, interval, packetSize, maxPackets), labels)
    ensures var s := After(Started(start, interval, packetSize, maxPackets), labels).sender;
            && s.sent == |s.log| <= maxPackets
            && (forall k :: 0 <= k < |s.log| ==>
                  s.log[k] == Packet(k + 1, DueTime(start, interval, k + 1), s.packetSize))
            && |s.pending| <= 1
  {
    InvInitially(start, interval, packetSize, maxPackets);
    InvAlways(Started(start, interval, packetSize, maxPackets), labels, start);
  }

  /** The next send is pending exactly while packets are left and the client has not been stopped. */
  ghost predicate NextIsPending(n: Net, start: real, stopped: bool)
  {
    var s := n.sender;
    s.pending == if !stopped && s.sent < s.maxPackets then multiset{DueTime(start, s.interval, s.sent + 1)}
                 else multiset{}
  }

  ghost predicate Stops(labels: seq<Label>) { exists i :: 0 <= i < |labels| && labels[i].Stop? }

  lemma PendingSend(n: Net, at: real, start: real, stopped: bool)
    requires Inv(n, start) && Enabled(n, FireSend(at)) && NextIsPending(n, start, stopped)
    ensures NextIsPending(Next(n, FireSend(at)), start, stopped)
  {
    var s := n.sender;
    assert !stopped && s.pending == multiset{at};
    NextDueTime(start, s.interval, s.sent + 1);
    assert s.pending - multiset{at} == multiset{};
    hide DueTime, Surviving, Increasing;
  }

  lemma PendingStep(n: Net, l: Label, start: real, stopped: bool)
    requires Inv(n, start) && Enabled(n, l) && NextIsPending(n, start, stopped)
    ensures NextIsPending(Next(n, l), start, stopped || l.Stop?)
  {
    match l {
      case FireSend(at) => PendingSend(n, at, start, stopped);
      case Drop(_, _) => hide Inv, DueTime;
      case Deliver(_) => hide Inv, DueTime;
      case Stop(_) => hide Surviving, Increasing, DueTime;
    }
  }

  lemma StopsCons(labels: seq<Label>)
    requires labels != []
    ensures Stops(labels) <==> labels[0].Stop? || Stops(labels[1..])
  {
    var rest := labels[1..];
    assert forall i :: 0 <= i < |rest| ==> rest[i] == labels[i + 1];
    if i :| 0 <= i < |labels| && labels[i].Stop? {
      assert i > 0 ==> rest[i - 1].Stop?;
    }
  }

  lemma {:induction false} PendingAlways(n: Net, labels: seq<Label>, start: real, stopped: bool)
    requires Inv(n, start) && IsRun(n, labels) && NextIsPending(n, start, stopped)
    ensures NextIsPending(After(n, labels), start, stopped || Stops(labels))
    decreases |labels|
  {
    hide Inv, NextIsPending;
    if labels != [] {
      var l := labels[0];
      StopsCons(labels);
      InvStep(n, l, start);
      PendingStep(n, l, start, stopped);
      hide Stops;
      PendingAlways(Next(n, l), labels[1..], start, stopped || l.Stop?);
    }
  }

  /** In every run from a single start, the next packet is pending for its own time exactly if it is not beyond the
      maximum and the client has not been stopped. */
  lemma SenderKeepsSending(start: real, interval: real, packetSize: nat, maxPackets: u32, labels: seq<Label>)
    requires IsRun(Started(start, interval, packetSize, maxPackets), labels)
    ensures var s := After(Started(start, interval, packetSize, maxPackets), labels).sender;
            s.pending == if s.sent < maxPackets && !exists i :: 0 <= i < |labels| && labels[i].Stop?
                         then multiset{DueTime(start, interval, s.sent + 1)} else multiset{}
  {
    hide *;
    var n := Started(start, interval, packetSize, maxPackets);
    InvInitially(start, interval, packetSize, maxPackets);
    PendingInitially(start, interval, packetSize, maxPackets);
    InvAlways(n, labels, start);
    PendingAlways(n, labels, start, false);
    StartedWith(start, interval, packetSize, maxPackets);
    PendingIs(After(n, labels), start, Stops(labels));
    StopsIs(labels);
  }

  lemma StopsIs(labels: seq<Label>)
    ensures Stops(labels) <==> exists i :: 0 <= i < |labels| && labels[i].Stop?
  {
  }

  lemma StartedWith(start: real, interval: real, packetSize: nat, maxPackets: u32)
    ensures var s := Started(start, interval, packetSize, maxPackets).sender;
            s.interval == interval && s.maxPackets == maxPackets
  {
  }

  lemma PendingInitially(start: real, interval: real, packetSize: nat, maxPackets: u32)
    ensures NextIsPending(Started(start, interval, packetSize, maxPackets), start, false)
  {
    NextDueTime(start, interval, 0);
    assert DueTime(start, interval, 0) == start;
    hide DueTime;
    assert multiset{} + multiset{start + interval} == multiset{start + interval};
  }

  lemma PendingIs(n: Net, start: real, stopped: bool)
    requires NextIsPending(n, start, stopped)
    ensures var s := n.sender;
            s.pending == if s.sent < s.maxPackets && !stopped
                         then multiset{DueTime(start, s.interval, s.sent + 1)} else multiset{}
  {
  }

  /** Conservation over every run: numbers before the first arrival, packets received, packets counted
      lost and packets after the last arrival add up to the packets sent. */
  lemma PacketsConserved(start: real, interval: real, packetSize: nat, maxPackets: u32, labels: seq<Label>)
    requires IsRun(Started(start, interval, packetSize, maxPackets), labels)
    ensures var n := After(Started(start, interval, packetSize, maxPackets), labels);
            var got := SeqNos(n.sink);
            got != [] ==> (got[0] - 1) + |got| + Lost(got) + (n.sender.sent - Last(got)) == n.sender.sent
  {
    InvInitially(start, interval, packetSize, maxPackets);
    InvAlways(Started(start, interval, packetSize, maxPackets), labels, start);
    var n := After(Started(start, interval, packetSize, maxPackets), labels);
    var got := SeqNos(n.sink);
    if got != [] {
      forall i, j | 0 <= i < j < |got| ensures got[i] < got[j] {
        assert Surviving(n)[i] == got[i] && Surviving(n)[j] == got[j];
      }
      assert Surviving(n)[0] == got[0];
      LostExactWhenIncreasing(got);
    }
  }

  /** The same with what the sink object has counted: in such a run its 64-bit counters do not wrap. */
  lemma SinkConservesPackets(start: real, interval: real, packetSize: nat, maxPackets: u32, labels: seq<Label>,
                             sink: PacketSinkWithStats)
    requires IsRun(Started(start, interval, packetSize, maxPackets), labels)
    requires sink.Valid() && sink.arrivals == After(Started(start, interval, packetSize, maxPackets), labels).sink
    ensures var sent := After(Started(start, interval, packetSize, maxPackets), labels).sender.sent;
            sink.arrivals != [] ==>
              (sink.arrivals[0].packet.seqNo - 1) + |sink.arrivals| + sink.m_lost + (sent - sink.m_lastSeq) == sent
  {
    hide *;
    var n := After(Started(start, interval, packetSize, maxPackets), labels);
    PacketsConserved(start, interval, packetSize, maxPackets, labels);
    NumbersSent(start, interval, packetSize, maxPackets, labels);
    if sink.arrivals != [] {
      CountersFit(sink, n.sender.sent);
    }
  }

  lemma CountersFit(sink: PacketSinkWithStats, sent: u32)
    requires sink.Valid() && sink.arrivals != []
    requires var got := SeqNos(sink.arrivals); (got[0] - 1) + |got| + Lost(got) + (sent - Last(got)) == sent
    requires forall i :: 0 <= i < |sink.arrivals| ==> 1 <= SeqNos(sink.arrivals)[i] <= sent
    ensures (sink.arrivals[0].packet.seqNo - 1) + |sink.arrivals| + sink.m_lost + (sent - sink.m_lastSeq) == sent
  {
    var got := SeqNos(sink.arrivals);
    assert 1 <= got[0] && 1 <= Last(got) <= sent;
    hide Lost, Bytes, MinDelay, MaxDelay, Delays;
    assert Lost(got) < TWO64;
  }

  /** Only numbers that were sent arrive. */
  lemma NumbersSent(start: real, interval: real, packetSize: nat, maxPackets: u32, labels: seq<Label>)
    requires IsRun(Started(start, interval, packetSize, maxPackets), labels)
    ensures var n := After(Started(start, interval, packetSize, maxPackets), labels);
            forall i :: 0 <= i < |n.sink| ==> 1 <= SeqNos(n.sink)[i] <= n.sender.sent
  {
    InvInitially(start, interval, packetSize, maxPackets);
    InvAlways(Started(start, interval, packetSize, maxPackets), labels, start);
    var n := After(Started(start, interval, packetSize, maxPackets), labels);
    forall i | 0 <= i < |n.sink| ensures 1 <= SeqNos(n.sink)[i] <= n.sender.sent {
      assert Surviving(n)[i] == SeqNos(n.sink)[i];
    }
  }
}
