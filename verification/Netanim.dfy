/** The animation's index of node updates: grouped by node and time, sorted, read with an early stop. */
module Netanim {
  import opened Common

  type Node = string
  datatype Key = X | Y | Z | Color | Size | Desc
  datatype Value = Number(real) | Text(string)
  type Attributes = map<Key, Value>

  /** An update that the parser has accepted, in document order. */
  datatype Update = Update(node: Node, time: real, key: Key, value: Value)

  /** A node's updates at one time, merged. */
  datatype Entry = Entry(time: real, attrs: Attributes)

  // ---------- replaying the log ----------

  /** The value that a plain replay gives a key: that of the last update in time, and in document order within a
      time, not later than t. */
  function Latest(log: seq<Update>, n: Node, k: Key, t: real): Option<Update>
  {
    if log == [] then None
    else
      var best := Latest(log[..|log| - 1], n, k, t);
      var u := log[|log| - 1];
      if u.node == n && u.key == k && u.time <= t && (best.None? || best.value.time <= u.time) then Some(u) else best
  }

  /** Update i concerns key k of node n and is not later than t. */
  ghost predicate Applies(log: seq<Update>, i: int, n: Node, k: Key, t: real)
  {
    0 <= i < |log| && log[i].node == n && log[i].key == k && log[i].time <= t
  }

  /** Latest is what its name says. */
  lemma {:induction false} LatestIsLast(log: seq<Update>, n: Node, k: Key, t: real)
    ensures Latest(log, n, k, t).None? <==> forall i :: !Applies(log, i, n, k, t)
    ensures Latest(log, n, k, t).Some? ==>
              exists i :: Applies(log, i, n, k, t) && log[i] == Latest(log, n, k, t).value
                && forall j :: Applies(log, j, n, k, t) ==>
                     log[j].time < log[i].time || (log[j].time == log[i].time && j <= i)
  {
    if log != [] {
      var last := |log| - 1;
      var front := log[..last];
      LatestIsLast(front, n, k, t);
      forall i | 0 <= i < last ensures Applies(front, i, n, k, t) == Applies(log, i, n, k, t) && front[i] == log[i] {
      }
      var r := Latest(log, n, k, t);
      if r.Some? {
        if r == Latest(front, n, k, t) && !(Applies(log, last, n, k, t) && front != [] && r.value == log[last]) {
          var i :| Applies(front, i, n, k, t) && front[i] == r.value
                   && forall j :: Applies(front, j, n, k, t) ==>
                        front[j].time < front[i].time || (front[j].time == front[i].time && j <= i);
          assert Applies(log, i, n, k, t) && log[i] == r.value;
        } else {
          assert Applies(log, last, n, k, t) && log[last] == r.value;
        }
      } else {
        assert !Applies(log, last, n, k, t);
      }
    }
  }

  /** The attributes given to node n at exactly time t, later ones winning. */
  function Merged(log: seq<Update>, n: Node, t: real): Attributes
  {
    if log == [] then map[]
    else
      var u := log[|log| - 1];
      var m := Merged(log[..|log| - 1], n, t);
      if u.node == n && u.time == t then m[u.key := u.value] else m
  }

  ghost predicate HasUpdate(log: seq<Update>, n: Node, t: real)
  {
    exists i :: 0 <= i < |log| && log[i].node == n && log[i].time == t
  }

  lemma HasUpdateSnoc(log: seq<Update>, u: Update, n: Node, t: real)
    ensures HasUpdate(log + [u], n, t) <==> HasUpdate(log, n, t) || (u.node == n && u.time == t)
  {
    var after := log + [u];
    if i :| 0 <= i < |log| && log[i].node == n && log[i].time == t {
      assert after[i] == log[i];
    }
    assert after[|log|] == u;
  }

  /** Between two times without updates of the node nothing changes. */
  lemma {:induction false} NothingBetween(log: seq<Update>, n: Node, k: Key, s: real, t: real)
    requires s <= t && forall i :: 0 <= i < |log| && log[i].node == n ==> log[i].time <= s || t < log[i].time
    ensures Latest(log, n, k, t) == Latest(log, n, k, s)
  {
    if log != [] {
      assert forall i :: 0 <= i < |log| - 1 ==> log[..|log| - 1][i] == log[i];
      NothingBetween(log[..|log| - 1], n, k, s, t);
    }
  }

  lemma {:induction false} LatestBound(log: seq<Update>, n: Node, k: Key, t: real)
    ensures var r := Latest(log, n, k, t); r.Some? ==> r.value.time <= t && r.value.node == n && r.value.key == k
  {
    if log != [] {
      LatestBound(log[..|log| - 1], n, k, t);
    }
  }

  /** One more update in the log. */
  lemma LogStep(log: seq<Update>, n: Node, k: Key, t: real)
    requires log != []
    ensures var u, front := log[|log| - 1], log[..|log| - 1];
            var best := Latest(front, n, k, t);
            && Merged(log, n, t) == (if u.node == n && u.time == t then Merged(front, n, t)[u.key := u.value]
                                     else Merged(front, n, t))
            && Latest(log, n, k, t) == if u.node == n && u.key == k && u.time <= t
                                          && (best.None? || best.value.time <= u.time) then Some(u) else best
  {
  }

  /** Moving on to the next time that has updates: what is merged there wins, the rest stays. */
  lemma {:induction false} NextTime(log: seq<Update>, n: Node, k: Key, s: real, t: real)
    requires s < t && forall i :: 0 <= i < |log| && log[i].node == n ==> log[i].time <= s || t <= log[i].time
    ensures k in Merged(log, n, t) ==>
              var r := Latest(log, n, k, t); r.Some? && r.value.time == t && r.value.value == Merged(log, n, t)[k]
    ensures k !in Merged(log, n, t) ==> Latest(log, n, k, t) == Latest(log, n, k, s)
  {
    if log != [] {
      var front := log[..|log| - 1];
      assert forall i :: 0 <= i < |front| ==> front[i] == log[i];
      LogStep(log, n, k, s);
      LogStep(log, n, k, t);
      hide Latest, Merged;
      NextTime(front, n, k, s, t);
      LatestBound(front, n, k, s);
      LatestBound(front, n, k, t);
    }
  }

  /** At the first time of a node there is nothing before. */
  lemma {:induction false} FirstTime(log: seq<Update>, n: Node, k: Key, t: real)
    requires forall i :: 0 <= i < |log| && log[i].node == n ==> t <= log[i].time
    ensures k in Merged(log, n, t) ==>
              var r := Latest(log, n, k, t); r.Some? && r.value.time == t && r.value.value == Merged(log, n, t)[k]
    ensures k !in Merged(log, n, t) ==> Latest(log, n, k, t).None?
  {
    if log != [] {
      var front := log[..|log| - 1];
      assert forall i :: 0 <= i < |front| ==> front[i] == log[i];
      FirstTime(front, n, k, t);
      LatestBound(front, n, k, t);
    }
  }

  lemma {:induction false} BeforeFirst(log: seq<Update>, n: Node, k: Key, t: real)
    requires forall i :: 0 <= i < |log| && log[i].node == n ==> t < log[i].time
    ensures Latest(log, n, k, t).None?
  {
    if log != [] {
      assert forall i :: 0 <= i < |log| - 1 ==> log[..|log| - 1][i] == log[i];
      BeforeFirst(log[..|log| - 1], n, k, t);
    }
  }

  // ---------- the index ----------

  ghost predicate Increasing(es: seq<Entry>)
  {
    forall i, j :: 0 <= i < j < |es| ==> es[i].time < es[j].time
  }

  /** The entries of one node: each of its times once, with what is merged there. */
  ghost predicate Covers(es: seq<Entry>, log: seq<Update>, n: Node)
  {
    && (forall i :: 0 <= i < |es| ==> HasUpdate(log, n, es[i].time) && es[i].attrs == Merged(log, n, es[i].time))
    && (forall t: real :: HasUpdate(log, n, t) ==> HasEntry(es, t))
  }

  ghost predicate HasEntry(es: seq<Entry>, t: real)
  {
    exists i :: 0 <= i < |es| && es[i].time == t
  }

  ghost predicate IsIndex(updates: map<Node, seq<Entry>>, log: seq<Update>)
  {
    && (forall n :: n in updates ==> Increasing(updates[n]) && Covers(updates[n], log, n))
    && (forall n, t: real :: HasUpdate(log, n, t) ==> n in updates)
  }

  // ---------- reading the index ----------

  function Defaulted(state: Attributes, k: Key, v: Value): Attributes
  {
    if k in state then state else state[k := v]
  }

  /** The value that a node has for a key if nothing says otherwise. */
  function Default(n: Node, k: Key): Value
  {
    match k
    case X => Number(0.0)
    case Y => Number(0.0)
    case Z => Number(0.0)
    case Color => Text("#888888")
    case Size => Number(20.0)
    case Desc => Text("Node " + n)
  }

  function InitialState(init: map<Node, Attributes>, n: Node): Attributes
  {
    if n in init then init[n] else map[]
  }

  /** The state of a node at a time according to a replay of the raw log. */
  function Expected(init: map<Node, Attributes>, log: seq<Update>, n: Node, k: Key, t: real): Value
  {
    if Latest(log, n, k, t).Some? then Latest(log, n, k, t).value.value
    else if k in InitialState(init, n) then InitialState(init, n)[k]
    else Default(n, k)
  }

  /** Update i is the last of those that apply, in time and then in document order. */
  ghost predicate IsLast(log: seq<Update>, i: int, n: Node, k: Key, t: real)
  {
    && Applies(log, i, n, k, t)
    && forall j :: Applies(log, j, n, k, t) ==> log[j].time < log[i].time || (log[j].time == log[i].time && j <= i)
  }

  ghost predicate NoUpdate(log: seq<Update>, n: Node, k: Key, t: real)
  {
    forall i :: !Applies(log, i, n, k, t)
  }

  ghost predicate GivenAtStart(init: map<Node, Attributes>, n: Node, k: Key) { n in init && k in init[n] }

  /** The expected value in full: the value of the last update that applies; without one, the value given at the start;
      without that either, the origin, grey, 20 and a description by number. */
  lemma ExpectedIs(init: map<Node, Attributes>, log: seq<Update>, n: Node, k: Key, t: real)
    ensures forall i :: IsLast(log, i, n, k, t) ==> Expected(init, log, n, k, t) == log[i].value
    ensures NoUpdate(log, n, k, t) && GivenAtStart(init, n, k) ==> Expected(init, log, n, k, t) == init[n][k]
    ensures NoUpdate(log, n, k, t) && !GivenAtStart(init, n, k) ==>
              Expected(init, log, n, k, t) == match k
                                              case X => Number(0.0)
                                              case Y => Number(0.0)
                                              case Z => Number(0.0)
                                              case Color => Text("#888888")
                                              case Size => Number(20.0)
                                              case Desc => Text("Node " + n)
  {
    LatestIsLast(log, n, k, t);
    hide Latest;
    forall i | IsLast(log, i, n, k, t) ensures Expected(init, log, n, k, t) == log[i].value {
      assert Latest(log, n, k, t).Some?;
      var m :| Applies(log, m, n, k, t) && log[m] == Latest(log, n, k, t).value
               && forall j :: Applies(log, j, n, k, t) ==>
                    log[j].time < log[m].time || (log[j].time == log[m].time && j <= m);
      assert m == i;
    }
  }

  ghost predicate Matches(state: Attributes, start: Attributes, log: seq<Update>, n: Node, t: real)
  {
    forall k ::
      && (k in state <==> k in start || Latest(log, n, k, t).Some?)
      && (k in state ==> state[k] == if Latest(log, n, k, t).Some? then Latest(log, n, k, t).value.value else start[k])
  }

  /** Reading one more entry. */
  lemma ReadEntry(es: seq<Entry>, log: seq<Update>, n: Node, i: nat, state: Attributes, start: Attributes)
    requires Increasing(es) && Covers(es, log, n) && i < |es|
    requires if i == 0 then state == start else Matches(state, start, log, n, es[i - 1].time)
    ensures Matches(state + es[i].attrs, start, log, n, es[i].time)
  {
    var t := es[i].time;
    forall j | 0 <= j < |log| && log[j].node == n
      ensures (i > 0 && log[j].time <= es[i - 1].time) || t <= log[j].time
    {
      assert HasUpdate(log, n, log[j].time) && HasEntry(es, log[j].time);
      var e :| 0 <= e < |es| && es[e].time == log[j].time;
      assert e < i ==> e <= i - 1;
    }
    hide Latest, Merged, Covers, HasUpdate;
    assert es[i].attrs == Merged(log, n, t) by { CoversAt(es, log, n, i); }
    forall k
      ensures k in Merged(log, n, t) ==>
                Latest(log, n, k, t).Some? && Latest(log, n, k, t).value.value == Merged(log, n, t)[k]
      ensures k !in Merged(log, n, t) ==>
                Latest(log, n, k, t) == if i == 0 then None else Latest(log, n, k, es[i - 1].time)
    {
      if i == 0 {
        FirstTime(log, n, k, t);
      } else {
        NextTime(log, n, k, es[i - 1].time, t);
      }
    }
  }

  lemma CoversAt(es: seq<Entry>, log: seq<Update>, n: Node, i: nat)
    requires Covers(es, log, n) && i < |es|
    ensures es[i].attrs == Merged(log, n, es[i].time)
  {
  }

  /** After the last entry that counts, the state is the one at the time asked for. */
  lemma ReadingStops(es: seq<Entry>, log: seq<Update>, n: Node, i: nat, t: real, state: Attributes, start: Attributes)
    requires Increasing(es) && Covers(es, log, n) && i <= |es|
    requires (i > 0 ==> es[i - 1].time <= t) && (i < |es| ==> t < es[i].time)
    requires if i == 0 then state == start else Matches(state, start, log, n, es[i - 1].time)
    ensures Matches(state, start, log, n, t)
  {
    forall j | 0 <= j < |log| && log[j].node == n
      ensures (i > 0 && log[j].time <= es[i - 1].time) || t < log[j].time
    {
      assert HasUpdate(log, n, log[j].time) && HasEntry(es, log[j].time);
      var e :| 0 <= e < |es| && es[e].time == log[j].time;
      assert e < i ==> e <= i - 1;
    }
    hide Latest, Covers, HasUpdate;
    forall k
      ensures Latest(log, n, k, t) == if i == 0 then None else Latest(log, n, k, es[i - 1].time)
    {
      if i == 0 {
        BeforeFirst(log, n, k, t);
      } else {
        NothingBetween(log, n, k, es[i - 1].time, t);
      }
    }
  }

  /** The state of a node at a time, read from the index, is the state that a replay of the raw log gives. */
  method GetNodeState(n: Node, time: real, init: map<Node, Attributes>, updates: map<Node, seq<Entry>>,
                      ghost log: seq<Update>)
    returns (state: Attributes)
    requires IsIndex(updates, log)
    ensures forall k :: k in state && state[k] == Expected(init, log, n, k, time)
    ensures forall k, i :: IsLast(log, i, n, k, time) ==> state[k] == log[i].value
    ensures forall k :: NoUpdate(log, n, k, time) && n in init && k in init[n] ==> state[k] == init[n][k]
    ensures forall k :: NoUpdate(log, n, k, time) && !(n in init && k in init[n]) ==>
              state[k] == match k
                          case X => Number(0.0)
                          case Y => Number(0.0)
                          case Z => Number(0.0)
                          case Color => Text("#888888")
                          case Size => Number(20.0)
                          case Desc => Text("Node " + n)
  {
    hide Latest, Default, Defaulted, Covers, Increasing, Matches, HasUpdate, IsLast, NoUpdate, Expected;
    state := InitialState(init, n);
    ghost var start := state;
    if n in updates {
      var es := updates[n];
      var i := 0;
      while i < |es| && es[i].time <= time
        invariant 0 <= i <= |es|
        invariant i > 0 ==> es[i - 1].time <= time
        invariant if i == 0 then state == start else Matches(state, start, log, n, es[i - 1].time)
      {
        ReadEntry(es, log, n, i, state, start);
        state := state + es[i].attrs;
        i := i + 1;
      }
      ReadingStops(es, log, n, i, time, state, start);
    } else {
      NeverUpdated(log, n, time, start);
    }
    ghost var read := state;
    state := Defaulted(state, X, Default(n, X));
    state := Defaulted(state, Y, Default(n, Y));
    state := Defaulted(state, Z, Default(n, Z));
    state := Defaulted(state, Color, Default(n, Color));
    state := Defaulted(state, Size, Default(n, Size));
    state := Defaulted(state, Desc, Default(n, Desc));
    AllDefaulted(read, n);
    ExpectedState(init, log, n, time, read, state);
    forall k { ExpectedIs(init, log, n, k, time); }
  }

  /** After the six defaults every key has a value. */
  lemma AllDefaulted(read: Attributes, n: Node)
    ensures var s1 := Defaulted(Defaulted(read, X, Default(n, X)), Y, Default(n, Y));
            var s2 := Defaulted(Defaulted(s1, Z, Default(n, Z)), Color, Default(n, Color));
            var state := Defaulted(Defaulted(s2, Size, Default(n, Size)), Desc, Default(n, Desc));
            forall k :: k in state && state[k] == if k in read then read[k] else Default(n, k)
  {
    hide Default;
    var s1 := Defaulted(Defaulted(read, X, Default(n, X)), Y, Default(n, Y));
    var s2 := Defaulted(Defaulted(s1, Z, Default(n, Z)), Color, Default(n, Color));
    var state := Defaulted(Defaulted(s2, Size, Default(n, Size)), Desc, Default(n, Desc));
    forall k ensures k in state && state[k] == if k in read then read[k] else Default(n, k) {
      match k { case X => case Y => case Z => case Color => case Size => case Desc => }
    }
  }

  lemma NeverUpdated(log: seq<Update>, n: Node, t: real, start: Attributes)
    requires forall t: real :: !HasUpdate(log, n, t)
    ensures Matches(start, start, log, n, t)
  {
    forall i | 0 <= i < |log| ensures log[i].node != n {
      assert !HasUpdate(log, n, log[i].time);
    }
    forall k ensures Latest(log, n, k, t).None? {
      BeforeFirst(log, n, k, t);
    }
  }

  lemma ExpectedState(init: map<Node, Attributes>, log: seq<Update>, n: Node, t: real,
                      read: Attributes, state: Attributes)
    requires Matches(read, InitialState(init, n), log, n, t)
    requires forall k :: k in state && state[k] == if k in read then read[k] else Default(n, k)
    ensures forall k :: k in state && state[k] == Expected(init, log, n, k, t)
  {
    hide Latest, Default;
  }

  // ---------- building the index ----------

  datatype Slot = Slot(node: Node, time: real)

  /** The changes of one slot, in document order. */
  function Changes(log: seq<Update>, slot: Slot): seq<Update>
  {
    if log == [] then []
    else
      var u := log[|log| - 1];
      var front := Changes(log[..|log| - 1], slot);
      if u.node == slot.node && u.time == slot.time then front + [u] else front
  }

  /** What merging a list of changes gives. */
  function Merge(changes: seq<Update>): Attributes
  {
    if changes == [] then map[]
    else
      var u := changes[|changes| - 1];
      Merge(changes[..|changes| - 1])[u.key := u.value]
  }

  lemma ChangesSnoc(log: seq<Update>, u: Update, s: Slot)
    ensures Changes(log + [u], s) == Changes(log, s) + if s == Slot(u.node, u.time) then [u] else []
    ensures Merged(log + [u], s.node, s.time) ==
              if s == Slot(u.node, u.time) then Merged(log, s.node, s.time)[u.key := u.value]
              else Merged(log, s.node, s.time)
    ensures HasUpdate(log + [u], s.node, s.time) <==> HasUpdate(log, s.node, s.time) || s == Slot(u.node, u.time)
  {
    assert (log + [u])[..|log|] == log;
    HasUpdateSnoc(log, u, s.node, s.time);
    assert Changes(log, s) + [] == Changes(log, s);
  }

  lemma MergeSnoc(changes: seq<Update>, u: Update)
    ensures Merge(changes + [u]) == Merge(changes)[u.key := u.value]
  {
    assert (changes + [u])[..|changes|] == changes;
  }

  lemma {:induction false} MergeOfChanges(log: seq<Update>, slot: Slot)
    ensures Merge(Changes(log, slot)) == Merged(log, slot.node, slot.time)
    ensures Changes(log, slot) != [] <==> HasUpdate(log, slot.node, slot.time)
  {
    if log != [] {
      var front, u := log[..|log| - 1], log[|log| - 1];
      MergeOfChanges(front, slot);
      assert log == front + [u];
      ChangesSnoc(front, u, slot);
      MergeSnoc(Changes(front, slot), u);
      hide Changes, Merge, Merged, HasUpdate;
      assert slot != Slot(u.node, u.time) ==> Changes(log, slot) == Changes(front, slot);
    }
  }

  /** The dictionary of raw updates: each slot that occurs, with its changes; the slots listed in order of first
      occurrence. */
  ghost predicate IsRaw(slots: seq<Slot>, raw: map<Slot, seq<Update>>, log: seq<Update>)
  {
    && (forall i, j :: 0 <= i < j < |slots| ==> slots[i] != slots[j])
    && (forall s :: s in slots <==> s in raw)
    && (forall s :: s in raw <==> HasUpdate(log, s.node, s.time))
    && (forall s :: s in raw ==> raw[s] == Changes(log, s))
  }

  lemma EmptyLog()
    ensures IsRaw([], map[], [])
  {
  }

  method GroupUpdates(log: seq<Update>) returns (slots: seq<Slot>, raw: map<Slot, seq<Update>>)
    ensures IsRaw(slots, raw, log)
  {
    hide HasUpdate, Changes, IsRaw;
    slots, raw := [], map[];
    EmptyLog();
    assert log[..0] == [];
    var i := 0;
    while i < |log|
      invariant 0 <= i <= |log|
      invariant IsRaw(slots, raw, log[..i])
    {
      var u := log[i];
      var slot := Slot(u.node, u.time);
      RawStep(slots, raw, log[..i], u);
      assert log[..i + 1] == log[..i] + [u];
      ghost var was, before := raw, if slot in raw then raw[slot] else [];
      if slot !in raw {
        slots := slots + [slot];
        raw := raw[slot := []];
      }
      raw := raw[slot := raw[slot] + [u]];
      assert raw == was[slot := before + [u]];
      i := i + 1;
    }
    assert log[..i] == log;
  }

  lemma RawStep(slots: seq<Slot>, raw: map<Slot, seq<Update>>, log: seq<Update>, u: Update)
    requires IsRaw(slots, raw, log)
    ensures var slot := Slot(u.node, u.time);
            var before := if slot in raw then raw[slot] else [];
            IsRaw(if slot in raw then slots else slots + [slot], raw[slot := before + [u]], log + [u])
  {
    hide Changes, HasUpdate, Merged, Merge;
    var slot := Slot(u.node, u.time);
    var before := if slot in raw then raw[slot] else [];
    var slots', raw' := if slot in raw then slots else slots + [slot], raw[slot := before + [u]];
    MergeOfChanges(log, slot);
    assert before == Changes(log, slot);
    forall s
      ensures s in raw' <==> HasUpdate(log + [u], s.node, s.time)
      ensures s in raw' ==> raw'[s] == Changes(log + [u], s)
    {
      ChangesSnoc(log, u, s);
    }
    forall s ensures s in slots' <==> s in raw' {
      assert s in slots <==> s in raw;
    }
  }

  /** The entries of one node among the first slots. */
  function EntriesOf(slots: seq<Slot>, log: seq<Update>, n: Node): seq<Entry>
  {
    if slots == [] then []
    else
      var s := slots[|slots| - 1];
      var front := EntriesOf(slots[..|slots| - 1], log, n);
      if s.node == n then front + [Entry(s.time, Merged(log, n, s.time))] else front
  }

  /** Inserts an entry behind those that are not later, as a stable sort does. */
  function Insert(es: seq<Entry>, e: Entry): seq<Entry>
  {
    if es == [] || es[|es| - 1].time <= e.time then es + [e] else Insert(es[..|es| - 1], e) + [es[|es| - 1]]
  }

  function Sorted(es: seq<Entry>): seq<Entry>
  {
    if es == [] then [] else Insert(Sorted(es[..|es| - 1]), es[|es| - 1])
  }

  ghost predicate NonDecreasing(es: seq<Entry>)
  {
    forall i, j :: 0 <= i < j < |es| ==> es[i].time <= es[j].time
  }

  lemma {:induction false} InsertKeeps(es: seq<Entry>, e: Entry)
    ensures multiset(Insert(es, e)) == multiset(es) + multiset{e}
  {
    if es != [] {
      InsertKeeps(es[..|es| - 1], e);
      assert es == es[..|es| - 1] + [es[|es| - 1]];
    }
  }

  lemma AppendSorts(es: seq<Entry>, e: Entry)
    requires NonDecreasing(es) && forall x :: x in es ==> x.time <= e.time
    ensures NonDecreasing(es + [e])
  {
    forall i | 0 <= i < |es| ensures es[i].time <= e.time { assert es[i] in es; }
  }

  lemma LastIsLatest(es: seq<Entry>)
    requires es != [] && NonDecreasing(es)
    ensures NonDecreasing(es[..|es| - 1]) && forall x :: x in es ==> x.time <= es[|es| - 1].time
  {
  }

  lemma {:induction false} InsertSorts(es: seq<Entry>, e: Entry)
    requires NonDecreasing(es)
    ensures NonDecreasing(Insert(es, e))
  {
    if es == [] {
      assert Insert(es, e) == [e];
    } else {
      var front, last := es[..|es| - 1], es[|es| - 1];
      assert Insert(es, e) == if last.time <= e.time then es + [e] else Insert(front, e) + [last];
      hide *;
      LastIsLatest(es);
      if last.time <= e.time {
        AppendSorts(es, e);
      } else {
        InsertSorts(front, e);
        InsertKeeps(front, e);
        forall x | x in Insert(front, e) ensures x.time <= last.time {
          assert x in multiset(Insert(front, e)) && (x == e || x in front);
          assert x in front ==> x in es;
        }
        AppendSorts(Insert(front, e), last);
      }
    }
  }

  lemma {:induction false} SortedSorts(es: seq<Entry>)
    ensures NonDecreasing(Sorted(es)) && multiset(Sorted(es)) == multiset(es)
  {
    if es != [] {
      var front, last := es[..|es| - 1], es[|es| - 1];
      assert es == front + [last] && Sorted(es) == Insert(Sorted(front), last);
      hide Insert, Sorted, NonDecreasing;
      SortedSorts(front);
      InsertSorts(Sorted(front), last);
      InsertKeeps(Sorted(front), last);
    }
  }

  /** The entries are those of the slots of node n, one for each. */
  ghost predicate Lists(es: seq<Entry>, slots: seq<Slot>, log: seq<Update>, n: Node)
  {
    && (forall i :: 0 <= i < |es| ==> Slot(n, es[i].time) in slots && es[i].attrs == Merged(log, n, es[i].time))
    && (forall t: real :: Slot(n, t) in slots ==> HasEntry(es, t))
    && DistinctTimes(es)
  }

  lemma ListsOther(es: seq<Entry>, front: seq<Slot>, s: Slot, log: seq<Update>, n: Node)
    requires Lists(es, front, log, n) && s.node != n
    ensures Lists(es, front + [s], log, n)
  {
    hide Merged, HasEntry, DistinctTimes;
    forall x | x in front ensures x in front + [s] {
      var i :| 0 <= i < |front| && front[i] == x;
      assert (front + [s])[i] == x;
    }
  }

  lemma HasMore(es: seq<Entry>, e: Entry)
    ensures HasEntry(es + [e], e.time) && forall t: real :: HasEntry(es, t) ==> HasEntry(es + [e], t)
  {
    assert (es + [e])[|es|] == e;
    forall t: real | HasEntry(es, t) ensures HasEntry(es + [e], t) {
      var i :| 0 <= i < |es| && es[i].time == t;
      assert (es + [e])[i].time == t;
    }
  }

  lemma ListsOwn(es: seq<Entry>, front: seq<Slot>, s: Slot, log: seq<Update>, n: Node)
    requires Lists(es, front, log, n) && s.node == n && s !in front
    ensures Lists(es + [Entry(s.time, Merged(log, n, s.time))], front + [s], log, n)
  {
    hide Merged, HasEntry;
    HasMore(es, Entry(s.time, Merged(log, n, s.time)));
    forall x | x in front ensures x in front + [s] {
      var i :| 0 <= i < |front| && front[i] == x;
      assert (front + [s])[i] == x;
    }
    assert (front + [s])[|front|] == s == Slot(n, s.time);
    forall i | 0 <= i < |es| ensures es[i].time != s.time {
      assert Slot(n, es[i].time) in front;
    }
  }

  lemma {:induction false} EntriesFacts(slots: seq<Slot>, log: seq<Update>, n: Node)
    requires forall i, j :: 0 <= i < j < |slots| ==> slots[i] != slots[j]
    ensures Lists(EntriesOf(slots, log, n), slots, log, n)
  {
    hide Merged, Lists;
    if slots != [] {
      var front, s := slots[..|slots| - 1], slots[|slots| - 1];
      EntriesFacts(front, log, n);
      assert slots == front + [s];
      if s.node == n {
        ListsOwn(EntriesOf(front, log, n), front, s, log, n);
      } else {
        ListsOther(EntriesOf(front, log, n), front, s, log, n);
      }
    } else {
      NothingListed(log, n);
    }
  }

  lemma NothingListed(log: seq<Update>, n: Node)
    ensures Lists([], [], log, n)
  {
  }

  ghost predicate DistinctTimes(es: seq<Entry>)
  {
    forall i, j :: 0 <= i < j < |es| ==> es[i].time != es[j].time
  }

  lemma SameMembers(es: seq<Entry>, r: seq<Entry>)
    requires multiset(r) == multiset(es)
    ensures (forall i :: 0 <= i < |r| ==> r[i] in es) && forall i :: 0 <= i < |es| ==> es[i] in r
  {
    forall i | 0 <= i < |r| ensures r[i] in es { assert r[i] in multiset(r); }
    forall i | 0 <= i < |es| ensures es[i] in r { assert es[i] in multiset(es); }
  }

  /** The same entries cover the same updates in any order. */
  lemma CoversPermuted(es: seq<Entry>, r: seq<Entry>, log: seq<Update>, n: Node)
    requires multiset(r) == multiset(es) && Covers(es, log, n)
    ensures Covers(r, log, n)
  {
    SameMembers(es, r);
    hide Merged, HasUpdate;
    forall t: real | HasEntry(es, t) ensures HasEntry(r, t) {
      var i :| 0 <= i < |es| && es[i].time == t;
      var j :| 0 <= j < |r| && r[j] == es[i];
    }
    forall t: real | HasEntry(r, t) ensures HasEntry(es, t) {
      var i :| 0 <= i < |r| && r[i].time == t;
      var j :| 0 <= j < |es| && es[j] == r[i];
    }
  }

  /** Sorting entries of distinct times puts them in strictly increasing order and keeps what they cover. */
  lemma SortedIsIndex(es: seq<Entry>, log: seq<Update>, n: Node)
    requires DistinctTimes(es) && Covers(es, log, n)
    ensures Increasing(Sorted(es)) && Covers(Sorted(es), log, n)
  {
    SortedSorts(es);
    var r := Sorted(es);
    hide Sorted, Covers;
    CoversPermuted(es, r, log, n);
    forall i, j | 0 <= i < j < |r| ensures r[i].time < r[j].time {
      if r[i].time == r[j].time {
        SameTimeTwice(es, r, i, j);
      }
    }
  }

  /** Two entries of one time in a permutation of entries of distinct times are a contradiction. */
  lemma SameTimeTwice(es: seq<Entry>, r: seq<Entry>, i: nat, j: nat)
    requires DistinctTimes(es) && multiset(r) == multiset(es) && i < j < |r|
    ensures r[i].time != r[j].time
  {
    var x, y := r[i], r[j];
    assert x in multiset(r) && y in multiset(r);
    var a :| 0 <= a < |es| && es[a] == x;
    var b :| 0 <= b < |es| && es[b] == y;
    if a == b {
      CountTwo(r, i, j);
      CountOne(es, a);
      assert false;
    }
  }

  lemma CountTwo(r: seq<Entry>, i: nat, j: nat)
    requires i < j < |r| && r[i] == r[j]
    ensures multiset(r)[r[i]] >= 2
  {
    assert r == r[..j] + r[j..];
    assert r[..j][i] == r[i] && r[j..][0] == r[i];
    assert r[i] in multiset(r[..j]) && r[i] in multiset(r[j..]);
  }

  lemma CountOne(es: seq<Entry>, a: nat)
    requires DistinctTimes(es) && a < |es|
    ensures multiset(es)[es[a]] == 1
  {
    var x := es[a];
    assert es == es[..a] + [x] + es[a + 1..];
    assert x !in multiset(es[..a]) && x !in multiset(es[a + 1..]);
  }

  /** Builds the index from the accepted updates. */
  method ParseNodeUpdates(log: seq<Update>) returns (updates: map<Node, seq<Entry>>)
    ensures IsIndex(updates, log)
  {
    hide HasUpdate, Changes, Merged, Merge, Sorted;
    var slots, raw := GroupUpdates(log);
    updates := map[];
    var i := 0;
    while i < |slots|
      invariant 0 <= i <= |slots|
      invariant forall n :: n in updates <==> EntriesOf(slots[..i], log, n) != []
      invariant forall n :: n in updates ==> updates[n] == EntriesOf(slots[..i], log, n)
    {
      var s := slots[i];
      var state := MergeChanges(raw[s]);
      MergeOfChanges(log, s);
      EntriesSnoc(slots, log, i);
      hide EntriesOf;
      if s.node !in updates {
        updates := updates[s.node := []];
      }
      updates := updates[s.node := updates[s.node] + [Entry(s.time, state)]];
      i := i + 1;
    }
    assert slots[..i] == slots;
    forall n | n in updates ensures DistinctTimes(updates[n]) && Covers(updates[n], log, n) {
      EntriesCover(slots, raw, log, n);
    }
    forall n, t: real | HasUpdate(log, n, t) ensures n in updates {
      EntriesCover(slots, raw, log, n);
    }
    hide Covers, DistinctTimes, EntriesOf;
    updates := SortAll(updates, log);
  }

  /** Merges the changes of one slot into a state. */
  method MergeChanges(changes: seq<Update>) returns (state: Attributes)
    ensures state == Merge(changes)
  {
    state := map[];
    var i := 0;
    while i < |changes|
      invariant 0 <= i <= |changes| && state == Merge(changes[..i])
    {
      MergeSnoc(changes[..i], changes[i]);
      assert changes[..i + 1] == changes[..i] + [changes[i]];
      state := state[changes[i].key := changes[i].value];
      i := i + 1;
    }
    assert changes[..i] == changes;
  }

  lemma EntriesSnoc(slots: seq<Slot>, log: seq<Update>, i: nat)
    requires i < |slots|
    ensures forall n :: EntriesOf(slots[..i + 1], log, n)
              == EntriesOf(slots[..i], log, n)
                 + if slots[i].node == n then [Entry(slots[i].time, Merged(log, n, slots[i].time))] else []
  {
    assert slots[..i + 1][..i] == slots[..i];
    forall n: Node ensures EntriesOf(slots[..i], log, n) + [] == EntriesOf(slots[..i], log, n) {
    }
  }

  lemma EntriesCover(slots: seq<Slot>, raw: map<Slot, seq<Update>>, log: seq<Update>, n: Node)
    requires IsRaw(slots, raw, log)
    ensures DistinctTimes(EntriesOf(slots, log, n)) && Covers(EntriesOf(slots, log, n), log, n)
    ensures forall t: real :: HasUpdate(log, n, t) ==> EntriesOf(slots, log, n) != []
  {
    hide HasUpdate, Merged, Changes, DistinctTimes;
    EntriesFacts(slots, log, n);
    var es := EntriesOf(slots, log, n);
    hide EntriesOf;
    forall i | 0 <= i < |es| ensures HasUpdate(log, n, es[i].time) {
      var s := Slot(n, es[i].time);
      assert s in slots && s in raw;
    }
    forall t: real | HasUpdate(log, n, t) ensures HasEntry(es, t) && es != [] {
      var s := Slot(n, t);
      assert s in raw && s in slots;
    }
  }

  /** Sorts the entries of every node by time. */
  method SortAll(unsorted: map<Node, seq<Entry>>, ghost log: seq<Update>) returns (updates: map<Node, seq<Entry>>)
    requires forall n :: n in unsorted ==> DistinctTimes(unsorted[n]) && Covers(unsorted[n], log, n)
    requires forall n, t: real :: HasUpdate(log, n, t) ==> n in unsorted
    ensures IsIndex(updates, log)
  {
    hide DistinctTimes, Covers, Increasing, Sorted, HasUpdate;
    updates := unsorted;
    var left := unsorted.Keys;
    while left != {}
      invariant updates.Keys == unsorted.Keys && left <= unsorted.Keys
      invariant forall n :: n in left ==> updates[n] == unsorted[n]
      invariant forall n :: n in updates && n !in left ==> Increasing(updates[n]) && Covers(updates[n], log, n)
      decreases |left|
    {
      var n :| n in left;
      SortedIsIndex(updates[n], log, n);
      updates := updates[n := Sorted(updates[n])];
      left := left - {n};
    }
  }

  // ---------- the frames of the animation ----------

  datatype Packet = Packet(tx: real, rx: real)

  ghost predicate IsEventTime(updates: map<Node, seq<Entry>>, packets: seq<Packet>, t: real)
  {
    || (exists n :: n in updates && HasEntry(updates[n], t))
    || (exists i :: 0 <= i < |packets| && (packets[i].tx == t || packets[i].rx == t))
  }

  /** Frames are drawn at event times only, and that is enough: from one event time until just before the next, every
      attribute of every node keeps its value. */
  lemma FramesSuffice(updates: map<Node, seq<Entry>>, log: seq<Update>, packets: seq<Packet>,
                      init: map<Node, Attributes>, n: Node, k: Key, e: real, t: real)
    requires IsIndex(updates, log) && e <= t
    requires forall u: real :: e < u <= t ==> !IsEventTime(updates, packets, u)
    ensures Expected(init, log, n, k, t) == Expected(init, log, n, k, e)
  {
    forall i | 0 <= i < |log| && log[i].node == n ensures log[i].time <= e || t < log[i].time {
      assert HasUpdate(log, n, log[i].time) && n in updates && HasEntry(updates[n], log[i].time);
      assert IsEventTime(updates, packets, log[i].time);
    }
    NothingBetween(log, n, k, e, t);
  }

  ghost predicate StrictlyIncreasing(ts: seq<real>)
  {
    forall i, j :: 0 <= i < j < |ts| ==> ts[i] < ts[j]
  }

  /** All event times once and in order; the single time 0 if there is none. */
  ghost predicate IsTimeline(ts: seq<real>, updates: map<Node, seq<Entry>>, packets: seq<Packet>)
  {
    && ts != [] && StrictlyIncreasing(ts)
    && (forall t: real :: IsEventTime(updates, packets, t) ==> t in ts)
    && (forall t: real :: t in ts ==>
          IsEventTime(updates, packets, t) || (ts == [0.0] && forall u: real :: !IsEventTime(updates, packets, u)))
  }

  /** The drawn frame for a time is the one of the last event not later; before the first event, nothing has changed. */
  lemma FrameOfTime(ts: seq<real>, updates: map<Node, seq<Entry>>, log: seq<Update>, packets: seq<Packet>,
                    init: map<Node, Attributes>, n: Node, k: Key, i: int, t: real)
    requires IsIndex(updates, log) && IsTimeline(ts, updates, packets) && -1 <= i < |ts|
    requires (i >= 0 ==> ts[i] <= t) && (i + 1 < |ts| ==> t < ts[i + 1])
    ensures i >= 0 ==> Expected(init, log, n, k, t) == Expected(init, log, n, k, ts[i])
    ensures i < 0 ==> Expected(init, log, n, k, t)
                      == if n in init && k in init[n] then init[n][k] else Default(n, k)
  {
    hide Covers, Increasing, Latest, Expected, Default;
    forall u: real | IsEventTime(updates, packets, u) ensures (i >= 0 && u <= ts[i]) || t < u {
      OutsideGap(ts, i, t, u);
    }
    if i >= 0 {
      FramesSuffice(updates, log, packets, init, n, k, ts[i], t);
    } else {
      BeforeFirstFrame(updates, log, packets, init, n, k, t);
    }
  }

  lemma OutsideGap(ts: seq<real>, i: int, t: real, u: real)
    requires StrictlyIncreasing(ts) && -1 <= i < |ts| && (i + 1 < |ts| ==> t < ts[i + 1]) && u in ts
    ensures (i >= 0 && u <= ts[i]) || t < u
  {
    var j :| 0 <= j < |ts| && ts[j] == u;
    assert j <= i || i + 1 <= j;
  }

  lemma BeforeFirstFrame(updates: map<Node, seq<Entry>>, log: seq<Update>, packets: seq<Packet>,
                         init: map<Node, Attributes>, n: Node, k: Key, t: real)
    requires IsIndex(updates, log) && forall u: real :: u <= t ==> !IsEventTime(updates, packets, u)
    ensures Expected(init, log, n, k, t) == if n in init && k in init[n] then init[n][k] else Default(n, k)
  {
    forall i | 0 <= i < |log| && log[i].node == n ensures t < log[i].time {
      assert HasUpdate(log, n, log[i].time) && n in updates && HasEntry(updates[n], log[i].time);
      assert IsEventTime(updates, packets, log[i].time);
    }
    BeforeFirst(log, n, k, t);
  }

  /** Puts a new time at its place. */
  function InsertTime(ts: seq<real>, t: real): seq<real>
  {
    if ts == [] || ts[|ts| - 1] < t then ts + [t] else InsertTime(ts[..|ts| - 1], t) + [ts[|ts| - 1]]
  }

  lemma AppendTime(ts: seq<real>, t: real)
    requires StrictlyIncreasing(ts) && forall u :: u in ts ==> u < t
    ensures StrictlyIncreasing(ts + [t])
    ensures forall u :: u in ts + [t] <==> u in ts || u == t
  {
    forall i | 0 <= i < |ts| ensures ts[i] < t { assert ts[i] in ts; }
  }

  lemma LastIsLargest(ts: seq<real>, front: seq<real>, last: real)
    requires ts == front + [last] && StrictlyIncreasing(ts)
    ensures StrictlyIncreasing(front) && forall u :: u in front ==> u < last
    ensures forall u :: u in ts <==> u in front || u == last
  {
    assert ts[|front|] == last && forall i :: 0 <= i < |front| ==> ts[i] == front[i];
  }

  lemma {:induction false} InsertTimeFacts(ts: seq<real>, t: real)
    requires StrictlyIncreasing(ts) && t !in ts
    ensures StrictlyIncreasing(InsertTime(ts, t))
    ensures forall u :: u in InsertTime(ts, t) <==> u in ts || u == t
  {
    hide StrictlyIncreasing;
    if ts == [] {
      NoTimes(ts);
      AppendTime(ts, t);
    } else {
      var front, last := ts[..|ts| - 1], ts[|ts| - 1];
      assert ts == front + [last];
      LastIsLargest(ts, front, last);
      if last < t {
        AppendTime(ts, t);
      } else {
        InsertTimeFacts(front, t);
        AppendTime(InsertTime(front, t), last);
      }
    }
  }

  lemma NoTimes(ts: seq<real>)
    requires ts == []
    ensures StrictlyIncreasing(ts)
  {
  }

  /** A time goes into the ordered collection once. */
  function AddTime(ts: seq<real>, t: real): seq<real> { if t in ts then ts else InsertTime(ts, t) }

  lemma AddTimeFacts(ts: seq<real>, t: real)
    requires StrictlyIncreasing(ts)
    ensures StrictlyIncreasing(AddTime(ts, t)) && forall u :: u in AddTime(ts, t) <==> u in ts || u == t
  {
    if t !in ts {
      InsertTimeFacts(ts, t);
    }
  }

  /** Adds the times of one node. */
  method AddTimesOf(es: seq<Entry>, ts: seq<real>) returns (r: seq<real>)
    requires StrictlyIncreasing(ts)
    ensures StrictlyIncreasing(r) && forall t: real :: t in r <==> t in ts || HasEntry(es, t)
  {
    hide AddTime, StrictlyIncreasing;
    r := ts;
    var i := 0;
    while i < |es|
      invariant 0 <= i <= |es| && StrictlyIncreasing(r)
      invariant forall t: real :: t in r <==> t in ts || exists j :: 0 <= j < i && es[j].time == t
    {
      AddTimeFacts(r, es[i].time);
      r := AddTime(r, es[i].time);
      i := i + 1;
    }
  }

  lemma TimesSpelled(updates: map<Node, seq<Entry>>, packets: seq<Packet>, ts: seq<real>)
    requires forall t: real :: t in ts <==> IsEventTime(updates, packets, t)
    ensures forall n, i :: n in updates && 0 <= i < |updates[n]| ==> updates[n][i].time in ts
    ensures forall i :: 0 <= i < |packets| ==> packets[i].tx in ts && packets[i].rx in ts
    ensures (forall n :: n in updates ==> updates[n] == []) && packets == [] ==> ts == []
  {
    forall n, i | n in updates && 0 <= i < |updates[n]| ensures updates[n][i].time in ts {
      assert HasEntry(updates[n], updates[n][i].time);
    }
    forall i | 0 <= i < |packets| ensures packets[i].tx in ts && packets[i].rx in ts {
      assert IsEventTime(updates, packets, packets[i].tx) && IsEventTime(updates, packets, packets[i].rx);
    }
    if (forall n :: n in updates ==> updates[n] == []) && packets == [] && ts != [] {
      assert ts[0] in ts && IsEventTime(updates, packets, ts[0]);
    }
  }

  /** The distinct times of all updates and packet boundaries, in order. */
  method GetAllEventTimes(updates: map<Node, seq<Entry>>, packets: seq<Packet>) returns (ts: seq<real>)
    ensures IsTimeline(ts, updates, packets)
    ensures forall n, i :: n in updates && 0 <= i < |updates[n]| ==> updates[n][i].time in ts
    ensures forall i :: 0 <= i < |packets| ==> packets[i].tx in ts && packets[i].rx in ts
    ensures (forall n :: n in updates ==> updates[n] == []) && packets == [] ==> ts == [0.0]
  {
    hide AddTime, HasEntry;
    ts := [];
    var nodes := updates.Keys;
    while nodes != {}
      invariant nodes <= updates.Keys && StrictlyIncreasing(ts)
      invariant forall t: real :: t in ts <==> exists n :: n in updates && n !in nodes && HasEntry(updates[n], t)
      decreases |nodes|
    {
      hide StrictlyIncreasing;
      var n :| n in nodes;
      ts := AddTimesOf(updates[n], ts);
      nodes := nodes - {n};
    }
    var i := 0;
    while i < |packets|
      invariant 0 <= i <= |packets| && StrictlyIncreasing(ts)
      invariant forall t: real :: t in ts <==>
        || (exists n :: n in updates && HasEntry(updates[n], t))
        || (exists j :: 0 <= j < i && (packets[j].tx == t || packets[j].rx == t))
    {
      hide StrictlyIncreasing;
      AddTimeFacts(ts, packets[i].tx);
      AddTimeFacts(AddTime(ts, packets[i].tx), packets[i].rx);
      ts := AddTime(AddTime(ts, packets[i].tx), packets[i].rx);
      i := i + 1;
    }
    assert forall t: real :: t in ts <==> IsEventTime(updates, packets, t);
    TimesSpelled(updates, packets, ts);
    hide IsEventTime;
    if ts == [] {
      ts := [0.0];
    }
  }
}
