/** Where the agents are, what is pending and when things happen, over runs of the continuity protocol. */
module Timeline {
  import opened Common
  import opened Identity
  import opened Continuity
  import Metrics

  // ---------- where the agents are ----------

  /** Which host the enterprise agent is on, if any, and whether the twin is up. */
  datatype Placement = Placement(host: Option<Host>, twinUp: bool)

  function Placed(before: Placement, a: Action): Placement
  {
    match a
    case Initialise => Placement(Some(PrimaryEdge), true)
    case Recover => Placement(Some(PrimaryEdge), true)
    case Redeploy => Placement(Some(PrimaryEdge), true)
    case Restart => Placement(Some(PrimaryEdge), true)
    case Migration => Placement(Some(SecondaryEdge), true)
    case Crash => Placement(None, false)
    case Teardown => Placement(None, false)
    case Partition => before.(twinUp := false)
    case _ => before
  }

  /** The placement that the history of actions alone leads to. */
  function PlacementAfter(labels: seq<Label>): Placement
  {
    if labels == [] then Placement(Some(PrimaryEdge), true)
    else Placed(PlacementAfter(labels[..|labels| - 1]), labels[|labels| - 1].Action())
  }

  function PlacementOf(s: State): Placement
  {
    Placement(if s.enterprise.None? then None else Some(s.enterprise.value.host), s.twinLive)
  }

  lemma DoPlaces(s: State, a: Action, anchor: Anchor)
    ensures PlacementOf(Do(s, a, anchor)) == Placed(PlacementOf(s), a)
  {
    hide Verify, CloseScenario, Revive;
  }

  /** In every state of every run presence and place of both agents follow from the actions so far: the enterprise
      agent is absent exactly after a crash or teardown, on the secondary edge exactly after a migration, and every
      other placing action, a restart included, puts it on the primary edge. */
  lemma {:induction false} PlacementFollowsActions(run: seq<State>, labels: seq<Label>, anchor: Anchor, i: nat)
    requires IsRun(run, labels, anchor) && i < |run|
    ensures PlacementOf(run[i]) == PlacementAfter(labels[..i])
  {
    hide Do;
    if i > 0 {
      PlacementFollowsActions(run, labels, anchor, i - 1);
      DoPlaces(Dequeue(run[i - 1], labels[i - 1]), labels[i - 1].Action(), anchor);
      assert labels[..i][..i - 1] == labels[..i - 1];
    }
  }

  // ---------- reported downtimes ----------

  lemma {:induction false} ClockRises(run: seq<State>, labels: seq<Label>, anchor: Anchor, i: nat, j: nat)
    requires IsRun(run, labels, anchor) && i <= j < |run|
    ensures 0.0 <= run[i].now <= run[j].now
    decreases j
  {
    hide Do;
    if i < j {
      ClockRises(run, labels, anchor, i, j - 1);
      DoAdds(Dequeue(run[j - 1], labels[j - 1]), labels[j - 1].Action(), anchor);
      assert Enabled(run[j - 1], labels[j - 1]);
    } else if i > 0 {
      ClockRises(run, labels, anchor, i - 1, i - 1);
      DoAdds(Dequeue(run[i - 1], labels[i - 1]), labels[i - 1].Action(), anchor);
      assert Enabled(run[i - 1], labels[i - 1]);
    }
  }

  /** Every scenario started within part of a run starts at time t. */
  ghost predicate AllStartAt(labels: seq<Label>, i: nat, j: nat, t: real)
    requires i <= j <= |labels|
  {
    forall k :: i <= k < j && Starts(labels[k].Action()) ==> labels[k].Time() == t
  }

  /** The start of the current scenario is that of an earlier state exactly if no scenario began later. */
  lemma {:induction false} FailureStartIs(run: seq<State>, labels: seq<Label>, anchor: Anchor, i: nat, j: nat)
    requires IsRun(run, labels, anchor) && i <= j < |run| && run[i].failureStart == run[i].now
    ensures run[j].failureStart >= run[i].now
    ensures run[j].failureStart == run[i].now <==> AllStartAt(labels, i, j, run[i].now)
    decreases j
  {
    hide IsRun, Starts, Do;
    RunLength(run, labels, anchor);
    if i < j {
      FailureStartIs(run, labels, anchor, i, j - 1);
      ClockRises(run, labels, anchor, i, j - 1);
      StepFailureStart(run, labels, anchor, j - 1);
      StartIsPast(run, labels, anchor, j - 1);
      AllStartSnoc(labels, i, j, run[i].now);
      hide AllStartAt;
    }
  }

  lemma StartIsPast(run: seq<State>, labels: seq<Label>, anchor: Anchor, i: nat)
    requires IsRun(run, labels, anchor) && i < |run|
    ensures run[i].failureStart <= run[i].now
  {
    hide IsRun;
    TimerAlways(run, labels, anchor, i);
  }

  lemma RunLength(run: seq<State>, labels: seq<Label>, anchor: Anchor)
    requires IsRun(run, labels, anchor)
    ensures |run| == |labels| + 1
  {
  }

  lemma AllStartSnoc(labels: seq<Label>, i: nat, j: nat, t: real)
    requires i < j <= |labels|
    ensures AllStartAt(labels, i, j, t) <==>
              AllStartAt(labels, i, j - 1, t) && (Starts(labels[j - 1].Action()) ==> labels[j - 1].Time() == t)
  {
    hide Starts;
  }

  lemma StepFailureStart(run: seq<State>, labels: seq<Label>, anchor: Anchor, k: nat)
    requires IsRun(run, labels, anchor) && k < |labels|
    ensures run[k].now <= labels[k].Time()
    ensures run[k + 1].failureStart == if Starts(labels[k].Action()) then labels[k].Time() else run[k].failureStart
  {
    hide Do;
    DoAdds(Dequeue(run[k], labels[k]), labels[k].Action(), anchor);
    assert Enabled(run[k], labels[k]);
  }

  /** A revival adds one summary, with the time since the start of the scenario, if that was after time 0. */
  lemma ReviveReports(s: State, name: Metrics.SampleName, anchor: Anchor)
    ensures var t := Revive(s, name, anchor);
            && |t.summaries| == |s.summaries| + 1 && t.summaries[..|s.summaries|] == s.summaries
            && t.summaries[|s.summaries|].downtime == if s.failureStart > 0.0 then s.now - s.failureStart else 0.0
  {
    hide Verify;
  }

  /** An outage begins with a scenario that starts at that time. */
  lemma OutageStarts(run: seq<State>, labels: seq<Label>, anchor: Anchor, i: nat)
    requires IsRun(run, labels, anchor) && 1 <= i <= |labels|
    requires run[i - 1].enterprise.Some? && run[i].enterprise.None?
    ensures run[i].failureStart == run[i].now
  {
    var s := Dequeue(run[i - 1], labels[i - 1]);
    hide Do;
    DoPlaces(s, labels[i - 1].Action(), anchor);
    DoAdds(s, labels[i - 1].Action(), anchor);
    assert run[i] == Do(s, labels[i - 1].Action(), anchor);
  }

  lemma RevivalReports(run: seq<State>, labels: seq<Label>, anchor: Anchor, j: nat)
    requires IsRun(run, labels, anchor) && j < |labels|
    requires labels[j].Action() == Recover || labels[j].Action() == Redeploy
    ensures run[j].now <= labels[j].Time() && |run[j + 1].summaries| == |run[j].summaries| + 1
    ensures run[j + 1].summaries[|run[j].summaries|].downtime
         == if run[j].failureStart > 0.0 then labels[j].Time() - run[j].failureStart else 0.0
  {
    hide Revive;
    assert Enabled(run[j], labels[j]) && run[j + 1] == Next(run[j], labels[j], anchor);
    ReviveReports(Dequeue(run[j], labels[j]), Metrics.CrashRecovery, anchor);
    ReviveReports(Dequeue(run[j], labels[j]), Metrics.TeardownRedeploy, anchor);
  }

  /** For an outage from state i to step j that ends with a recovery or redeployment, the reported downtime is the
      true length of the outage exactly if no other scenario started later in between and the outage began after time
      0 (or took no time). */
  lemma TrueDowntimeIff(run: seq<State>, labels: seq<Label>, anchor: Anchor, i: nat, j: nat)
    requires IsRun(run, labels, anchor) && 1 <= i <= j < |labels|
    requires run[i - 1].enterprise.Some? && forall k :: i <= k <= j ==> run[k].enterprise.None?
    requires labels[j].Action() == Recover || labels[j].Action() == Redeploy
    ensures |run[j + 1].summaries| == |run[j].summaries| + 1
    ensures var outage := labels[j].Time() - run[i].now;
            run[j + 1].summaries[|run[j].summaries|].downtime == outage
            <==> AllStartAt(labels, i, j, run[i].now) && (run[i].now > 0.0 || outage == 0.0)
  {
    RunLength(run, labels, anchor);
    OutageStarts(run, labels, anchor, i);
    hide *;
    FailureStartIs(run, labels, anchor, i, j);
    ClockRises(run, labels, anchor, i, j);
    RevivalReports(run, labels, anchor, j);
  }

  /** An outage that another trigger ends early is reported with a downtime of 0. */
  lemma EarlyRevivalReportsZero(s: State, a: Action, anchor: Anchor)
    requires s.enterprise.None? && (a == Migration || a == Restart || a == Teardown)
    ensures var t := Do(s, a, anchor);
            |t.summaries| > |s.summaries| && t.summaries[|s.summaries|].downtime == 0.0
  {
    var scenario := if a == Migration then AgentMigration else if a == Restart then ProcessRestart else FullTeardown;
    ReviveReports(StartScenario(s, scenario), Metrics.CrashRecovery, anchor);
    hide Revive, Verify;
  }

  // ---------- what a stale revival does ----------

  ghost predicate AnyRevival(s: State) { exists e :: e in s.pending && e.Revives() }

  /** Only revivals, scenario ends and samples are pending: nothing else has been planned. */
  ghost predicate NothingPlanned(s: State)
  {
    forall e :: e in s.pending ==> e.Revives() || e.action == EndScenario || e.action.Sample?
  }

  ghost predicate OnSecondary(s: State) { s.enterprise.Some? && s.enterprise.value.host == SecondaryEdge }

  ghost predicate OnPrimary(s: State) { s.enterprise.Some? && s.enterprise.value.host == PrimaryEdge }

  /** A migrated agent stays where it migrated, once the queue has drained with no further trigger, exactly
      when no revival was left pending at the migration. */
  lemma MigrationSticks(run: seq<State>, labels: seq<Label>, anchor: Anchor)
    requires |run| == |labels| + 1
    requires forall i :: 0 <= i < |labels| ==>
               labels[i].Fire? && Enabled(run[i], labels[i]) && run[i + 1] == Next(run[i], labels[i], anchor)
    requires OnSecondary(run[0]) && NothingPlanned(run[0])
    requires run[|labels|].pending == multiset{}
    ensures OnSecondary(run[|labels|]) <==> !AnyRevival(run[0])
    ensures OnPrimary(run[|labels|]) <==> AnyRevival(run[0])
  {
    Draining(run, labels, anchor, |labels|);
  }

  lemma {:induction false} Draining(run: seq<State>, labels: seq<Label>, anchor: Anchor, k: nat)
    requires |run| == |labels| + 1 && k <= |labels|
    requires forall i :: 0 <= i < |labels| ==>
               labels[i].Fire? && Enabled(run[i], labels[i]) && run[i + 1] == Next(run[i], labels[i], anchor)
    requires OnSecondary(run[0]) && NothingPlanned(run[0])
    ensures NothingPlanned(run[k])
    ensures AnyRevival(run[0]) ==> AnyRevival(run[k]) || OnPrimary(run[k])
    ensures !AnyRevival(run[0]) ==> !AnyRevival(run[k]) && OnSecondary(run[k])
  {
    hide Next;
    if k > 0 {
      Draining(run, labels, anchor, k - 1);
      var s, e := run[k - 1], labels[k - 1].event;
      assert run[k] == Next(s, Fire(e), anchor);
      assert e in s.pending;
      if e.Revives() {
        FiredRevival(s, e, anchor);
      } else {
        FiredEnd(s, e, anchor);
        if AnyRevival(s) {
          var r :| r in s.pending && r.Revives();
          assert r in run[k].pending;
        }
      }
    }
  }

  lemma FiredEnd(s: State, e: Event, anchor: Anchor)
    requires e.action == EndScenario || e.action.Sample?
    ensures Next(s, Fire(e), anchor).enterprise == s.enterprise
    ensures Next(s, Fire(e), anchor).pending == s.pending - multiset{e}
  {
    hide Revive, CloseScenario;
  }

  const CRASH_AT_0 := Trigger(Crash, 0.0)
  const MIGRATION_AT_1 := Trigger(Migration, 1.0)

  /** After a crash at the start and a migration one second later: the first recovery is still pending, the flag is
      clear. */
  lemma MigratedState(anchor: Anchor, s0: State, s1: State, s2: State)
    requires s0 == Deploy(FRESH, anchor)
    requires s1 == Next(s0, CRASH_AT_0, anchor) && s2 == Next(s1, MIGRATION_AT_1, anchor)
    ensures s1.pending == multiset{Event(2.0, Recover)} && s0.now == s1.now == 0.0 && s0.pending == multiset{}
    ensures s2.pending == multiset{Event(2.0, Recover), Event(2.0, Sample(Metrics.MigrationSuccess))} && s2.now == 1.0
    ensures !s2.recoveryScheduled && OnSecondary(s2)
  {
    hide Do;
    var t0, t1 := Dequeue(s0, CRASH_AT_0), Dequeue(s1, MIGRATION_AT_1);
    DoAdds(t0, Crash, anchor);
    DoFlag(t0, Crash, anchor);
    DoPlaces(t0, Crash, anchor);
    DoAdds(t1, Migration, anchor);
    DoFlag(t1, Migration, anchor);
    DoPlaces(t1, Migration, anchor);
  }

  /** An early recovery inside a migration leaves the scheduled one pending, and that one later moves the
      migrated agent back. */
  lemma StaleRecoveryUndoesMigration(anchor: Anchor)
    ensures exists run: seq<State>, labels: seq<Label> ::
              IsRun(run, labels, anchor) && |labels| == 3
              && labels[1] == Trigger(Migration, 1.0) && OnSecondary(run[2]) && !run[2].recoveryScheduled
              && labels[2] == Fire(Event(2.0, Recover)) && OnPrimary(run[3])
  {
    hide Do;
    var s0 := Deploy(FRESH, anchor);
    var l2 := Fire(Event(2.0, Recover));
    var s1 := Next(s0, CRASH_AT_0, anchor);
    var s2 := Next(s1, MIGRATION_AT_1, anchor);
    var s3 := Next(s2, l2, anchor);
    MigratedState(anchor, s0, s1, s2);
    DoPlaces(Dequeue(s2, l2), Recover, anchor);
    assert IsRun([s0, s1, s2, s3], [CRASH_AT_0, MIGRATION_AT_1, l2], anchor);
  }

  /** The flag does not keep revivals apart: two can be pending at once. */
  lemma TwoRevivalsPending(anchor: Anchor)
    ensures exists run: seq<State>, labels: seq<Label> ::
              IsRun(run, labels, anchor) && |labels| == 3
              && run[3].pending == multiset{Event(2.0, Recover), Event(2.0, Sample(Metrics.MigrationSuccess)),
                                            Event(3.0, Recover)}
  {
    hide Do;
    var s0 := Deploy(FRESH, anchor);
    var l2 := Trigger(Crash, 1.0);
    var s1 := Next(s0, CRASH_AT_0, anchor);
    var s2 := Next(s1, MIGRATION_AT_1, anchor);
    var s3 := Next(s2, l2, anchor);
    MigratedState(anchor, s0, s1, s2);
    DoAdds(Dequeue(s2, l2), Crash, anchor);
    assert IsRun([s0, s1, s2, s3], [CRASH_AT_0, MIGRATION_AT_1, l2], anchor);
  }

  /** The revivals in a queue. */
  ghost function RevivalsOf(p: multiset<Event>): (r: multiset<Event>)
    ensures forall e :: r[e] == if e.Revives() then p[e] else 0
  {
    if p == multiset{} then multiset{}
    else
      var e :| e in p;
      RevivalsOf(p - multiset{e}) + if e.Revives() then multiset{e} else multiset{}
  }

  /** An action makes one more revival pending exactly if it is a crash with the flag clear, or a teardown with the flag
      clear or an agent missing; so with one revival pending there are two afterwards exactly then. */
  lemma RevivalAddedIff(s: State, a: Action, anchor: Anchor)
    ensures |RevivalsOf(Do(s, a, anchor).pending)| == |RevivalsOf(s.pending)| + if AddsRevival(s, a) then 1 else 0
    ensures |RevivalsOf(s.pending)| == 1 ==> (|RevivalsOf(Do(s, a, anchor).pending)| == 2 <==> AddsRevival(s, a))
  {
    DoAdds(s, a, anchor);
    RevivalsAdded(s, a);
    RevivalsSum(s.pending, Added(s, a));
    hide Do, Added, RevivalsOf, AddsRevival;
  }

  lemma RevivalsSum(p: multiset<Event>, q: multiset<Event>)
    ensures RevivalsOf(p + q) == RevivalsOf(p) + RevivalsOf(q)
  {
    hide RevivalsOf;
  }

  lemma NoRevivals(p: multiset<Event>)
    requires forall e :: e in p ==> !e.Revives()
    ensures RevivalsOf(p) == multiset{}
  {
    hide RevivalsOf;
  }

  lemma OneRevival(e: Event)
    requires e.Revives()
    ensures |RevivalsOf(multiset{e})| == 1
  {
    hide RevivalsOf;
    assert RevivalsOf(multiset{e}) == multiset{e};
  }

  lemma RevivalsAdded(s: State, a: Action)
    ensures |RevivalsOf(Added(s, a))| == if AddsRevival(s, a) then 1 else 0
  {
    hide RevivalsOf;
    OneRevival(Event(s.now + 2.0, Recover));
    OneRevival(Event(s.now + 2.0, Redeploy));
    match a {
      case Crash => if s.recoveryScheduled { NoRevivals(Added(s, a)); }
      case Teardown => if !AddsRevival(s, a) { NoRevivals(Added(s, a)); }
      case _ => PlainActions(s, a);
    }
  }

  lemma PlainActions(s: State, a: Action)
    requires a != Crash && a != Teardown
    ensures RevivalsOf(Added(s, a)) == multiset{}
  {
    hide RevivalsOf;
    forall e | e in Added(s, a) ensures !e.Revives() {
      PlainEvent(s, a, e);
    }
    hide Added;
    NoRevivals(Added(s, a));
  }

  lemma PlainEvent(s: State, a: Action, e: Event)
    requires a != Crash && a != Teardown && e in Added(s, a)
    ensures !e.Revives()
  {
  }

  lemma RevivalsFire(p: multiset<Event>, e: Event)
    requires e in p
    ensures |RevivalsOf(p - multiset{e})| == |RevivalsOf(p)| - if e.Revives() then 1 else 0
  {
    hide RevivalsOf;
    assert p == (p - multiset{e}) + multiset{e};
    RevivalsSum(p - multiset{e}, multiset{e});
    if e.Revives() {
      OneRevival(e);
    } else {
      NoRevivals(multiset{e});
    }
  }

  // ---------- pending revivals, from the labels alone ----------

  predicate BothThere(p: Placement) { p.host.Some? && p.twinUp }

  /** The recovery flag that the history of actions alone leads to. */
  function FlagAfter(labels: seq<Label>): bool
  {
    if labels == [] then false
    else
      var front := labels[..|labels| - 1];
      match labels[|labels| - 1].Action()
      case Crash => true
      case Teardown => true
      case Recover => false
      case Redeploy => false
      case Migration => FlagAfter(front) && BothThere(PlacementAfter(front))
      case Restart => FlagAfter(front) && BothThere(PlacementAfter(front))
      case _ => FlagAfter(front)
  }

  /** The next action schedules a revival. */
  predicate Schedules(before: seq<Label>, a: Action)
  {
    || (a == Crash && !FlagAfter(before))
    || (a == Teardown && (!FlagAfter(before) || !BothThere(PlacementAfter(before))))
  }

  predicate FiresRevival(l: Label) { l.Fire? && l.event.Revives() }

  /** Revivals scheduled less revivals fired. */
  function Outstanding(labels: seq<Label>): int
  {
    if labels == [] then 0
    else
      var front, l := labels[..|labels| - 1], labels[|labels| - 1];
      Outstanding(front) + (if Schedules(front, l.Action()) then 1 else 0) - if FiresRevival(l) then 1 else 0
  }

  lemma {:induction false} FlagFollowsActions(run: seq<State>, labels: seq<Label>, anchor: Anchor, i: nat)
    requires IsRun(run, labels, anchor) && i < |run|
    ensures run[i].recoveryScheduled == FlagAfter(labels[..i])
  {
    hide Do, PlacementAfter;
    if i > 0 {
      FlagFollowsActions(run, labels, anchor, i - 1);
      PlacementFollowsActions(run, labels, anchor, i - 1);
      DoFlag(Dequeue(run[i - 1], labels[i - 1]), labels[i - 1].Action(), anchor);
      assert labels[..i][..i - 1] == labels[..i - 1];
    }
  }

  lemma OutstandingSnoc(labels: seq<Label>, n: nat)
    requires n < |labels|
    ensures Outstanding(labels[..n + 1])
         == Outstanding(labels[..n]) + (if Schedules(labels[..n], labels[n].Action()) then 1 else 0)
            - if FiresRevival(labels[n]) then 1 else 0
    ensures Schedules(labels[..n], labels[n].Action()) ==> !FiresRevival(labels[n])
  {
    assert labels[..n + 1][..n] == labels[..n];
  }

  lemma NothingPending(run: seq<State>, labels: seq<Label>, anchor: Anchor)
    requires IsRun(run, labels, anchor)
    ensures |RevivalsOf(run[0].pending)| == Outstanding(labels[..0])
  {
    hide Do, RevivalsOf;
    NoRevivals(run[0].pending);
  }

  lemma RunStep(run: seq<State>, labels: seq<Label>, anchor: Anchor, k: nat)
    requires IsRun(run, labels, anchor) && k < |labels|
    ensures |run| == |labels| + 1 && Enabled(run[k], labels[k]) && run[k + 1] == Next(run[k], labels[k], anchor)
  {
    hide Enabled, Next;
  }

  /** How many revivals are pending in a state of a run follows from the labels so far. */
  lemma {:induction false} RevivalsCounted(run: seq<State>, labels: seq<Label>, anchor: Anchor, i: nat)
    requires IsRun(run, labels, anchor) && i < |run|
    ensures |RevivalsOf(run[i].pending)| == Outstanding(labels[..i])
  {
    hide *;
    RunLength(run, labels, anchor);
    if i > 0 {
      RevivalsCounted(run, labels, anchor, i - 1);
      FlagFollowsActions(run, labels, anchor, i - 1);
      PlacementFollowsActions(run, labels, anchor, i - 1);
      RunStep(run, labels, anchor, i - 1);
      CountedStep(run[i - 1], labels[i - 1], anchor, labels[..i - 1]);
      OutstandingSnoc(labels, i - 1);
    } else {
      NothingPending(run, labels, anchor);
    }
  }

  lemma CountedStep(s: State, l: Label, anchor: Anchor, before: seq<Label>)
    requires Enabled(s, l) && s.recoveryScheduled == FlagAfter(before) && PlacementOf(s) == PlacementAfter(before)
    ensures |RevivalsOf(Next(s, l, anchor).pending)|
         == |RevivalsOf(s.pending)| + (if Schedules(before, l.Action()) then 1 else 0)
            - if FiresRevival(l) then 1 else 0
  {
    hide Do, RevivalsOf, PlacementAfter, FlagAfter;
    RevivalAddedIff(Dequeue(s, l), l.Action(), anchor);
    if l.Fire? {
      RevivalsFire(s.pending, l.event);
    }
  }

  /** Two scheduled revivals overlap: none fires from the one step to the other. */
  ghost predicate Overlap(labels: seq<Label>, a: nat, c: nat)
    requires a < c < |labels|
  {
    && Schedules(labels[..a], labels[a].Action())
    && Schedules(labels[..c], labels[c].Action())
    && forall k :: a < k < c ==> !FiresRevival(labels[k])
  }

  /** While at most one revival was ever outstanding, an outstanding one has been scheduled with none fired since. */
  lemma {:induction false} LastScheduled(labels: seq<Label>, n: nat) returns (a: nat)
    requires n <= |labels| && Outstanding(labels[..n]) >= 1
    requires forall m :: 0 <= m <= n ==> Outstanding(labels[..m]) <= 1
    ensures a < n && Schedules(labels[..a], labels[a].Action()) && forall k :: a < k < n ==> !FiresRevival(labels[k])
  {
    assert n > 0 by { assert labels[..0] == []; }
    hide Outstanding, Schedules;
    OutstandingSnoc(labels, n - 1);
    if Schedules(labels[..n - 1], labels[n - 1].Action()) {
      a := n - 1;
    } else {
      assert Outstanding(labels[..n - 1]) <= 1;
      a := LastScheduled(labels, n - 1);
    }
  }

  lemma {:induction false} FirstOverlap(labels: seq<Label>, n: nat) returns (a: nat, c: nat)
    requires n <= |labels| && Outstanding(labels[..n]) >= 2
    ensures a < c < n && Overlap(labels, a, c)
  {
    assert n > 0 by { assert labels[..0] == []; }
    hide Outstanding, Schedules;
    if m :| 0 <= m < n && Outstanding(labels[..m]) >= 2 {
      a, c := FirstOverlap(labels, m);
    } else {
      OutstandingSnoc(labels, n - 1);
      assert Outstanding(labels[..n - 1]) <= 1;
      c := n - 1;
      a := LastScheduled(labels, c);
    }
  }

  /** With no revival fired, what is outstanding stays. */
  lemma {:induction false} OutstandingStays(labels: seq<Label>, a: nat, c: nat)
    requires a <= c <= |labels| && forall k :: a <= k < c ==> !FiresRevival(labels[k])
    ensures Outstanding(labels[..c]) >= Outstanding(labels[..a])
    decreases c
  {
    hide Outstanding, Schedules;
    if a < c {
      OutstandingStays(labels, a, c - 1);
      OutstandingSnoc(labels, c - 1);
    }
  }

  /** No two revivals are ever pending in a run exactly if its labels show no two schedulings that overlap. */
  lemma NeverTwoRevivalsIff(run: seq<State>, labels: seq<Label>, anchor: Anchor)
    requires IsRun(run, labels, anchor)
    ensures (forall i :: 0 <= i < |run| ==> |RevivalsOf(run[i].pending)| <= 1)
       <==> !exists a: nat, c: nat :: a < c < |labels| && Overlap(labels, a, c)
  {
    RunLength(run, labels, anchor);
    hide *;
    if exists a: nat, c: nat :: a < c < |labels| && Overlap(labels, a, c) {
      var a: nat, c: nat :| a < c < |labels| && Overlap(labels, a, c);
      OverlapCounts(run, labels, anchor, a, c);
      assert |RevivalsOf(run[c + 1].pending)| >= 2;
    }
    if i :| 0 <= i < |run| && |RevivalsOf(run[i].pending)| > 1 {
      RevivalsCounted(run, labels, anchor, i);
      var a, c := FirstOverlap(labels, i);
    }
  }

  lemma OverlapOutstanding(labels: seq<Label>, a: nat, c: nat)
    requires a < c < |labels| && Overlap(labels, a, c)
    ensures Outstanding(labels[..c + 1]) >= Outstanding(labels[..a]) + 2
  {
    hide Outstanding, Schedules;
    OutstandingSnoc(labels, a);
    OutstandingStays(labels, a + 1, c);
    OutstandingSnoc(labels, c);
  }

  lemma OverlapCounts(run: seq<State>, labels: seq<Label>, anchor: Anchor, a: nat, c: nat)
    requires IsRun(run, labels, anchor) && a < c < |labels| && Overlap(labels, a, c)
    ensures c + 1 < |run| && |RevivalsOf(run[c + 1].pending)| >= 2
  {
    hide *;
    RunLength(run, labels, anchor);
    OverlapOutstanding(labels, a, c);
    RevivalsCounted(run, labels, anchor, a);
    RevivalsCounted(run, labels, anchor, c + 1);
  }

  /** A revival other than the one that falls due: inside a migration, restart or teardown that finds an agent missing,
      or triggered at will. */
  ghost predicate EarlyRevival(labels: seq<Label>, b: nat)
    requires b < |labels|
  {
    var a := labels[b].Action();
    || (a in {Migration, Restart, Teardown} && !BothThere(PlacementAfter(labels[..b])))
    || (a in {Recover, Redeploy} && labels[b].Trigger?)
  }

  /** Overlaps come from early revivals only. */
  lemma OverlapNeedsEarly(labels: seq<Label>, a: nat, c: nat)
    requires a < c < |labels| && Overlap(labels, a, c)
    ensures exists b :: a < b <= c && EarlyRevival(labels, b)
  {
    if FlagAfter(labels[..c]) {
      assert EarlyRevival(labels, c);
    } else {
      assert labels[..a + 1][..a] == labels[..a] && FlagAfter(labels[..a + 1]);
      var b := FlagCleared(labels, a + 1, c);
    }
  }

  lemma {:induction false} FlagCleared(labels: seq<Label>, m: nat, n: nat) returns (b: nat)
    requires m <= n <= |labels| && FlagAfter(labels[..m]) && !FlagAfter(labels[..n])
    requires forall k :: m <= k < n ==> !FiresRevival(labels[k])
    ensures m <= b < n && EarlyRevival(labels, b)
    decreases n
  {
    hide PlacementAfter;
    assert labels[..n][..n - 1] == labels[..n - 1];
    if FlagAfter(labels[..n - 1]) {
      b := n - 1;
    } else {
      b := FlagCleared(labels, m, n - 1);
    }
  }

  // ---------- the timeline of the main program ----------

  /** The triggers main schedules before the simulator starts. */
  ghost predicate MainTrigger(l: Label, simTime: real)
  {
    || l == Trigger(Baseline, 1.0)
    || l == Trigger(Initialise, 12.0)
    || l == Trigger(ScheduleContinuity, 12.0)
    || l == Trigger(SchedulePartition, 40.0)
    || l == Trigger(FinalCheck, simTime - 0.5)
    || (l.Trigger? && l.action.Sample?)
  }

  /** When each kind of disruption can happen: its delay counts from the moment it is scheduled. */
  ghost predicate OnTime(a: Action, t: real)
  {
    && (a == ScheduleContinuity ==> t == 12.0)
    && (a == SchedulePartition ==> t == 40.0)
    && (a == Crash ==> t == 32.0)
    && (a == Migration ==> t == 37.0)
    && (a == Restart ==> t == 42.0)
    && (a == Teardown ==> t == 47.0)
    && (a == Partition ==> t == 80.0)
  }

  lemma {:induction false} QueueOnTime(run: seq<State>, labels: seq<Label>, anchor: Anchor, simTime: real, i: nat)
    requires IsRun(run, labels, anchor) && i < |run|
    requires forall k :: 0 <= k < |labels| ==> labels[k].Trigger? ==> MainTrigger(labels[k], simTime)
    ensures forall e :: e in run[i].pending ==> OnTime(e.action, e.time)
    decreases i
  {
    hide Do, OnTime;
    if i > 0 {
      QueueOnTime(run, labels, anchor, simTime, i - 1);
      QueueStep(run, labels, anchor, simTime, i - 1);
    }
  }

  lemma QueueStep(run: seq<State>, labels: seq<Label>, anchor: Anchor, simTime: real, i: nat)
    requires IsRun(run, labels, anchor) && i < |labels|
    requires labels[i].Trigger? ==> MainTrigger(labels[i], simTime)
    requires forall e :: e in run[i].pending ==> OnTime(e.action, e.time)
    ensures forall e :: e in run[i + 1].pending ==> OnTime(e.action, e.time)
  {
    hide Do;
    var l := labels[i];
    var t := Dequeue(run[i], l);
    assert run[i + 1] == Do(t, l.Action(), anchor);
    assert l.Action().ScheduleContinuity? ==> t.now == 12.0;
    assert l.Action().SchedulePartition? ==> t.now == 40.0;
    forall e | e in run[i + 1].pending ensures OnTime(e.action, e.time) {
      DoSchedules(t, l.Action(), anchor, e);
      if e in t.pending {
        assert e in run[i].pending;
      }
    }
  }

  /** What can be new in the queue after a handler. */
  lemma DoSchedules(s: State, a: Action, anchor: Anchor, e: Event)
    requires e in Do(s, a, anchor).pending
    ensures || e in s.pending || e.Revives() || e.action == EndScenario || e.action.Sample?
            || (a == ScheduleContinuity
                && (e == Event(s.now + 20.0, Crash) || e == Event(s.now + 25.0, Migration)
                    || e == Event(s.now + 30.0, Restart) || e == Event(s.now + 35.0, Teardown)))
            || (a == SchedulePartition && e == Event(s.now + 40.0, Partition))
  {
    DoAdds(s, a, anchor);
    hide Do, Added;
    if e !in s.pending {
      AddedEvent(s, a, e);
    }
  }

  lemma AddedEvent(s: State, a: Action, e: Event)
    requires e in Added(s, a)
    ensures || e.Revives() || e.action == EndScenario || e.action.Sample?
            || (a == ScheduleContinuity
                && (e == Event(s.now + 20.0, Crash) || e == Event(s.now + 25.0, Migration)
                    || e == Event(s.now + 30.0, Restart) || e == Event(s.now + 35.0, Teardown)))
            || (a == SchedulePartition && e == Event(s.now + 40.0, Partition))
  {
    if a == ScheduleContinuity {
      PlannedEvents(s);
      hide Added;
    } else {
      OtherEvent(s, a, e);
    }
  }

  lemma OtherEvent(s: State, a: Action, e: Event)
    requires e in Added(s, a) && a != ScheduleContinuity
    ensures || e.Revives() || e.action == EndScenario || e.action.Sample?
            || (a == SchedulePartition && e == Event(s.now + 40.0, Partition))
  {
    hide AddsRevival;
  }

  /** What is pending happens: once the clock has passed an event, it has fired. */
  lemma {:induction false} PendingHappens(run: seq<State>, labels: seq<Label>, anchor: Anchor, i: nat, j: nat, e: Event)
    requires IsRun(run, labels, anchor) && i <= j < |run| && e in run[i].pending
    ensures e in run[j].pending || exists k :: i <= k < j && labels[k] == Fire(e)
    ensures run[j].now > e.time ==> exists k :: i <= k < j && labels[k] == Fire(e)
    decreases j
  {
    hide Do;
    if i < j {
      PendingHappens(run, labels, anchor, i, j - 1, e);
      if e in run[j - 1].pending && labels[j - 1] != Fire(e) {
        OthersStayPending(run[j - 1], labels[j - 1], anchor, e);
      }
    }
    TimerAlways(run, labels, anchor, j);
  }

  /** The four disruptions do happen: in a run where main schedules them at 12 s, each has been fired at its own time
      once the clock has passed that. */
  lemma MainTimelineHappens(run: seq<State>, labels: seq<Label>, anchor: Anchor, i: nat, j: nat, e: Event)
    requires IsRun(run, labels, anchor) && i < j < |run| && labels[i] == Trigger(ScheduleContinuity, 12.0)
    requires || e == Event(32.0, Crash)
             || e == Event(37.0, Migration)
             || e == Event(42.0, Restart)
             || e == Event(47.0, Teardown)
    requires run[j].now > e.time
    ensures exists k :: i < k < j && labels[k] == Fire(e)
  {
    hide Do;
    DoAdds(Dequeue(run[i], labels[i]), ScheduleContinuity, anchor);
    assert run[i + 1] == Next(run[i], labels[i], anchor);
    PendingHappens(run, labels, anchor, i + 1, j, e);
  }

  /** Step i leaves the event behind: the samples and the end of the baseline failure and of the partition, the last
      sample of a migration or restart, and the revival after a crash or teardown that schedules one. */
  ghost predicate LeavesBehind(labels: seq<Label>, i: nat, e: Event)
    requires i < |labels|
  {
    var t := labels[i].Time();
    match labels[i].Action()
    case Baseline =>
      || e == Event(t + 5.0, Sample(Metrics.BaselineFailureMid))
      || e == Event(t + 10.0, Sample(Metrics.BaselineFailureEnd))
      || e == Event(t + 11.0, EndScenario)
    case Partition =>
      || e == Event(t + 2.5, Sample(Metrics.PartitionMid))
      || e == Event(t + 4.5, Sample(Metrics.PartitionEnd))
      || e == Event(t + 5.0, EndScenario)
    case Migration => e == Event(t + 1.0, Sample(Metrics.MigrationSuccess))
    case Restart => e == Event(t + 1.0, Sample(Metrics.RestartSuccess))
    case Crash => e == Event(t + 2.0, Recover) && !FlagAfter(labels[..i])
    case Teardown =>
      e == Event(t + 2.0, Redeploy) && (!FlagAfter(labels[..i]) || !BothThere(PlacementAfter(labels[..i])))
    case SchedulePartition => e == Event(t + 40.0, Partition)
    case _ => false
  }

  lemma ThreeIn(a: Event, b: Event, c: Event)
    ensures a in multiset{a, b, c} && b in multiset{a, b, c} && c in multiset{a, b, c}
  {
  }

  lemma ScenarioLeaves(s: State, a: Action, e: Event)
    requires || (a == Baseline && (|| e == Event(s.now + 5.0, Sample(Metrics.BaselineFailureMid))
                                   || e == Event(s.now + 10.0, Sample(Metrics.BaselineFailureEnd))
                                   || e == Event(s.now + 11.0, EndScenario)))
             || (a == Partition && (|| e == Event(s.now + 2.5, Sample(Metrics.PartitionMid))
                                    || e == Event(s.now + 4.5, Sample(Metrics.PartitionEnd))
                                    || e == Event(s.now + 5.0, EndScenario)))
             || (a == Migration && e == Event(s.now + 1.0, Sample(Metrics.MigrationSuccess)))
             || (a == Restart && e == Event(s.now + 1.0, Sample(Metrics.RestartSuccess)))
             || (a == SchedulePartition && e == Event(s.now + 40.0, Partition))
    ensures e in Added(s, a)
  {
    if a == Baseline {
      ThreeIn(Event(s.now + 5.0, Sample(Metrics.BaselineFailureMid)),
              Event(s.now + 10.0, Sample(Metrics.BaselineFailureEnd)), Event(s.now + 11.0, EndScenario));
    } else if a == Partition {
      ThreeIn(Event(s.now + 2.5, Sample(Metrics.PartitionMid)), Event(s.now + 4.5, Sample(Metrics.PartitionEnd)),
              Event(s.now + 5.0, EndScenario));
    }
  }

  lemma LossLeaves(s: State, a: Action)
    requires AddsRevival(s, a)
    ensures a == Crash ==> Event(s.now + 2.0, Recover) in Added(s, a)
    ensures a == Teardown ==> Event(s.now + 2.0, Redeploy) in Added(s, a)
  {
    hide AddsRevival;
  }

  lemma RevivalIsAdded(s: State, before: seq<Label>, a: Action)
    requires s.recoveryScheduled == FlagAfter(before) && PlacementOf(s) == PlacementAfter(before)
    ensures AddsRevival(s, a) == Schedules(before, a)
  {
    hide FlagAfter, PlacementAfter;
  }

  /** What a step leaves behind is among the events that its handler adds. */
  lemma LeftBehind(s: State, labels: seq<Label>, i: nat, e: Event)
    requires i < |labels| && LeavesBehind(labels, i, e) && s.now == labels[i].Time()
    requires s.recoveryScheduled == FlagAfter(labels[..i]) && PlacementOf(s) == PlacementAfter(labels[..i])
    ensures e in Added(s, labels[i].Action())
  {
    var b := labels[i].Action();
    RevivalIsAdded(s, labels[..i], b);
    hide FlagAfter, PlacementAfter, PlacementOf, Added, AddsRevival, BothThere;
    if b == Crash || b == Teardown {
      LossLeaves(s, b);
    } else {
      ScenarioLeaves(s, b, e);
    }
  }

  lemma NextIs(s: State, l: Label, anchor: Anchor)
    ensures Next(s, l, anchor) == Do(Dequeue(s, l), l.Action(), anchor)
  {
    hide Do, Dequeue;
  }

  lemma DequeuePlaces(s: State, l: Label)
    ensures PlacementOf(Dequeue(s, l)) == PlacementOf(s) && Dequeue(s, l).recoveryScheduled == s.recoveryScheduled
    ensures Dequeue(s, l).now == l.Time()
  {
  }

  lemma AddedStays(s: State, l: Label, anchor: Anchor, e: Event)
    requires e in Added(Dequeue(s, l), l.Action())
    ensures e in Next(s, l, anchor).pending
  {
    NextIs(s, l, anchor);
    hide *;
    DoAdds(Dequeue(s, l), l.Action(), anchor);
  }

  /** What a step leaves behind has happened at its time once the clock has passed that. */
  lemma FollowUpHappens(run: seq<State>, labels: seq<Label>, anchor: Anchor, i: nat, j: nat, e: Event)
    requires IsRun(run, labels, anchor) && i < j < |run| && i < |labels| && LeavesBehind(labels, i, e)
    requires run[j].now > e.time
    ensures exists k :: i < k < j && labels[k] == Fire(e)
  {
    hide *;
    FlagFollowsActions(run, labels, anchor, i);
    PlacementFollowsActions(run, labels, anchor, i);
    RunStep(run, labels, anchor, i);
    DequeuePlaces(run[i], labels[i]);
    LeftBehind(Dequeue(run[i], labels[i]), labels, i, e);
    AddedStays(run[i], labels[i], anchor, e);
    PendingHappens(run, labels, anchor, i + 1, j, e);
  }

  /** In every run of main the crash happens at 32 s, the migration at 37 s and the restart at 42 s; with the
      default stop time of 45 s the teardown (47 s) and the partition (80 s) never happen. */
  lemma MainTimeline(run: seq<State>, labels: seq<Label>, anchor: Anchor, simTime: real, i: nat)
    requires IsRun(run, labels, anchor) && i < |labels|
    requires forall k :: 0 <= k < |labels| ==> labels[k].Trigger? ==> MainTrigger(labels[k], simTime)
    ensures OnTime(labels[i].Action(), labels[i].Time())
    ensures run[i + 1].now <= 45.0 ==> labels[i].Action() != Teardown && labels[i].Action() != Partition
  {
    hide Do;
    QueueOnTime(run, labels, anchor, simTime, i);
    assert run[i + 1] == Next(run[i], labels[i], anchor);
    DoAdds(Dequeue(run[i], labels[i]), labels[i].Action(), anchor);
    hide Added;
  }

  // ---------- the metric samples of a run ----------

  /** Samples come in order of time, and each one notes either no verification yet or a successful last one. */
  ghost predicate MarkInv(s: State)
  {
    && (forall i, j :: 0 <= i < j < |s.samples| ==> s.samples[i].time <= s.samples[j].time)
    && (forall i :: 0 <= i < |s.samples| ==> s.samples[i].time <= s.now && Truthful(s.samples[i]))
  }

  predicate Truthful(m: Mark) { m.note.verificationEvents > 0 ==> m.note.verificationSuccess }

  lemma RecordKeepsMarks(s: State, name: Metrics.SampleName, anchor: Anchor)
    requires MarkInv(s) && IdentityInv(s, anchor)
    ensures MarkInv(Record(s, name))
  {
    if !s.lastResult {
      NoChecksYet(s.twins);
    }
    hide IdentityInv;
  }

  lemma SameMarks(s: State, t: State)
    requires MarkInv(s) && t.samples == s.samples && s.now <= t.now
    ensures MarkInv(t)
  {
    hide Truthful;
  }

  lemma ReviveKeepsMarks(s: State, name: Metrics.SampleName, anchor: Anchor)
    requires MarkInv(s) && IdentityInv(s, anchor)
    ensures MarkInv(Revive(s, name, anchor))
  {
    hide MarkInv, IdentityInv, Deploy, Verify, Record, CloseScenario, CountedVerify;
    var f := s.(recoveryScheduled := false);
    var d := Deploy(f, anchor);
    var v := CountedVerify(d);
    assert d.samples == s.samples && d.now == s.now by { DeployQuietly(f, anchor); }
    SameAgentsKeepIdentity(s, f, anchor);
    DeployKeepsIdentity(f, anchor);
    CountedKeepsIdentity(d, anchor);
    SameMarks(s, v);
    RecordKeepsMarks(v, name, anchor);
    SameMarks(Record(v, name), CloseScenario(Record(v, name)));
  }

  lemma DeployQuietly(s: State, anchor: Anchor)
    ensures Deploy(s, anchor).samples == s.samples && Deploy(s, anchor).now == s.now
  {
  }

  lemma CountedKeepsIdentity(s: State, anchor: Anchor)
    requires IdentityInv(s, anchor) && s.enterprise.Some?
    ensures IdentityInv(CountedVerify(s), anchor)
  {
    hide IdentityInv, Verify;
    VerifyKeepsIdentity(s, anchor);
    SameAgentsKeepIdentity(Verify(s), CountedVerify(s), anchor);
  }

  lemma EnsureKeepsMarks(s: State, scenario: Scenario, anchor: Anchor)
    requires MarkInv(s) && IdentityInv(s, anchor)
    ensures MarkInv(EnsureAgentsPresent(StartScenario(s, scenario), anchor))
  {
    hide MarkInv, IdentityInv, Revive;
    var t := StartScenario(s, scenario);
    SameMarks(s, t);
    SameAgentsKeepIdentity(s, t, anchor);
    hide StartScenario;
    ReviveKeepsMarks(t, Metrics.CrashRecovery, anchor);
  }

  lemma MoveKeepsMarks(s: State, scenario: Scenario, host: Host, anchor: Anchor)
    requires MarkInv(s) && IdentityInv(s, anchor)
    ensures MarkInv(MoveTo(s, scenario, host, anchor))
  {
    hide MarkInv, IdentityInv, EnsureAgentsPresent, Record, CountedVerify, CloseScenario, Schedule, StartName,
         SuccessName;
    var e := EnsureAgentsPresent(StartScenario(s, scenario), anchor);
    EnsureKeepsMarks(s, scenario, anchor);
    EnsureKeepsIdentity(s, scenario, anchor);
    EnsureKeepsClock(StartScenario(s, scenario), anchor);
    RecordKeepsMarks(e, StartName(scenario), anchor);
    SameMarks(Record(e, StartName(scenario)), MoveTo(s, scenario, host, anchor));
  }

  lemma LoseKeepsMarks(s: State, name: Metrics.SampleName, revival: Action, anchor: Anchor)
    requires MarkInv(s) && IdentityInv(s, anchor)
    ensures MarkInv(LoseAgents(Record(s, name), revival))
  {
    hide MarkInv, IdentityInv, Record, LoseAgents;
    RecordKeepsMarks(s, name, anchor);
    SameMarks(Record(s, name), LoseAgents(Record(s, name), revival));
  }

  lemma FinalKeepsMarks(s: State, anchor: Anchor)
    requires MarkInv(s) && IdentityInv(s, anchor)
    ensures MarkInv(Do(s, FinalCheck, anchor))
  {
    hide MarkInv, IdentityInv, Record, Verify;
    if s.twinLive && s.enterprise.Some? {
      VerifyKeepsIdentity(s, anchor);
      SameMarks(s, Verify(s));
      RecordKeepsMarks(Verify(s), Metrics.Final, anchor);
    } else {
      RecordKeepsMarks(s, Metrics.Final, anchor);
    }
  }

  lemma DoKeepsMarks(s: State, a: Action, anchor: Anchor)
    requires MarkInv(s) && IdentityInv(s, anchor)
    ensures MarkInv(Do(s, a, anchor))
  {
    hide MarkInv, IdentityInv, Revive, MoveTo, EnsureAgentsPresent, LoseAgents, Record, Verify, CloseScenario, Schedule,
         StartScenario, Deploy;
    match a {
      case Initialise =>
        DeployQuietly(s, anchor);
        SameMarks(s, Deploy(s, anchor));
      case Crash =>
        StartKeepsNow(s, NodeCrash);
        SameMarks(s, StartScenario(s, NodeCrash));
        SameAgentsKeepIdentity(s, StartScenario(s, NodeCrash), anchor);
        LoseKeepsMarks(StartScenario(s, NodeCrash), Metrics.CrashDuring, Recover, anchor);
      case Teardown =>
        EnsureKeepsMarks(s, FullTeardown, anchor);
        EnsureKeepsIdentity(s, FullTeardown, anchor);
        var present := EnsureAgentsPresent(StartScenario(s, FullTeardown), anchor);
        LoseKeepsMarks(present, Metrics.TeardownStart, Redeploy, anchor);
      case Migration => MoveKeepsMarks(s, AgentMigration, SecondaryEdge, anchor);
      case Restart => MoveKeepsMarks(s, ProcessRestart, PrimaryEdge, anchor);
      case Recover => ReviveKeepsMarks(s, Metrics.CrashRecovery, anchor);
      case Redeploy => ReviveKeepsMarks(s, Metrics.TeardownRedeploy, anchor);
      case FinalCheck => FinalKeepsMarks(s, anchor);
      case Sample(name) => RecordKeepsMarks(s, name, anchor);
      case _ =>
        DoAdds(s, a, anchor);
        SameMarks(s, Do(s, a, anchor));
    }
  }

  lemma StartKeepsNow(s: State, scenario: Scenario)
    ensures StartScenario(s, scenario).now == s.now
  {
  }

  /** In every state of every run the samples recorded so far are in order of time and truthful: a sample that notes any
      verification notes a successful one. */
  lemma {:induction false} SamplesTruthful(run: seq<State>, labels: seq<Label>, anchor: Anchor, i: nat)
    requires anchor.card.name == REGISTERED_NAME
    requires IsRun(run, labels, anchor) && i < |run|
    ensures MarkInv(run[i])
  {
    hide Do, IdentityInv, MarkInv;
    if i > 0 {
      SamplesTruthful(run, labels, anchor, i - 1);
      IdentityAlways(run, labels, anchor, i - 1);
      assert Enabled(run[i - 1], labels[i - 1]) && run[i] == Next(run[i - 1], labels[i - 1], anchor);
      hide IsRun;
      NextKeepsMarks(run[i - 1], labels[i - 1], anchor);
    } else {
      NoMarksYet(run[0], anchor);
    }
  }

  lemma NextKeepsMarks(s: State, l: Label, anchor: Anchor)
    requires MarkInv(s) && IdentityInv(s, anchor) && Enabled(s, l)
    ensures MarkInv(Next(s, l, anchor))
  {
    hide Do, IdentityInv, MarkInv;
    var t := Dequeue(s, l);
    SameAgentsKeepIdentity(s, t, anchor);
    SameMarks(s, t);
    DoKeepsMarks(t, l.Action(), anchor);
  }

  lemma NoMarksYet(s: State, anchor: Anchor)
    requires s == Deploy(FRESH, anchor)
    ensures MarkInv(s)
  {
  }
}
