/** The continuity protocol of the simulation manager: crash, recovery, migration, restart, teardown and
    partition of an agent pair, as functions on states and as runs of an event queue. */
module Continuity {
  import opened Common
  import opened Identity
  import Metrics

  // ---------- state ----------

  datatype Host = PrimaryEdge | SecondaryEdge

  /** An enterprise agent: its parsed identity, its fingerprint and the node it runs on. */
  datatype Agent = Agent(card: Card, fingerprint: string, host: Host)

  /** A twin agent: reference tables and verification counters. */
  datatype Twin = Twin(refFps: map<string, string>, refLins: map<string, string>, success: u32, fail: u32)
  {
    function TotalChecks(): u32 { (success + fail) % TWO32 }

    function Register(name: string, fp: string, lin: string): Twin
    {
      this.(refFps := refFps[name := fp], refLins := refLins[name := lin])
    }

    /** The comparison made by a verification; a name without a reference fails. */
    predicate Accepts(a: Option<Agent>)
    {
      && a.Some?
      && a.value.card.name in refFps
      && a.value.fingerprint == refFps[a.value.card.name]
      && a.value.card.lineage == Lineage(a.value.card.name)
    }

    /** operator[] of the lineage table: a missing entry reads as the empty string. */
    function Lineage(name: string): string { if name in refLins then refLins[name] else "" }

    /** A verification counts itself; looking up a missing lineage inserts the empty one. */
    function Verify(a: Option<Agent>): Twin
    {
      var looked := if a.Some? && a.value.card.name in refFps
                    then this.(refLins := refLins[a.value.card.name := Lineage(a.value.card.name)])
                    else this;
      if Accepts(a) then looked.(success := Inc32(success)) else looked.(fail := Inc32(fail))
    }
  }

  /** What a trigger or a pending event makes the manager do. */
  datatype Action =
    | Initialise | Baseline | ScheduleContinuity | SchedulePartition
    | Crash | Migration | Restart | Teardown | Partition
    | Recover | Redeploy | EndScenario | FinalCheck
    | Sample(name: Metrics.SampleName)

  datatype Event = Event(time: real, action: Action)
  {
    predicate Revives() { action == Recover || action == Redeploy }
  }

  /** Scenario name together with its failure type, as shown in the summaries. */
  datatype Scenario =
    | NoScenario | BaselineFailure | NodeCrash | AgentMigration | ProcessRestart | FullTeardown | NetworkPartition

  datatype Summary = Summary(scenario: Scenario, downtime: real, verifications: u32)

  /** When a metric sample was recorded, and what it notes. */
  datatype Mark = Mark(time: real, note: Metrics.Note)

  /** The manager with its share of the simulator and of the metrics collector. twins lists every twin
      ever created; the live one, if any, is the last. */
  datatype State = State(
    now: real, pending: multiset<Event>,
    enterprise: Option<Agent>, twins: seq<Twin>, twinLive: bool, recoveryScheduled: bool,
    scenario: Scenario, failureStart: real, scenarioChecks: u32,
    summaries: seq<Summary>, totalChecks: u32, lastResult: bool, samples: seq<Mark>)

  const FRESH := State(0.0, multiset{}, None, [], false, false, NoScenario, 0.0, 0, [], 0, false, [])

  // ---------- handlers ----------

  /** The name under which the twin registers the enterprise agent. */
  const REGISTERED_NAME := "Aegis-RAN"

  /** What parsing the enterprise agent's identity text yields each time. */
  datatype Anchor = Anchor(card: Card, fingerprint: string)
  {
    function On(host: Host): Agent { Agent(card, fingerprint, host) }

    /** A fresh twin that knows the enterprise agent. */
    function NewTwin(): Twin { Twin(map[], map[], 0, 0).Register(REGISTERED_NAME, fingerprint, card.lineage) }
  }

  /** The anchor of the shipped identity text. */
  function AegisAnchor(digest: string -> Digest): Anchor
  {
    Anchor(Parse(AEGIS_RAN_FULL_DATA), Fingerprint(AEGIS_RAN_FULL_DATA, digest))
  }

  /** Both agents created anew on their home nodes. */
  function Deploy(s: State, anchor: Anchor): State
  {
    s.(twins := s.twins + [anchor.NewTwin()], twinLive := true,
       enterprise := Some(anchor.On(PrimaryEdge)))
  }

  /** Nothing happened to the clock, the queue, the flag or the start of the scenario. */
  ghost predicate SameClock(s: State, t: State)
  {
    && t.now == s.now && t.pending == s.pending
    && t.recoveryScheduled == s.recoveryScheduled && t.failureStart == s.failureStart
  }

  /** Agents and verification counters are as before. */
  ghost predicate SameAgents(s: State, t: State)
  {
    && t.enterprise == s.enterprise && t.twins == s.twins && t.twinLive == s.twinLive
    && t.totalChecks == s.totalChecks && t.lastResult == s.lastResult
  }

  /** The live twin verifies the enterprise agent; the collector counts it too. */
  function Verify(s: State): (r: State)
    ensures SameClock(s, r) && r.enterprise == s.enterprise && r.twinLive == s.twinLive
    ensures r.summaries == s.summaries && r.samples == s.samples
  {
    if !s.twinLive || s.twins == [] then s
    else
      var n := |s.twins| - 1;
      s.(twins := s.twins[n := s.twins[n].Verify(s.enterprise)],
         totalChecks := Inc32(s.totalChecks), lastResult := s.twins[n].Accepts(s.enterprise))
  }

  function Schedule(s: State, delay: real, a: Action): (r: State)
    ensures SameAgents(s, r) && r.samples == s.samples
  {
    s.(pending := s.pending + multiset{Event(s.now + delay, a)})
  }

  /** A metric sample is recorded under the given name. */
  function Record(s: State, name: Metrics.SampleName): (r: State)
    ensures SameClock(s, r) && SameAgents(s, r)
  {
    s.(samples := s.samples + [Mark(s.now, Metrics.Note(name, s.totalChecks, s.lastResult))])
  }

  function StartScenario(s: State, scenario: Scenario): (r: State)
    ensures SameAgents(s, r) && r.samples == s.samples
  {
    s.(scenario := scenario, failureStart := s.now, scenarioChecks := 0)
  }

  function CloseScenario(s: State): (r: State)
    ensures SameClock(s, r) && SameAgents(s, r) && r.samples == s.samples
  {
    var downtime := if s.failureStart > 0.0 then s.now - s.failureStart else 0.0;
    s.(summaries := s.summaries + [Summary(s.scenario, downtime, s.scenarioChecks)])
  }

  function CountedVerify(s: State): (r: State)
    ensures SameClock(s, r) && r.enterprise == s.enterprise && r.twinLive == s.twinLive
    ensures r.summaries == s.summaries && r.samples == s.samples
  {
    Verify(s).(scenarioChecks := Inc32(s.scenarioChecks))
  }

  /** What RecoverFromCrash and RedeploySystem do; they differ in the name of the sample. */
  function Revive(s: State, name: Metrics.SampleName, anchor: Anchor): (r: State)
    ensures SameClock(s.(recoveryScheduled := false), r)
    ensures r.enterprise == Some(anchor.On(PrimaryEdge)) && r.twinLive
  {
    CloseScenario(Record(CountedVerify(Deploy(s.(recoveryScheduled := false), anchor)), name))
  }

  function EnsureAgentsPresent(s: State, anchor: Anchor): State
  {
    if s.enterprise.None? || !s.twinLive then Revive(s, Metrics.CrashRecovery, anchor) else s
  }

  /** Both agents vanish; a revival is scheduled unless one is believed to be. */
  function LoseAgents(s: State, revival: Action): (r: State)
    ensures SameAgents(s.(enterprise := None, twinLive := false), r) && r.samples == s.samples && r.now == s.now
  {
    var lost := s.(enterprise := None, twinLive := false);
    if s.recoveryScheduled then lost else Schedule(lost.(recoveryScheduled := true), 2.0, revival)
  }

  /** The sample names of a move, before and after it. */
  function StartName(scenario: Scenario): Metrics.SampleName
  {
    if scenario == AgentMigration then Metrics.MigrationStart else Metrics.RestartStart
  }

  function SuccessName(scenario: Scenario): Metrics.SampleName
  {
    if scenario == AgentMigration then Metrics.MigrationSuccess else Metrics.RestartSuccess
  }

  /** A migration moves the agent object; a restart creates a new process with the old identity, always on
      the primary edge. Either way the twin verifies the result. */
  function MoveTo(s: State, scenario: Scenario, host: Host, anchor: Anchor): (r: State)
    ensures r.pending == s.pending + multiset{Event(s.now + 1.0, Sample(SuccessName(scenario)))} && r.now == s.now
  {
    var e := Record(EnsureAgentsPresent(StartScenario(s, scenario), anchor), StartName(scenario));
    var moved := CountedVerify(e.(enterprise := Some(e.enterprise.value.(host := host))));
    CloseScenario(Schedule(moved, 1.0, Sample(SuccessName(scenario))))
  }

  function TearDown(s: State, anchor: Anchor): State
  {
    LoseAgents(Record(EnsureAgentsPresent(StartScenario(s, FullTeardown), anchor), Metrics.TeardownStart), Redeploy)
  }

  function Partitioned(s: State): State
  {
    var t := StartScenario(s, NetworkPartition).(twinLive := false);
    var u := Schedule(Schedule(t, 2.5, Sample(Metrics.PartitionMid)), 4.5, Sample(Metrics.PartitionEnd));
    Schedule(u, 5.0, EndScenario)
  }

  function StartBaseline(s: State): State
  {
    var t := StartScenario(s, BaselineFailure);
    Schedule(Schedule(Schedule(t, 5.0, Sample(Metrics.BaselineFailureMid)), 10.0, Sample(Metrics.BaselineFailureEnd)),
             11.0, EndScenario)
  }

  function Planned(s: State): State
  {
    Schedule(Schedule(Schedule(Schedule(s, 20.0, Crash), 25.0, Migration), 30.0, Restart), 35.0, Teardown)
  }

  function Do(s: State, a: Action, anchor: Anchor): State
  {
    match a
    case Initialise => Deploy(s, anchor)
    case Baseline => StartBaseline(s)
    case ScheduleContinuity => Planned(s)
    case SchedulePartition => Schedule(s, 40.0, Partition)
    case Crash => LoseAgents(Record(StartScenario(s, NodeCrash), Metrics.CrashDuring), Recover)
    case Migration => MoveTo(s, AgentMigration, SecondaryEdge, anchor)
    case Restart => MoveTo(s, ProcessRestart, PrimaryEdge, anchor)
    case Teardown => TearDown(s, anchor)
    case Partition => Partitioned(s)
    case Recover => Revive(s, Metrics.CrashRecovery, anchor)
    case Redeploy => Revive(s, Metrics.TeardownRedeploy, anchor)
    case EndScenario => CloseScenario(s)
    case FinalCheck => Record(if s.twinLive && s.enterprise.Some? then Verify(s) else s, Metrics.Final)
    case Sample(name) => Record(s, name)
  }

  // ---------- runs ----------

  /** Triggers may come at any moment; pending events fire in time order. */
  datatype Label = Trigger(action: Action, at: real) | Fire(event: Event)
  {
    function Time(): real { match this case Trigger(_, t) => t case Fire(e) => e.time }

    function Action(): Action { match this case Trigger(a, _) => a case Fire(e) => e.action }
  }

  /** The clock never passes a pending event. */
  ghost predicate Enabled(s: State, l: Label)
  {
    && s.now <= l.Time()
    && (forall e :: e in s.pending ==> l.Time() <= e.time)
    && (l.Fire? ==> l.event in s.pending)
  }

  /** The simulator's part of a step: move the clock, take the fired event off the queue. */
  function Dequeue(s: State, l: Label): State
  {
    match l
    case Trigger(_, t) => s.(now := t)
    case Fire(e) => s.(now := e.time, pending := s.pending - multiset{e})
  }

  function Next(s: State, l: Label, anchor: Anchor): State
  {
    Do(Dequeue(s, l), l.Action(), anchor)
  }

  /** A run that starts with the first initialisation: any triggers, in any order, at any time. */
  ghost predicate IsRun(run: seq<State>, labels: seq<Label>, anchor: Anchor)
  {
    && |run| == |labels| + 1
    && run[0] == Deploy(FRESH, anchor)
    && (forall i :: 0 <= i < |labels| ==> Enabled(run[i], labels[i]) && run[i + 1] == Next(run[i], labels[i], anchor))
  }

  // ---------- invariant: a lost agent is always about to be revived ----------

  ghost predicate RevivalDue(s: State, limit: real)
  {
    exists e :: e in s.pending && e.Revives() && e.time <= limit
  }

  ghost predicate TimerInv(s: State)
  {
    && (forall e :: e in s.pending ==> s.now <= e.time)
    && s.failureStart <= s.now
    && (s.recoveryScheduled ==> RevivalDue(s, s.now + 2.0))
    && (s.enterprise.None? ==> s.recoveryScheduled && RevivalDue(s, s.failureStart + 2.0))
  }

  lemma StillDue(s: State, t: State, limit: real, limit': real)
    requires RevivalDue(s, limit) && limit <= limit'
    requires forall e :: e in s.pending ==> e in t.pending
    ensures RevivalDue(t, limit')
  {
    var e :| e in s.pending && e.Revives() && e.time <= limit;
    assert e in t.pending;
  }

  lemma ScheduleAdds(s: State, delay: real, a: Action)
    requires delay >= 0.0
    ensures forall e :: e in s.pending ==> e in Schedule(s, delay, a).pending
    ensures Event(s.now + delay, a) in Schedule(s, delay, a).pending
    ensures TimerInv(s) ==> TimerInv(Schedule(s, delay, a))
  {
    var t := Schedule(s, delay, a);
    if TimerInv(s) {
      if s.recoveryScheduled { StillDue(s, t, s.now + 2.0, s.now + 2.0); }
      if s.enterprise.None? { StillDue(s, t, s.failureStart + 2.0, s.failureStart + 2.0); }
    }
  }

  lemma StartScenarioKeepsTimer(s: State, scenario: Scenario)
    requires TimerInv(s)
    ensures TimerInv(StartScenario(s, scenario))
  {
    var t := StartScenario(s, scenario);
    if s.recoveryScheduled { StillDue(s, t, s.now + 2.0, s.now + 2.0); }
    if s.enterprise.None? { StillDue(s, t, s.failureStart + 2.0, t.failureStart + 2.0); }
  }

  lemma LoseAgentsKeepsTimer(s: State, revival: Action)
    requires TimerInv(s) && s.failureStart == s.now && (revival == Recover || revival == Redeploy)
    ensures TimerInv(LoseAgents(s, revival))
  {
    var t := LoseAgents(s, revival);
    if s.recoveryScheduled {
      StillDue(s, t, s.now + 2.0, s.now + 2.0);
    } else {
      assert Event(s.now + 2.0, revival) in t.pending;
    }
  }

  lemma ReviveKeepsTimer(s: State, name: Metrics.SampleName, anchor: Anchor)
    requires (forall e :: e in s.pending ==> s.now <= e.time) && s.failureStart <= s.now
    ensures TimerInv(Revive(s, name, anchor)) && Revive(s, name, anchor).enterprise.Some?
    ensures !Revive(s, name, anchor).recoveryScheduled
  {
    hide Revive, CountedVerify, CloseScenario, Verify;
  }

  lemma PlanKeepsTimer(s: State)
    requires TimerInv(s)
    ensures TimerInv(Planned(s))
  {
    hide Schedule, TimerInv;
    ScheduleAdds(s, 20.0, Crash);
    var s1 := Schedule(s, 20.0, Crash);
    ScheduleAdds(s1, 25.0, Migration);
    var s2 := Schedule(s1, 25.0, Migration);
    ScheduleAdds(s2, 30.0, Restart);
    ScheduleAdds(Schedule(s2, 30.0, Restart), 35.0, Teardown);
  }

  lemma EnsureKeepsTimer(s: State, anchor: Anchor)
    requires TimerInv(s)
    ensures TimerInv(EnsureAgentsPresent(s, anchor))
    ensures EnsureAgentsPresent(s, anchor).failureStart == s.failureStart && EnsureAgentsPresent(s, anchor).now == s.now
    ensures EnsureAgentsPresent(s, anchor).enterprise.Some?
  {
    hide Revive, RevivalDue;
    if s.enterprise.None? || !s.twinLive {
      ReviveKeepsTimer(s, Metrics.CrashRecovery, anchor);
    }
  }

  /** Moving a present agent, verifying it and closing the scenario add one sample to the queue and leave the clock
      and the flag alone. */
  lemma MoveKeepsTimer(s: State, scenario: Scenario, host: Host, anchor: Anchor)
    requires TimerInv(s)
    ensures TimerInv(MoveTo(s, scenario, host, anchor))
  {
    hide CountedVerify, CloseScenario, Verify, EnsureAgentsPresent, RevivalDue, SuccessName, StartName;
    StartScenarioKeepsTimer(s, scenario);
    EnsureKeepsTimer(StartScenario(s, scenario), anchor);
    hide StartScenario;
    var e := EnsureAgentsPresent(StartScenario(s, scenario), anchor);
    KeepsDue(e, MoveTo(s, scenario, host, anchor));
  }

  /** A state with a present agent keeps the invariant if nothing due is taken off the queue. */
  lemma KeepsDue(s: State, t: State)
    requires s.now == t.now && s.failureStart == t.failureStart
    requires forall e :: e in s.pending ==> e in t.pending
    requires forall e :: e in t.pending ==> e in s.pending || t.now <= e.time
    requires s.recoveryScheduled == t.recoveryScheduled && t.enterprise.Some? && TimerInv(s)
    ensures TimerInv(t)
  {
    if s.recoveryScheduled { StillDue(s, t, s.now + 2.0, s.now + 2.0); }
  }

  /** Recording a sample changes nothing that the invariant speaks of. */
  lemma RecordKeepsTimer(s: State, name: Metrics.SampleName)
    requires TimerInv(s)
    ensures TimerInv(Record(s, name)) && Record(s, name).failureStart == s.failureStart && Record(s, name).now == s.now
  {
    var t := Record(s, name);
    hide Record;
    if s.recoveryScheduled { StillDue(s, t, s.now + 2.0, s.now + 2.0); }
    if s.enterprise.None? { StillDue(s, t, s.failureStart + 2.0, s.failureStart + 2.0); }
  }

  lemma BaselineKeepsTimer(s: State)
    requires TimerInv(s)
    ensures TimerInv(StartBaseline(s))
  {
    hide Schedule, StartScenario, TimerInv;
    var t := StartScenario(s, BaselineFailure);
    StartScenarioKeepsTimer(s, BaselineFailure);
    ScheduleAdds(t, 5.0, Sample(Metrics.BaselineFailureMid));
    var t1 := Schedule(t, 5.0, Sample(Metrics.BaselineFailureMid));
    ScheduleAdds(t1, 10.0, Sample(Metrics.BaselineFailureEnd));
    ScheduleAdds(Schedule(t1, 10.0, Sample(Metrics.BaselineFailureEnd)), 11.0, EndScenario);
  }

  lemma CrashKeepsTimer(s: State)
    requires TimerInv(s)
    ensures TimerInv(LoseAgents(Record(StartScenario(s, NodeCrash), Metrics.CrashDuring), Recover))
  {
    hide LoseAgents, Record, TimerInv;
    StartScenarioKeepsTimer(s, NodeCrash);
    RecordKeepsTimer(StartScenario(s, NodeCrash), Metrics.CrashDuring);
    LoseAgentsKeepsTimer(Record(StartScenario(s, NodeCrash), Metrics.CrashDuring), Recover);
  }

  lemma DoKeepsTimer(s: State, a: Action, anchor: Anchor)
    requires TimerInv(s)
    ensures TimerInv(Do(s, a, anchor))
  {
    match a {
      case Initialise => KeepsDue(s, Deploy(s, anchor));
      case Baseline => BaselineKeepsTimer(s);
      case ScheduleContinuity => PlanKeepsTimer(s);
      case SchedulePartition => ScheduleAdds(s, 40.0, Partition);
      case Crash => CrashKeepsTimer(s);
      case Migration => MoveKeepsTimer(s, AgentMigration, SecondaryEdge, anchor);
      case Restart => MoveKeepsTimer(s, ProcessRestart, PrimaryEdge, anchor);
      case Teardown => TearDownKeepsTimer(s, anchor);
      case Partition => PartitionKeepsTimer(s);
      case Recover => ReviveKeepsTimer(s, Metrics.CrashRecovery, anchor);
      case Redeploy => ReviveKeepsTimer(s, Metrics.TeardownRedeploy, anchor);
      case EndScenario => CloseKeepsTimer(s);
      case FinalCheck => FinalKeepsTimer(s);
      case Sample(name) => RecordKeepsTimer(s, name);
    }
    hide Revive, CountedVerify, CloseScenario, Verify, MoveTo, TearDown, LoseAgents, EnsureAgentsPresent, Schedule,
         StartScenario, TimerInv, Deploy, Record, Partitioned, StartBaseline, Planned;
  }

  lemma TearDownKeepsTimer(s: State, anchor: Anchor)
    requires TimerInv(s)
    ensures TimerInv(TearDown(s, anchor))
  {
    hide EnsureAgentsPresent, RevivalDue, LoseAgents, TimerInv, Record;
    StartScenarioKeepsTimer(s, FullTeardown);
    EnsureKeepsTimer(StartScenario(s, FullTeardown), anchor);
    var e := EnsureAgentsPresent(StartScenario(s, FullTeardown), anchor);
    RecordKeepsTimer(e, Metrics.TeardownStart);
    LoseAgentsKeepsTimer(Record(e, Metrics.TeardownStart), Redeploy);
  }

  lemma PartitionKeepsTimer(s: State)
    requires TimerInv(s)
    ensures TimerInv(Partitioned(s))
  {
    hide Schedule, StartScenario;
    var t := StartScenario(s, NetworkPartition);
    StartScenarioKeepsTimer(s, NetworkPartition);
    if t.recoveryScheduled { StillDue(t, t.(twinLive := false), t.now + 2.0, t.now + 2.0); }
    if t.enterprise.None? { StillDue(t, t.(twinLive := false), t.failureStart + 2.0, t.failureStart + 2.0); }
    assert TimerInv(t.(twinLive := false));
    hide TimerInv;
    ScheduleAdds(t.(twinLive := false), 2.5, Sample(Metrics.PartitionMid));
    var t1 := Schedule(t.(twinLive := false), 2.5, Sample(Metrics.PartitionMid));
    ScheduleAdds(t1, 4.5, Sample(Metrics.PartitionEnd));
    ScheduleAdds(Schedule(t1, 4.5, Sample(Metrics.PartitionEnd)), 5.0, EndScenario);
  }

  lemma CloseKeepsTimer(s: State)
    requires TimerInv(s)
    ensures TimerInv(CloseScenario(s))
  {
    hide CloseScenario;
    var t := CloseScenario(s);
    if s.recoveryScheduled { StillDue(s, t, s.now + 2.0, s.now + 2.0); }
    if s.enterprise.None? { StillDue(s, t, s.failureStart + 2.0, s.failureStart + 2.0); }
  }

  lemma FinalKeepsTimer(s: State)
    requires TimerInv(s)
    ensures TimerInv(Record(if s.twinLive && s.enterprise.Some? then Verify(s) else s, Metrics.Final))
  {
    hide Verify;
    if s.twinLive && s.enterprise.Some? {
      KeepsDue(s, Verify(s));
      RecordKeepsTimer(Verify(s), Metrics.Final);
    } else {
      RecordKeepsTimer(s, Metrics.Final);
    }
  }

  /** Firing an event that is not a revival, or triggering, leaves every due revival due. */
  lemma NextKeepsTimer(s: State, l: Label, anchor: Anchor)
    requires TimerInv(s) && Enabled(s, l)
    ensures TimerInv(Next(s, l, anchor))
  {
    hide Revive, CountedVerify, CloseScenario, Verify;
    var t := Dequeue(s, l);
    if l.Fire? && l.event.Revives() {
      DoKeepsTimerFired(t, l.event.action, anchor);
    } else {
      if s.recoveryScheduled { DequeueKeepsDue(s, l, s.now + 2.0); StillDue(t, t, s.now + 2.0, t.now + 2.0); }
      if s.enterprise.None? { DequeueKeepsDue(s, l, s.failureStart + 2.0); }
      DoKeepsTimer(t, l.Action(), anchor);
    }
  }

  lemma DoKeepsTimerFired(s: State, a: Action, anchor: Anchor)
    requires (forall e :: e in s.pending ==> s.now <= e.time) && s.failureStart <= s.now
    requires a == Recover || a == Redeploy
    ensures TimerInv(Do(s, a, anchor))
  {
    hide Revive, TimerInv;
    ReviveKeepsTimer(s, if a == Recover then Metrics.CrashRecovery else Metrics.TeardownRedeploy, anchor);
  }

  lemma DequeueKeepsDue(s: State, l: Label, limit: real)
    requires RevivalDue(s, limit) && Enabled(s, l) && !(l.Fire? && l.event.Revives())
    ensures RevivalDue(Dequeue(s, l), limit)
  {
    var e :| e in s.pending && e.Revives() && e.time <= limit;
    assert e in Dequeue(s, l).pending;
  }

  lemma {:induction false} TimerAlways(run: seq<State>, labels: seq<Label>, anchor: Anchor, i: nat)
    requires IsRun(run, labels, anchor) && i < |run|
    ensures TimerInv(run[i])
  {
    if i > 0 {
      TimerAlways(run, labels, anchor, i - 1);
      NextKeepsTimer(run[i - 1], labels[i - 1], anchor);
    }
  }

  // ---------- what a handler does to queue, clock and scenario ----------

  /** A crash or teardown schedules a revival: a crash if the flag is clear, a teardown also if it has just recovered
      missing agents, which clears the flag. */
  predicate AddsRevival(s: State, a: Action)
  {
    (a == Crash && !s.recoveryScheduled)
    || (a == Teardown && (!s.recoveryScheduled || s.enterprise.None? || !s.twinLive))
  }

  /** The events that an action adds to the queue. */
  function Added(s: State, a: Action): multiset<Event>
  {
    match a
    case Baseline =>
      multiset{Event(s.now + 5.0, Sample(Metrics.BaselineFailureMid)),
               Event(s.now + 10.0, Sample(Metrics.BaselineFailureEnd)), Event(s.now + 11.0, EndScenario)}
    case ScheduleContinuity =>
      multiset{Event(s.now + 20.0, Crash), Event(s.now + 25.0, Migration), Event(s.now + 30.0, Restart),
               Event(s.now + 35.0, Teardown)}
    case SchedulePartition => multiset{Event(s.now + 40.0, Partition)}
    case Crash => if AddsRevival(s, a) then multiset{Event(s.now + 2.0, Recover)} else multiset{}
    case Teardown => if AddsRevival(s, a) then multiset{Event(s.now + 2.0, Redeploy)} else multiset{}
    case Migration => multiset{Event(s.now + 1.0, Sample(Metrics.MigrationSuccess))}
    case Restart => multiset{Event(s.now + 1.0, Sample(Metrics.RestartSuccess))}
    case Partition =>
      multiset{Event(s.now + 2.5, Sample(Metrics.PartitionMid)), Event(s.now + 4.5, Sample(Metrics.PartitionEnd)),
               Event(s.now + 5.0, EndScenario)}
    case _ => multiset{}
  }

  /** Actions that start a scenario. */
  predicate Starts(a: Action)
  {
    a == Baseline || a == Crash || a == Migration || a == Restart || a == Teardown || a == Partition
  }

  lemma EnsureKeepsClock(s: State, anchor: Anchor)
    ensures var e := EnsureAgentsPresent(s, anchor);
            && e.pending == s.pending && e.now == s.now && e.failureStart == s.failureStart
            && e.recoveryScheduled == (s.recoveryScheduled && s.enterprise.Some? && s.twinLive)
            && e.enterprise.Some? && e.twinLive
  {
    hide Revive;
  }

  lemma MoveKeepsClock(s: State, scenario: Scenario, host: Host, anchor: Anchor)
    ensures MoveTo(s, scenario, host, anchor).failureStart == s.now
    ensures MoveTo(s, scenario, host, anchor).recoveryScheduled
         == (s.recoveryScheduled && s.enterprise.Some? && s.twinLive)
  {
    hide EnsureAgentsPresent, CountedVerify, CloseScenario, Record;
    EnsureKeepsClock(StartScenario(s, scenario), anchor);
  }

  lemma TearDownAdds(s: State, anchor: Anchor)
    ensures var t := TearDown(s, anchor);
            && t.pending == s.pending + Added(s, Teardown) && t.now == s.now && t.failureStart == s.now
            && t.recoveryScheduled && t.enterprise.None?
  {
    hide EnsureAgentsPresent, Record;
    EnsureKeepsClock(StartScenario(s, FullTeardown), anchor);
    var e := EnsureAgentsPresent(StartScenario(s, FullTeardown), anchor);
    assert e.pending + multiset{} == e.pending;
  }

  lemma ThreeMore(p: multiset<Event>, a: Event, b: Event, c: Event)
    ensures p + multiset{a} + multiset{b} + multiset{c} == p + multiset{a, b, c}
  {
  }

  lemma ThreeScheduled(t: State, d1: real, a1: Action, d2: real, a2: Action, d3: real, a3: Action)
    ensures var r := Schedule(Schedule(Schedule(t, d1, a1), d2, a2), d3, a3);
            && r.pending == t.pending + multiset{Event(t.now + d1, a1), Event(t.now + d2, a2), Event(t.now + d3, a3)}
            && r.now == t.now && r.failureStart == t.failureStart
  {
    var t1 := Schedule(t, d1, a1);
    var t2 := Schedule(t1, d2, a2);
    var t3 := Schedule(t2, d3, a3);
    ScheduleOnly(t, d1, a1);
    ScheduleOnly(t1, d2, a2);
    ScheduleOnly(t2, d3, a3);
    hide Schedule;
    var e1, e2, e3 := Event(t.now + d1, a1), Event(t.now + d2, a2), Event(t.now + d3, a3);
    assert t3.pending == t.pending + multiset{e1} + multiset{e2} + multiset{e3};
    ThreeMore(t.pending, e1, e2, e3);
  }

  lemma BaselineAdds(s: State)
    ensures StartBaseline(s).pending == s.pending + Added(s, Baseline)
    ensures StartBaseline(s).now == s.now == StartBaseline(s).failureStart
  {
    hide Schedule;
    ThreeScheduled(StartScenario(s, BaselineFailure), 5.0, Sample(Metrics.BaselineFailureMid),
                   10.0, Sample(Metrics.BaselineFailureEnd), 11.0, EndScenario);
  }

  lemma PartitionAdds(s: State)
    ensures Partitioned(s).pending == s.pending + Added(s, Partition)
    ensures Partitioned(s).now == s.now == Partitioned(s).failureStart
  {
    hide Schedule;
    ThreeScheduled(StartScenario(s, NetworkPartition).(twinLive := false), 2.5, Sample(Metrics.PartitionMid),
                   4.5, Sample(Metrics.PartitionEnd), 5.0, EndScenario);
  }

  lemma PlanAdds(s: State)
    ensures Planned(s).pending == s.pending + Added(s, ScheduleContinuity)
    ensures Planned(s).now == s.now && Planned(s).failureStart == s.failureStart
  {
    hide Schedule;
    var e1, e2, e3, e4 := Event(s.now + 20.0, Crash), Event(s.now + 25.0, Migration),
                          Event(s.now + 30.0, Restart), Event(s.now + 35.0, Teardown);
    var s1 := Schedule(s, 20.0, Crash);
    var s2 := Schedule(s1, 25.0, Migration);
    var s3 := Schedule(s2, 30.0, Restart);
    ScheduleOnly(s, 20.0, Crash);
    ScheduleOnly(s1, 25.0, Migration);
    ScheduleOnly(s2, 30.0, Restart);
    ScheduleOnly(s3, 35.0, Teardown);
    assert Planned(s).pending == s.pending + multiset{e1} + multiset{e2} + multiset{e3} + multiset{e4};
    FourMore(s.pending, e1, e2, e3, e4);
    PlannedEvents(s);
    hide Planned, Added;
  }

  lemma PlannedEvents(s: State)
    ensures Added(s, ScheduleContinuity)
            == multiset{Event(s.now + 20.0, Crash), Event(s.now + 25.0, Migration), Event(s.now + 30.0, Restart),
                        Event(s.now + 35.0, Teardown)}
  {
  }

  lemma ScheduleOnly(s: State, delay: real, a: Action)
    ensures var t := Schedule(s, delay, a);
            && t.pending == s.pending + multiset{Event(s.now + delay, a)} && t.now == s.now
            && t.failureStart == s.failureStart
  {
  }

  lemma FourMore(p: multiset<Event>, a: Event, b: Event, c: Event, d: Event)
    ensures p + multiset{a} + multiset{b} + multiset{c} + multiset{d} == p + multiset{a, b, c, d}
  {
  }

  /** Actions that schedule nothing. */
  predicate Quiet(a: Action)
  {
    a.Initialise? || a.Recover? || a.Redeploy? || a.EndScenario? || a.FinalCheck? || a.Sample?
  }

  lemma QuietAdds(s: State, a: Action, anchor: Anchor)
    requires Quiet(a)
    ensures Do(s, a, anchor).pending == s.pending + Added(s, a)
    ensures Do(s, a, anchor).now == s.now && Do(s, a, anchor).failureStart == s.failureStart && !Starts(a)
  {
    QuietKeepsQueue(s, a, anchor);
    QuietEvents(s, a);
    hide Do, Added;
  }

  lemma QuietEvents(s: State, a: Action)
    requires Quiet(a)
    ensures s.pending + Added(s, a) == s.pending && !Starts(a)
  {
    assert Added(s, a) == multiset{};
  }

  lemma QuietKeepsQueue(s: State, a: Action, anchor: Anchor)
    requires Quiet(a)
    ensures SameClock(s.(recoveryScheduled := Do(s, a, anchor).recoveryScheduled), Do(s, a, anchor))
  {
    hide Revive, CountedVerify, CloseScenario, Verify, MoveTo, TearDown, Record, StartBaseline, Partitioned, LoseAgents,
         Planned, Schedule, StartScenario;
  }

  lemma PartitionPlanAdds(s: State, anchor: Anchor)
    ensures var t := Do(s, SchedulePartition, anchor);
            t.pending == s.pending + Added(s, SchedulePartition) && t.now == s.now && t.failureStart == s.failureStart
  {
    ScheduleOnly(s, 40.0, Partition);
    hide Schedule;
  }

  lemma MoveAdds(s: State, a: Action, anchor: Anchor)
    requires a == Migration || a == Restart
    ensures var t := Do(s, a, anchor);
            t.pending == s.pending + Added(s, a) && t.now == s.now == t.failureStart
  {
    hide MoveTo;
    MoveKeepsClock(s, AgentMigration, SecondaryEdge, anchor);
    MoveKeepsClock(s, ProcessRestart, PrimaryEdge, anchor);
  }

  lemma CrashAdds(s: State, anchor: Anchor)
    ensures var t := Do(s, Crash, anchor);
            t.pending == s.pending + Added(s, Crash) && t.now == s.now == t.failureStart
  {
    hide Record;
    assert s.pending + multiset{} == s.pending;
  }

  /** Queue, clock and start of the scenario after any action. */
  lemma DoAdds(s: State, a: Action, anchor: Anchor)
    ensures Do(s, a, anchor).pending == s.pending + Added(s, a)
    ensures Do(s, a, anchor).now == s.now
    ensures Do(s, a, anchor).failureStart == if Starts(a) then s.now else s.failureStart
  {
    hide Revive, MoveTo, TearDown, Record, StartBaseline, Partitioned, LoseAgents, Planned, CloseScenario, Verify,
         Deploy, Schedule, StartScenario, Added;
    match a {
      case Teardown => TearDownAdds(s, anchor);
      case Migration => MoveAdds(s, a, anchor);
      case Restart => MoveAdds(s, a, anchor);
      case Baseline => BaselineAdds(s);
      case Partition => PartitionAdds(s);
      case ScheduleContinuity => PlanAdds(s);
      case SchedulePartition => PartitionPlanAdds(s, anchor);
      case Crash => CrashAdds(s, anchor);
      case _ => QuietAdds(s, a, anchor);
    }
  }

  /** The recovery flag after any action. */
  lemma DoFlag(s: State, a: Action, anchor: Anchor)
    ensures Do(s, a, anchor).recoveryScheduled
            == match a
               case Crash => true
               case Teardown => true
               case Recover => false
               case Redeploy => false
               case Migration => s.recoveryScheduled && s.enterprise.Some? && s.twinLive
               case Restart => s.recoveryScheduled && s.enterprise.Some? && s.twinLive
               case _ => s.recoveryScheduled
  {
    hide Revive, CountedVerify, CloseScenario, Verify, MoveTo, TearDown, Record;
    match a {
      case Teardown => TearDownAdds(s, anchor);
      case Migration => MoveKeepsClock(s, AgentMigration, SecondaryEdge, anchor);
      case Restart => MoveKeepsClock(s, ProcessRestart, PrimaryEdge, anchor);
      case _ =>
    }
  }

  /** Handlers add to the queue but take nothing off it. */
  lemma DoKeepsPending(s: State, a: Action, anchor: Anchor)
    ensures forall e :: e in s.pending ==> e in Do(s, a, anchor).pending
  {
    hide Do, Added;
    DoAdds(s, a, anchor);
  }

  /** At every moment of every run: an absent enterprise agent means the flag is set, and the flag means a
      recovery or redeployment is pending within the next two seconds. */
  lemma AbsenceIsScheduled(run: seq<State>, labels: seq<Label>, anchor: Anchor, i: nat)
    requires IsRun(run, labels, anchor) && i < |run|
    ensures run[i].enterprise.None? ==> run[i].recoveryScheduled
    ensures run[i].recoveryScheduled ==>
              exists e :: e in run[i].pending && e.Revives() && run[i].now <= e.time <= run[i].now + 2.0
  {
    TimerAlways(run, labels, anchor, i);
    if run[i].recoveryScheduled {
      var e :| e in run[i].pending && e.Revives() && e.time <= run[i].now + 2.0;
    }
  }

  lemma FiredRevival(s: State, e: Event, anchor: Anchor)
    requires e.Revives()
    ensures Next(s, Fire(e), anchor).enterprise == Some(anchor.On(PrimaryEdge))
    ensures Next(s, Fire(e), anchor).pending == s.pending - multiset{e}
  {
    hide Revive;
  }

  lemma OthersStayPending(s: State, l: Label, anchor: Anchor, e: Event)
    requires e in s.pending && l != Fire(e)
    ensures e in Next(s, l, anchor).pending
  {
    hide Do;
    assert e in Dequeue(s, l).pending;
    DoKeepsPending(Dequeue(s, l), l.Action(), anchor);
  }

  /** A pending revival keeps its place as long as the agent stays absent. */
  lemma {:induction false} RevivalWaits(run: seq<State>, labels: seq<Label>, anchor: Anchor, i: nat, j: nat, e: Event)
    requires IsRun(run, labels, anchor) && i <= j < |run|
    requires forall k :: i <= k <= j ==> run[k].enterprise.None?
    requires e in run[i].pending && e.Revives()
    ensures e in run[j].pending
  {
    hide Next;
    if i < j {
      RevivalWaits(run, labels, anchor, i, j - 1, e);
      var s, l := run[j - 1], labels[j - 1];
      assert run[j] == Next(s, l, anchor) && run[j].enterprise.None?;
      FiredRevival(s, e, anchor);
      assert l != Fire(e);
      OthersStayPending(s, l, anchor, e);
    }
  }

  /** No stretch of any run has the enterprise agent absent for more than 2.0 seconds, the step that ends the absence
      included. */
  lemma OutageBound(run: seq<State>, labels: seq<Label>, anchor: Anchor, i: nat, j: nat)
    requires IsRun(run, labels, anchor) && i <= j < |run|
    requires forall k :: i <= k <= j ==> run[k].enterprise.None?
    ensures run[j].now - run[i].now <= 2.0
    ensures j < |labels| ==> labels[j].Time() - run[i].now <= 2.0
  {
    assert j < |labels| ==> Enabled(run[j], labels[j]);
    TimerAlways(run, labels, anchor, i);
    TimerAlways(run, labels, anchor, j);
    var e :| e in run[i].pending && e.Revives() && e.time <= run[i].now + 2.0;
    RevivalWaits(run, labels, anchor, i, j, e);
  }

  /** A revival that ends an outage reports a downtime between 0 and 2.0 seconds. */
  lemma ReportedDowntime(run: seq<State>, labels: seq<Label>, anchor: Anchor, i: nat)
    requires IsRun(run, labels, anchor) && i < |labels|
    requires run[i].enterprise.None? && labels[i].Fire? && labels[i].event.Revives()
    ensures |run[i + 1].summaries| == |run[i].summaries| + 1
    ensures 0.0 <= run[i + 1].summaries[|run[i].summaries|].downtime <= 2.0
  {
    TimerAlways(run, labels, anchor, i);
    var e :| e in run[i].pending && e.Revives() && e.time <= run[i].failureStart + 2.0;
    assert labels[i].event.time <= e.time;
    assert run[i + 1] == Next(run[i], labels[i], anchor);
  }

  // ---------- invariant: every verification passes ----------

  function SumChecks(twins: seq<Twin>): nat
  {
    if twins == [] then 0 else SumChecks(twins[..|twins| - 1]) + twins[|twins| - 1].TotalChecks()
  }

  /** A twin that knows exactly the enterprise agent and has never failed a check. */
  ghost predicate GoodTwin(t: Twin, anchor: Anchor)
  {
    && t.refFps == anchor.NewTwin().refFps
    && t.refLins == anchor.NewTwin().refLins
    && t.fail == 0
  }

  ghost predicate IdentityInv(s: State, anchor: Anchor)
  {
    && anchor.card.name == REGISTERED_NAME
    && (s.twinLive ==> s.twins != [])
    && (s.enterprise.Some? ==> s.enterprise.value == anchor.On(s.enterprise.value.host))
    && (forall i :: 0 <= i < |s.twins| ==> GoodTwin(s.twins[i], anchor))
    && s.totalChecks == SumChecks(s.twins) % TWO32
    && (s.lastResult || forall i :: 0 <= i < |s.twins| ==> s.twins[i].success == 0)
  }

  lemma GoodTwinAccepts(t: Twin, anchor: Anchor, host: Host)
    requires GoodTwin(t, anchor) && anchor.card.name == REGISTERED_NAME
    ensures t.Accepts(Some(anchor.On(host)))
    ensures t.Verify(Some(anchor.On(host))) == t.(success := Inc32(t.success))
  {
    var lins := t.refLins;
    assert lins[REGISTERED_NAME := lins[REGISTERED_NAME]] == lins;
  }

  lemma DeployKeepsIdentity(s: State, anchor: Anchor)
    requires IdentityInv(s, anchor)
    ensures IdentityInv(Deploy(s, anchor), anchor)
    ensures Deploy(s, anchor).enterprise.Some?
  {
    var t := Deploy(s, anchor);
    assert t.twins[..|t.twins| - 1] == s.twins;
  }

  lemma {:induction false} SumAfterCheck(twins: seq<Twin>, t: Twin)
    requires twins != [] && twins[|twins| - 1].fail == 0
    requires t == twins[|twins| - 1].(success := Inc32(twins[|twins| - 1].success))
    ensures SumChecks(twins[|twins| - 1 := t]) % TWO32 == Inc32(SumChecks(twins) % TWO32)
  {
    var n := |twins| - 1;
    assert twins[n := t][..n] == twins[..n];
    SumLast(twins);
    SumLast(twins[n := t]);
    hide SumChecks, Inc32;
    assert twins[n].TotalChecks() == twins[n].success && t.TotalChecks() == t.success;
    WrappedIncrement(SumChecks(twins[..n]), twins[n].success);
  }

  lemma SumLast(twins: seq<Twin>)
    requires twins != []
    ensures SumChecks(twins) == SumChecks(twins[..|twins| - 1]) + twins[|twins| - 1].TotalChecks()
  {
  }

  lemma WrappedIncrement(a: nat, b: u32)
    ensures (a + Inc32(b)) % TWO32 == Inc32((a + b) % TWO32)
  {
  }

  lemma VerifyKeepsIdentity(s: State, anchor: Anchor)
    requires IdentityInv(s, anchor) && s.enterprise.Some?
    ensures IdentityInv(Verify(s), anchor)
    ensures s.twinLive ==> Verify(s).lastResult
  {
    if s.twinLive {
      var n := |s.twins| - 1;
      GoodTwinAccepts(s.twins[n], anchor, s.enterprise.value.host);
      SumAfterCheck(s.twins, s.twins[n].Verify(s.enterprise));
    }
  }

  lemma ReviveKeepsIdentity(s: State, name: Metrics.SampleName, anchor: Anchor)
    requires IdentityInv(s, anchor)
    ensures IdentityInv(Revive(s, name, anchor), anchor)
  {
    hide IdentityInv, Verify, Deploy, CloseScenario;
    var f := s.(recoveryScheduled := false);
    var d := Deploy(f, anchor);
    SameAgentsKeepIdentity(s, f, anchor);
    DeployKeepsIdentity(f, anchor);
    VerifyKeepsIdentity(d, anchor);
    SameAgentsKeepIdentity(Verify(d), CountedVerify(d), anchor);
    SameAgentsKeepIdentity(CountedVerify(d), Revive(s, name, anchor), anchor);
  }

  lemma SameAgentsKeepIdentity(s: State, t: State, anchor: Anchor)
    requires IdentityInv(s, anchor)
    requires SameAgents(s, t) || SameAgents(s.(twinLive := false), t)
             || SameAgents(s.(enterprise := None, twinLive := false), t)
    ensures IdentityInv(t, anchor)
  {
  }

  lemma EnsureKeepsIdentity(s: State, scenario: Scenario, anchor: Anchor)
    requires IdentityInv(s, anchor)
    ensures IdentityInv(EnsureAgentsPresent(StartScenario(s, scenario), anchor), anchor)
    ensures EnsureAgentsPresent(StartScenario(s, scenario), anchor).twinLive
    ensures EnsureAgentsPresent(StartScenario(s, scenario), anchor).enterprise.Some?
  {
    hide IdentityInv, Revive;
    SameAgentsKeepIdentity(s, StartScenario(s, scenario), anchor);
    ReviveKeepsIdentity(StartScenario(s, scenario), Metrics.CrashRecovery, anchor);
  }

  lemma MoveKeepsIdentity(s: State, scenario: Scenario, host: Host, anchor: Anchor)
    requires IdentityInv(s, anchor)
    ensures IdentityInv(MoveTo(s, scenario, host, anchor), anchor)
  {
    hide CloseScenario, EnsureAgentsPresent, Verify;
    EnsureKeepsIdentity(s, scenario, anchor);
    var e := Record(EnsureAgentsPresent(StartScenario(s, scenario), anchor), StartName(scenario));
    SameAgentsKeepIdentity(EnsureAgentsPresent(StartScenario(s, scenario), anchor), e, anchor);
    hide Record, StartName, SuccessName;
    var moved := e.(enterprise := Some(e.enterprise.value.(host := host)));
    assert IdentityInv(moved, anchor);
    hide IdentityInv;
    VerifyKeepsIdentity(moved, anchor);
    SameAgentsKeepIdentity(Verify(moved), CountedVerify(moved), anchor);
    SameAgentsKeepIdentity(CountedVerify(moved), MoveTo(s, scenario, host, anchor), anchor);
  }

  lemma DoKeepsIdentity(s: State, a: Action, anchor: Anchor)
    requires IdentityInv(s, anchor)
    ensures IdentityInv(Do(s, a, anchor), anchor)
  {
    hide IdentityInv, Revive, MoveTo, Deploy, Verify, EnsureAgentsPresent, LoseAgents, CloseScenario, Schedule,
         StartScenario, Record;
    match a {
      case Initialise => DeployKeepsIdentity(s, anchor);
      case Recover => ReviveKeepsIdentity(s, Metrics.CrashRecovery, anchor);
      case Redeploy => ReviveKeepsIdentity(s, Metrics.TeardownRedeploy, anchor);
      case Migration => MoveKeepsIdentity(s, AgentMigration, SecondaryEdge, anchor);
      case Restart => MoveKeepsIdentity(s, ProcessRestart, PrimaryEdge, anchor);
      case Teardown =>
        EnsureKeepsIdentity(s, FullTeardown, anchor);
        SameAgentsKeepIdentity(EnsureAgentsPresent(StartScenario(s, FullTeardown), anchor), Do(s, a, anchor), anchor);
      case FinalCheck => FinalKeepsIdentity(s, anchor);
      case _ => SameAgentsKeepIdentity(s, Do(s, a, anchor), anchor);
    }
  }

  lemma FinalKeepsIdentity(s: State, anchor: Anchor)
    requires IdentityInv(s, anchor)
    ensures IdentityInv(Do(s, FinalCheck, anchor), anchor)
  {
    hide IdentityInv, Verify, Record;
    if s.twinLive && s.enterprise.Some? {
      VerifyKeepsIdentity(s, anchor);
      SameAgentsKeepIdentity(Verify(s), Record(Verify(s), Metrics.Final), anchor);
    } else {
      SameAgentsKeepIdentity(s, Record(s, Metrics.Final), anchor);
    }
  }

  lemma {:induction false} IdentityAlways(run: seq<State>, labels: seq<Label>, anchor: Anchor, i: nat)
    requires anchor.card.name == REGISTERED_NAME
    requires IsRun(run, labels, anchor) && i < |run|
    ensures IdentityInv(run[i], anchor)
  {
    if i == 0 {
      assert FRESH.twins == [];
      DeployKeepsIdentity(FRESH, anchor);
    } else {
      IdentityAlways(run, labels, anchor, i - 1);
      DoKeepsIdentity(Dequeue(run[i - 1], labels[i - 1]), labels[i - 1].Action(), anchor);
    }
  }

  /** In every state of every run the held agent carries the registered identity, every twin ever created
      would accept it and has never counted a failure, and the collector's counter is the sum of all
      twins' checks (modulo 2^32). */
  lemma IdentityContinuity(run: seq<State>, labels: seq<Label>, anchor: Anchor, i: nat)
    requires anchor.card.name == REGISTERED_NAME
    requires IsRun(run, labels, anchor) && i < |run|
    ensures run[i].enterprise.Some? ==>
              && run[i].enterprise.value == anchor.On(run[i].enterprise.value.host)
              && forall t :: t in run[i].twins ==> t.Accepts(run[i].enterprise)
    ensures forall t :: t in run[i].twins ==> t.fail == 0
    ensures run[i].totalChecks == SumChecks(run[i].twins) % TWO32
    ensures run[i].totalChecks > 0 ==> run[i].lastResult
  {
    IdentityAlways(run, labels, anchor, i);
    var s := run[i];
    if s.enterprise.Some? {
      forall t | t in s.twins ensures t.Accepts(s.enterprise) {
        GoodTwinAccepts(t, anchor, s.enterprise.value.host);
      }
    }
    if !s.lastResult {
      NoChecksYet(s.twins);
    }
  }

  /** The verification inside a revival passes exactly when the parsed agent name is the registered one. */
  lemma VerificationNeedsName(s: State, name: Metrics.SampleName, anchor: Anchor)
    ensures Revive(s, name, anchor).lastResult <==> anchor.card.name == REGISTERED_NAME
  {
    var d := Deploy(s.(recoveryScheduled := false), anchor);
    assert d.twins[|d.twins| - 1] == anchor.NewTwin();
  }

  /** A fresh twin accepts the enterprise agent under its registered name, fingerprint and lineage, and nothing else. */
  lemma AcceptsOnlyRegistered(anchor: Anchor, a: Option<Agent>)
    ensures anchor.NewTwin().Accepts(a)
       <==> && a.Some?
            && a.value.card.name == "Aegis-RAN"
            && a.value.fingerprint == anchor.fingerprint
            && a.value.card.lineage == anchor.card.lineage
  {
  }

  /** Any twin counts a verification once, as a success exactly if the agent has a reference under its name whose
      fingerprint and lineage are its own; a reference without a lineage stands for the empty one. */
  lemma VerifiedOnce(t: Twin, a: Option<Agent>)
    ensures var ok := && a.Some?
                      && a.value.card.name in t.refFps && a.value.fingerprint == t.refFps[a.value.card.name]
                      && a.value.card.lineage == if a.value.card.name in t.refLins then t.refLins[a.value.card.name]
                                                 else "";
            var r := t.Verify(a);
            && t.Accepts(a) == ok
            && r.success == (t.success + if ok then 1 else 0) % TWO32
            && r.fail == (t.fail + if ok then 0 else 1) % TWO32
            && r.refFps == t.refFps
            && forall name :: r.Lineage(name) == t.Lineage(name)
  {
  }

  /** The shipped identity has the registered name, and its lineage is the twin. */
  lemma AegisIsRegistered(digest: string -> Digest)
    ensures AegisAnchor(digest).card.name == REGISTERED_NAME
    ensures AegisAnchor(digest).card.lineage == JMC_ORIGIN.name
  {
    ShippedCards();
  }

  lemma {:induction false} NoChecksYet(twins: seq<Twin>)
    requires forall i :: 0 <= i < |twins| ==> twins[i].success == 0 && twins[i].fail == 0
    ensures SumChecks(twins) == 0
  {
    if twins != [] {
      NoChecksYet(twins[..|twins| - 1]);
    }
  }
}
