/** The books of a run, kept from its labels alone: how often the agent is verified, what every scenario reports and
    which metric samples are recorded. */
module Ledger {
  import opened Common
  import opened Identity
  import opened Continuity
  import opened Timeline
  import Metrics

  // ---------- verifications ----------

  /** A migration, restart or teardown that finds an agent missing recovers first. */
  predicate RecoversFirst(labels: seq<Label>, k: nat)
    requires k < |labels|
  {
    labels[k].Action() in {Migration, Restart, Teardown} && !BothThere(PlacementAfter(labels[..k]))
  }

  function OneIf(b: bool): nat { if b then 1 else 0 }

  /** Verifications that step k makes for its scenario: one for a recovery, redeployment, migration or restart, and one
      more for recovering first. */
  function CountedAt(labels: seq<Label>, k: nat): nat
    requires k < |labels|
  {
    OneIf(labels[k].Action() in {Recover, Redeploy, Migration, Restart}) + OneIf(RecoversFirst(labels, k))
  }

  /** All verifications of step k: the final one belongs to no scenario and needs both agents. */
  function ChecksAt(labels: seq<Label>, k: nat): nat
    requires k < |labels|
  {
    CountedAt(labels, k) + OneIf(labels[k].Action() == FinalCheck && BothThere(PlacementAfter(labels[..k])))
  }

  /** Verifications in the first n steps. */
  function Checks(labels: seq<Label>, n: nat): nat
    requires n <= |labels|
  {
    if n == 0 then 0 else Checks(labels, n - 1) + ChecksAt(labels, n - 1)
  }

  // ---------- scenarios ----------

  /** The scenario that is on after n steps: the last step that started one. */
  function LastStart(labels: seq<Label>, n: nat): (k: Option<nat>)
    requires n <= |labels|
    ensures k.Some? ==> k.value < n && Starts(labels[k.value].Action())
                        && forall m :: k.value < m < n ==> !Starts(labels[m].Action())
    ensures k.None? ==> forall m :: 0 <= m < n ==> !Starts(labels[m].Action())
  {
    if n == 0 then None
    else if Starts(labels[n - 1].Action()) then Some(n - 1)
    else LastStart(labels, n - 1)
  }

  function ScenarioOf(a: Action): Scenario
  {
    match a
    case Baseline => BaselineFailure
    case Crash => NodeCrash
    case Migration => AgentMigration
    case Restart => ProcessRestart
    case Teardown => FullTeardown
    case Partition => NetworkPartition
    case _ => NoScenario
  }

  function ScenarioAt(labels: seq<Label>, n: nat): Scenario
    requires n <= |labels|
  {
    var k := LastStart(labels, n);
    if k.None? then NoScenario else ScenarioOf(labels[k.value].Action())
  }

  function StartAt(labels: seq<Label>, n: nat): real
    requires n <= |labels|
  {
    var k := LastStart(labels, n);
    if k.None? then 0.0 else labels[k.value].Time()
  }

  /** Verifications counted from step i to step n. */
  function Counted(labels: seq<Label>, i: nat, n: nat): nat
    requires i <= n <= |labels|
  {
    if n == i then 0 else Counted(labels, i, n - 1) + CountedAt(labels, n - 1)
  }

  /** Verifications of the scenario that is on, from the step that started it. */
  function CountedSince(labels: seq<Label>, n: nat): nat
    requires n <= |labels|
  {
    var k := LastStart(labels, n);
    if k.None? then Counted(labels, 0, n) else Counted(labels, k.value, n)
  }

  // ---------- reports ----------

  /** A report on the scenario that is on, at time t, with some further verifications. */
  function Report(labels: seq<Label>, k: nat, more: nat): Summary
    requires k < |labels|
  {
    var since := StartAt(labels, k);
    Summary(ScenarioAt(labels, k), if since > 0.0 then labels[k].Time() - since else 0.0,
            (CountedSince(labels, k) + more) % TWO32)
  }

  /** What step k adds to the reports: a recovery or redeployment verifies and then reports on the scenario that is on,
      the end of a scenario reports on it as it is; a migration or restart reports at once on its own, after one
      verification, and recovering first is reported before that. */
  function ReportsAt(labels: seq<Label>, k: nat): seq<Summary>
    requires k < |labels|
  {
    var early := RecoversFirst(labels, k);
    match labels[k].Action()
    case Recover => [Report(labels, k, 1)]
    case Redeploy => [Report(labels, k, 1)]
    case EndScenario => [Report(labels, k, 0)]
    case Migration =>
      if early then [Summary(AgentMigration, 0.0, 1), Summary(AgentMigration, 0.0, 2)]
      else [Summary(AgentMigration, 0.0, 1)]
    case Restart =>
      if early then [Summary(ProcessRestart, 0.0, 1), Summary(ProcessRestart, 0.0, 2)]
      else [Summary(ProcessRestart, 0.0, 1)]
    case Teardown => if early then [Summary(FullTeardown, 0.0, 1)] else []
    case _ => []
  }

  function Reports(labels: seq<Label>, n: nat): seq<Summary>
    requires n <= |labels|
  {
    if n == 0 then [] else Reports(labels, n - 1) + ReportsAt(labels, n - 1)
  }

  // ---------- samples ----------

  /** A sample at the time of step k after c verifications, all of which passed. */
  function Noted(l: Label, name: Metrics.SampleName, c: nat): Mark
  {
    Mark(l.Time(), Metrics.Note(name, c % TWO32, c > 0))
  }

  /** The samples that step k records. */
  function MarksAt(labels: seq<Label>, k: nat): seq<Mark>
    requires k < |labels|
  {
    var l, c, early := labels[k], Checks(labels, k), RecoversFirst(labels, k);
    match l.Action()
    case Recover => [Noted(l, Metrics.CrashRecovery, c + 1)]
    case Redeploy => [Noted(l, Metrics.TeardownRedeploy, c + 1)]
    case Crash => [Noted(l, Metrics.CrashDuring, c)]
    case Migration =>
      if early then [Noted(l, Metrics.CrashRecovery, c + 1), Noted(l, Metrics.MigrationStart, c + 1)]
      else [Noted(l, Metrics.MigrationStart, c)]
    case Restart =>
      if early then [Noted(l, Metrics.CrashRecovery, c + 1), Noted(l, Metrics.RestartStart, c + 1)]
      else [Noted(l, Metrics.RestartStart, c)]
    case Teardown =>
      if early then [Noted(l, Metrics.CrashRecovery, c + 1), Noted(l, Metrics.TeardownStart, c + 1)]
      else [Noted(l, Metrics.TeardownStart, c)]
    case FinalCheck => [Noted(l, Metrics.Final, Checks(labels, k + 1))]
    case Sample(name) => [Noted(l, name, c)]
    case _ => []
  }

  function MarksUpTo(labels: seq<Label>, n: nat): seq<Mark>
    requires n <= |labels|
  {
    if n == 0 then [] else MarksUpTo(labels, n - 1) + MarksAt(labels, n - 1)
  }

  // ---------- what a handler does to the books ----------

  lemma VerifyEffect(s: State, anchor: Anchor)
    requires IdentityInv(s, anchor) && s.enterprise.Some? && s.twinLive
    ensures var r := Verify(s);
            && r.totalChecks == Inc32(s.totalChecks) && r.lastResult && r.scenarioChecks == s.scenarioChecks
            && r.scenario == s.scenario && r.failureStart == s.failureStart
            && r.summaries == s.summaries && r.samples == s.samples && r.now == s.now
  {
    hide Inc32;
    GoodTwinAccepts(s.twins[|s.twins| - 1], anchor, s.enterprise.value.host);
  }

  function Downtime(s: State): real { if s.failureStart > 0.0 then s.now - s.failureStart else 0.0 }

  lemma ReviveEffect(s: State, name: Metrics.SampleName, anchor: Anchor)
    requires IdentityInv(s, anchor)
    ensures var r := Revive(s, name, anchor);
            && r.totalChecks == Inc32(s.totalChecks) && r.lastResult && r.scenarioChecks == Inc32(s.scenarioChecks)
            && r.scenario == s.scenario && r.failureStart == s.failureStart && r.now == s.now
            && r.summaries == s.summaries + [Summary(s.scenario, Downtime(s), Inc32(s.scenarioChecks))]
            && r.samples == s.samples + [Mark(s.now, Metrics.Note(name, Inc32(s.totalChecks), true))]
  {
    var f := s.(recoveryScheduled := false);
    var d := Deploy(f, anchor);
    assert d == f.(twins := d.twins, enterprise := d.enterprise, twinLive := true);
    hide IdentityInv, Inc32, Verify, Deploy;
    SameAgentsKeepIdentity(s, f, anchor);
    DeployKeepsIdentity(f, anchor);
    VerifyEffect(d, anchor);
  }

  ghost predicate Missing(s: State) { s.enterprise.None? || !s.twinLive }

  /** What a migration, restart or teardown finds in the books once both agents are there. */
  lemma EnsureEffect(s: State, scenario: Scenario, anchor: Anchor)
    requires IdentityInv(s, anchor)
    ensures var e := EnsureAgentsPresent(StartScenario(s, scenario), anchor);
            && IdentityInv(e, anchor) && e.twinLive && e.enterprise.Some?
            && e.scenario == scenario && e.failureStart == s.now && e.now == s.now
            && (Missing(s) ==>
                  && e.totalChecks == Inc32(s.totalChecks) && e.lastResult && e.scenarioChecks == 1
                  && e.summaries == s.summaries + [Summary(scenario, 0.0, 1)]
                  && e.samples == s.samples + [Mark(s.now, Metrics.Note(Metrics.CrashRecovery, Inc32(s.totalChecks),
                                                                        true))])
            && (!Missing(s) ==>
                  && e.totalChecks == s.totalChecks && e.lastResult == s.lastResult && e.scenarioChecks == 0
                  && e.summaries == s.summaries && e.samples == s.samples)
  {
    hide IdentityInv, Revive;
    assert Inc32(0) == 1;
    var t := StartScenario(s, scenario);
    SameAgentsKeepIdentity(s, t, anchor);
    EnsureKeepsIdentity(s, scenario, anchor);
    ReviveEffect(t, Metrics.CrashRecovery, anchor);
    hide Inc32;
  }

  lemma MoveEffect(s: State, scenario: Scenario, host: Host, anchor: Anchor)
    requires IdentityInv(s, anchor)
    ensures var e := EnsureAgentsPresent(StartScenario(s, scenario), anchor);
            var r := MoveTo(s, scenario, host, anchor);
            && r.scenario == scenario && r.failureStart == s.now
            && r.totalChecks == Inc32(e.totalChecks) && r.lastResult && r.scenarioChecks == Inc32(e.scenarioChecks)
            && r.summaries == e.summaries + [Summary(scenario, 0.0, Inc32(e.scenarioChecks))]
            && r.samples == e.samples + [Mark(s.now, Metrics.Note(StartName(scenario), e.totalChecks, e.lastResult))]
  {
    EnsureEffect(s, scenario, anchor);
    hide EnsureAgentsPresent, Verify, Inc32, StartName, SuccessName, StartScenario;
    var e := EnsureAgentsPresent(StartScenario(s, scenario), anchor);
    var moved := Record(e, StartName(scenario)).(enterprise := Some(e.enterprise.value.(host := host)));
    assert IdentityInv(moved, anchor);
    hide IdentityInv;
    VerifyEffect(moved, anchor);
  }

  lemma TearDownEffect(s: State, anchor: Anchor)
    requires IdentityInv(s, anchor)
    ensures var e := EnsureAgentsPresent(StartScenario(s, FullTeardown), anchor);
            var r := TearDown(s, anchor);
            && r.scenario == FullTeardown && r.failureStart == s.now
            && r.totalChecks == e.totalChecks && r.lastResult == e.lastResult && r.scenarioChecks == e.scenarioChecks
            && r.summaries == e.summaries
            && r.samples == e.samples + [Mark(s.now, Metrics.Note(Metrics.TeardownStart, e.totalChecks, e.lastResult))]
  {
    EnsureEffect(s, FullTeardown, anchor);
    hide EnsureAgentsPresent, IdentityInv, StartScenario;
  }

  // ---------- the books are right ----------

  /** The state's books after n steps are those kept from the labels. */
  ghost predicate Balanced(s: State, labels: seq<Label>, n: nat)
    requires n <= |labels|
  {
    && s.scenario == ScenarioAt(labels, n) && s.failureStart == StartAt(labels, n)
    && s.scenarioChecks == CountedSince(labels, n) % TWO32
    && s.totalChecks == Checks(labels, n) % TWO32 && (s.lastResult <==> Checks(labels, n) > 0)
    && s.summaries == Reports(labels, n) && s.samples == MarksUpTo(labels, n)
  }

  /** What is known when a handler starts. */
  ghost predicate Opened(s: State, labels: seq<Label>, k: nat, anchor: Anchor)
    requires k < |labels|
  {
    && Balanced(s, labels, k) && IdentityInv(s, anchor) && s.now == labels[k].Time()
    && (Missing(s) <==> !BothThere(PlacementAfter(labels[..k])))
  }

  lemma IncMod(a: nat)
    ensures Inc32(a % TWO32) == (a + 1) % TWO32
  {
  }

  lemma SmallMod()
    ensures 0 % TWO32 == 0 && 1 % TWO32 == 1 && 2 % TWO32 == 2 && Inc32(0) == 1 && Inc32(1) == 2
  {
  }

  /** The scenario of the labels after one more step. */
  lemma ScenarioNext(labels: seq<Label>, k: nat)
    requires k < |labels|
    ensures Starts(labels[k].Action()) ==>
              && ScenarioAt(labels, k + 1) == ScenarioOf(labels[k].Action())
              && StartAt(labels, k + 1) == labels[k].Time()
              && CountedSince(labels, k + 1) == CountedAt(labels, k)
    ensures !Starts(labels[k].Action()) ==>
              && ScenarioAt(labels, k + 1) == ScenarioAt(labels, k)
              && StartAt(labels, k + 1) == StartAt(labels, k)
              && CountedSince(labels, k + 1) == CountedSince(labels, k) + CountedAt(labels, k)
  {
    hide Starts, ScenarioOf, CountedAt;
    assert Counted(labels, k, k) == 0;
  }

  /** What a step that makes c verifications, counted ones of its scenario among them, must do to the books. */
  ghost predicate Books(s: State, t: State, labels: seq<Label>, k: nat, c: nat)
    requires k < |labels|
  {
    && ChecksAt(labels, k) == c
    && t.scenario == ScenarioAt(labels, k + 1) && t.failureStart == StartAt(labels, k + 1)
    && t.scenarioChecks == CountedSince(labels, k + 1) % TWO32
    && t.totalChecks == (Checks(labels, k) + c) % TWO32
    && (t.lastResult <==> Checks(labels, k) + c > 0)
    && t.summaries == s.summaries + ReportsAt(labels, k) && t.samples == s.samples + MarksAt(labels, k)
  }

  lemma BooksAre(s: State, t: State, labels: seq<Label>, k: nat, c: nat, reports: seq<Summary>, marks: seq<Mark>)
    requires k < |labels| && ChecksAt(labels, k) == c
    requires t.scenario == ScenarioAt(labels, k + 1) && t.failureStart == StartAt(labels, k + 1)
    requires t.scenarioChecks == CountedSince(labels, k + 1) % TWO32
    requires t.totalChecks == (Checks(labels, k) + c) % TWO32 && (t.lastResult <==> Checks(labels, k) + c > 0)
    requires ReportsAt(labels, k) == reports && t.summaries == s.summaries + reports
    requires MarksAt(labels, k) == marks && t.samples == s.samples + marks
    ensures Books(s, t, labels, k, c)
  {
    hide ReportsAt, MarksAt, ChecksAt, Checks, CountedSince, ScenarioAt, StartAt;
  }

  lemma BooksBalanceNext(s: State, t: State, labels: seq<Label>, k: nat, c: nat)
    requires k < |labels| && Balanced(s, labels, k) && Books(s, t, labels, k, c)
    ensures Balanced(t, labels, k + 1)
  {
    hide ReportsAt, MarksAt, ChecksAt, CountedSince, ScenarioAt, StartAt;
  }

  lemma ReviveReads(labels: seq<Label>, k: nat)
    requires k < |labels| && labels[k].Action() in {Recover, Redeploy}
    ensures ChecksAt(labels, k) == 1
    ensures ScenarioAt(labels, k + 1) == ScenarioAt(labels, k) && StartAt(labels, k + 1) == StartAt(labels, k)
    ensures CountedSince(labels, k + 1) == CountedSince(labels, k) + 1
    ensures ReportsAt(labels, k) == [Report(labels, k, 1)]
    ensures MarksAt(labels, k) == [Noted(labels[k], ReviveName(labels[k].Action()), Checks(labels, k) + 1)]
  {
    ScenarioNext(labels, k);
    hide ScenarioAt, StartAt, CountedSince, Report, Noted, Checks, PlacementAfter;
  }

  function ReviveName(a: Action): Metrics.SampleName
  {
    if a == Recover then Metrics.CrashRecovery else Metrics.TeardownRedeploy
  }

  /** The books that a handler finds, word by word. */
  lemma OpenedReads(s: State, labels: seq<Label>, k: nat, anchor: Anchor)
    requires k < |labels| && Opened(s, labels, k, anchor)
    ensures s.scenario == ScenarioAt(labels, k) && s.failureStart == StartAt(labels, k)
    ensures s.scenarioChecks == CountedSince(labels, k) % TWO32
    ensures s.totalChecks == Checks(labels, k) % TWO32 && (s.lastResult <==> Checks(labels, k) > 0)
    ensures s.now == labels[k].Time() && IdentityInv(s, anchor)
    ensures Missing(s) <==> !BothThere(PlacementAfter(labels[..k]))
  {
    hide IdentityInv, ScenarioAt, StartAt, CountedSince, Checks, Reports, MarksUpTo, BothThere, PlacementAfter, Missing;
  }

  lemma ReportIs(s: State, labels: seq<Label>, k: nat, more: nat, anchor: Anchor)
    requires k < |labels| && Opened(s, labels, k, anchor)
    ensures Report(labels, k, more) == Summary(s.scenario, Downtime(s), (CountedSince(labels, k) + more) % TWO32)
  {
    OpenedReads(s, labels, k, anchor);
    hide Opened, IdentityInv, ScenarioAt, StartAt, CountedSince, Checks, BothThere, PlacementAfter, Missing;
  }

  lemma NotedIs(s: State, labels: seq<Label>, k: nat, name: Metrics.SampleName, anchor: Anchor)
    requires k < |labels| && Opened(s, labels, k, anchor)
    ensures Noted(labels[k], name, Checks(labels, k)) == Mark(s.now, Metrics.Note(name, s.totalChecks, s.lastResult))
    ensures Noted(labels[k], name, Checks(labels, k) + 1) == Mark(s.now, Metrics.Note(name, Inc32(s.totalChecks), true))
    ensures (Checks(labels, k) + 1) % TWO32 == Inc32(s.totalChecks)
    ensures (Checks(labels, k) + 2) % TWO32 == Inc32(Inc32(s.totalChecks))
  {
    OpenedReads(s, labels, k, anchor);
    IncMod(Checks(labels, k));
    IncMod(Checks(labels, k) + 1);
    hide Opened, IdentityInv, ScenarioAt, StartAt, CountedSince, Checks, BothThere, PlacementAfter, Missing, Inc32;
  }

  /** The same, counted in words as the state counts. */
  lemma ReviveWords(s: State, labels: seq<Label>, k: nat, anchor: Anchor)
    requires k < |labels| && Opened(s, labels, k, anchor) && labels[k].Action() in {Recover, Redeploy}
    ensures CountedSince(labels, k + 1) % TWO32 == Inc32(s.scenarioChecks)
    ensures (Checks(labels, k) + 1) % TWO32 == Inc32(s.totalChecks)
    ensures ReportsAt(labels, k) == [Summary(s.scenario, Downtime(s), Inc32(s.scenarioChecks))]
    ensures MarksAt(labels, k)
            == [Mark(s.now, Metrics.Note(ReviveName(labels[k].Action()), Inc32(s.totalChecks), true))]
    ensures ScenarioAt(labels, k + 1) == s.scenario && StartAt(labels, k + 1) == s.failureStart
  {
    hide *;
    OpenedReads(s, labels, k, anchor);
    ReviveReads(labels, k);
    IncMod(CountedSince(labels, k));
    ReportIs(s, labels, k, 1, anchor);
    NotedIs(s, labels, k, ReviveName(labels[k].Action()), anchor);
  }

  lemma ReviveIs(s: State, a: Action, anchor: Anchor)
    requires a in {Recover, Redeploy}
    ensures Do(s, a, anchor) == Revive(s, ReviveName(a), anchor)
  {
    hide Revive;
  }

  lemma ReviveBalances(s: State, labels: seq<Label>, k: nat, anchor: Anchor)
    requires k < |labels| && Opened(s, labels, k, anchor) && labels[k].Action() in {Recover, Redeploy}
    ensures Books(s, Do(s, labels[k].Action(), anchor), labels, k, 1)
  {
    hide *;
    var a := labels[k].Action();
    ReviveIs(s, a, anchor);
    OpenedReads(s, labels, k, anchor);
    ReviveEffect(s, ReviveName(a), anchor);
    ReviveReads(labels, k);
    ReviveWords(s, labels, k, anchor);
    BooksAre(s, Do(s, a, anchor), labels, k, 1, ReportsAt(labels, k), MarksAt(labels, k));
  }

  /** The sample name before a move. */
  function MoveName(a: Action): Metrics.SampleName
  {
    if a == Migration then Metrics.MigrationStart else Metrics.RestartStart
  }

  lemma MoveCounts(labels: seq<Label>, k: nat)
    requires k < |labels| && labels[k].Action() in {Migration, Restart}
    ensures var early := !BothThere(PlacementAfter(labels[..k]));
            RecoversFirst(labels, k) == early && CountedAt(labels, k) == ChecksAt(labels, k) == if early then 2 else 1
    ensures Starts(labels[k].Action())
  {
    hide BothThere, PlacementAfter;
  }

  lemma MoveReads(labels: seq<Label>, k: nat)
    requires k < |labels| && labels[k].Action() in {Migration, Restart}
    ensures var l, c, early := labels[k], Checks(labels, k), !BothThere(PlacementAfter(labels[..k]));
            var a := l.Action();
            && ChecksAt(labels, k) == (if early then 2 else 1) == CountedSince(labels, k + 1)
            && ScenarioAt(labels, k + 1) == ScenarioOf(a) && StartAt(labels, k + 1) == l.Time()
            && ReportsAt(labels, k) == (if early then [Summary(ScenarioOf(a), 0.0, 1), Summary(ScenarioOf(a), 0.0, 2)]
                                        else [Summary(ScenarioOf(a), 0.0, 1)])
            && MarksAt(labels, k)
               == (if early then [Noted(l, Metrics.CrashRecovery, c + 1), Noted(l, MoveName(a), c + 1)]
                   else [Noted(l, MoveName(a), c)])
  {
    ScenarioNext(labels, k);
    MoveCounts(labels, k);
    hide ScenarioAt, StartAt, CountedSince, Noted, Checks, PlacementAfter, BothThere, RecoversFirst, CountedAt,
         ChecksAt, Starts, Report;
  }

  lemma MoveWords(s: State, labels: seq<Label>, k: nat, anchor: Anchor)
    requires k < |labels| && Opened(s, labels, k, anchor) && labels[k].Action() in {Migration, Restart}
    ensures var name := MoveName(labels[k].Action());
            var scenario, total := ScenarioOf(labels[k].Action()), Inc32(s.totalChecks);
            && (Missing(s) ==>
                  && ChecksAt(labels, k) == 2 && CountedSince(labels, k + 1) % TWO32 == Inc32(1)
                  && (Checks(labels, k) + 2) % TWO32 == Inc32(total)
                  && ReportsAt(labels, k) == [Summary(scenario, 0.0, 1), Summary(scenario, 0.0, Inc32(1))]
                  && MarksAt(labels, k) == [Mark(s.now, Metrics.Note(Metrics.CrashRecovery, total, true)),
                                            Mark(s.now, Metrics.Note(name, total, true))])
            && (!Missing(s) ==>
                  && ChecksAt(labels, k) == 1 && CountedSince(labels, k + 1) % TWO32 == Inc32(0)
                  && (Checks(labels, k) + 1) % TWO32 == total
                  && ReportsAt(labels, k) == [Summary(scenario, 0.0, Inc32(0))]
                  && MarksAt(labels, k) == [Mark(s.now, Metrics.Note(name, s.totalChecks, s.lastResult))])
    ensures ScenarioAt(labels, k + 1) == ScenarioOf(labels[k].Action()) && StartAt(labels, k + 1) == s.now
  {
    hide *;
    OpenedReads(s, labels, k, anchor);
    MoveReads(labels, k);
    NotedIs(s, labels, k, MoveName(labels[k].Action()), anchor);
    NotedIs(s, labels, k, Metrics.CrashRecovery, anchor);
    SmallMod();
  }

  /** What a move does to the books, given what it finds. */
  lemma MoveDoes(s: State, a: Action, anchor: Anchor)
    requires IdentityInv(s, anchor) && a in {Migration, Restart}
    ensures var t, total, scenario := Do(s, a, anchor), Inc32(s.totalChecks), ScenarioOf(a);
            && t.scenario == scenario && t.failureStart == s.now && t.lastResult
            && (Missing(s) ==>
                  && t.scenarioChecks == Inc32(1) && t.totalChecks == Inc32(total)
                  && t.summaries == s.summaries + [Summary(scenario, 0.0, 1), Summary(scenario, 0.0, Inc32(1))]
                  && t.samples == s.samples + [Mark(s.now, Metrics.Note(Metrics.CrashRecovery, total, true)),
                                               Mark(s.now, Metrics.Note(MoveName(a), total, true))])
            && (!Missing(s) ==>
                  && t.scenarioChecks == Inc32(0) && t.totalChecks == total
                  && t.summaries == s.summaries + [Summary(scenario, 0.0, Inc32(0))]
                  && t.samples == s.samples + [Mark(s.now, Metrics.Note(MoveName(a), s.totalChecks, s.lastResult))])
  {
    var scenario := ScenarioOf(a);
    var host := if a == Migration then SecondaryEdge else PrimaryEdge;
    assert StartName(scenario) == MoveName(a) && Do(s, a, anchor) == MoveTo(s, scenario, host, anchor);
    hide *;
    EnsureEffect(s, scenario, anchor);
    MoveEffect(s, scenario, host, anchor);
    var total, name := Inc32(s.totalChecks), MoveName(a);
    if Missing(s) {
      AppendTwo(s.summaries, Summary(scenario, 0.0, 1), Summary(scenario, 0.0, Inc32(1)));
      AppendTwo(s.samples, Mark(s.now, Metrics.Note(Metrics.CrashRecovery, total, true)),
                Mark(s.now, Metrics.Note(name, total, true)));
    }
  }

  lemma AppendTwo<T>(xs: seq<T>, x: T, y: T)
    ensures xs + [x] + [y] == xs + [x, y]
  {
  }

  lemma MoveBalances(s: State, labels: seq<Label>, k: nat, anchor: Anchor)
    requires k < |labels| && Opened(s, labels, k, anchor) && labels[k].Action() in {Migration, Restart}
    ensures Books(s, Do(s, labels[k].Action(), anchor), labels, k, if Missing(s) then 2 else 1)
  {
    hide *;
    var a := labels[k].Action();
    var t := Do(s, a, anchor);
    OpenedReads(s, labels, k, anchor);
    MoveDoes(s, a, anchor);
    MoveWords(s, labels, k, anchor);
    BooksAre(s, t, labels, k, if Missing(s) then 2 else 1, ReportsAt(labels, k), MarksAt(labels, k));
  }

  lemma TearDownCounts(labels: seq<Label>, k: nat)
    requires k < |labels| && labels[k].Action() == Teardown
    ensures var early := !BothThere(PlacementAfter(labels[..k]));
            RecoversFirst(labels, k) == early && CountedAt(labels, k) == ChecksAt(labels, k) == OneIf(early)
  {
    hide BothThere, PlacementAfter;
  }

  lemma TearDownReads(labels: seq<Label>, k: nat)
    requires k < |labels| && labels[k].Action() == Teardown
    ensures var l, c, early := labels[k], Checks(labels, k), !BothThere(PlacementAfter(labels[..k]));
            && ChecksAt(labels, k) == (if early then 1 else 0) == CountedSince(labels, k + 1)
            && ScenarioAt(labels, k + 1) == FullTeardown && StartAt(labels, k + 1) == l.Time()
            && ReportsAt(labels, k) == (if early then [Summary(FullTeardown, 0.0, 1)] else [])
            && MarksAt(labels, k)
               == (if early then [Noted(l, Metrics.CrashRecovery, c + 1), Noted(l, Metrics.TeardownStart, c + 1)]
                   else [Noted(l, Metrics.TeardownStart, c)])
  {
    ScenarioNext(labels, k);
    TearDownCounts(labels, k);
    hide ScenarioAt, StartAt, CountedSince, Noted, Checks, PlacementAfter, BothThere, RecoversFirst, CountedAt,
         ChecksAt;
  }

  lemma TearDownBalances(s: State, labels: seq<Label>, k: nat, anchor: Anchor)
    requires k < |labels| && Opened(s, labels, k, anchor) && labels[k].Action() == Teardown
    ensures Books(s, Do(s, Teardown, anchor), labels, k, if Missing(s) then 1 else 0)
  {
    assert Do(s, Teardown, anchor) == TearDown(s, anchor);
    hide *;
    var t := Do(s, Teardown, anchor);
    OpenedReads(s, labels, k, anchor);
    EnsureEffect(s, FullTeardown, anchor);
    TearDownEffect(s, anchor);
    TearDownReads(labels, k);
    NotedIs(s, labels, k, Metrics.CrashRecovery, anchor);
    NotedIs(s, labels, k, Metrics.TeardownStart, anchor);
    SmallMod();
    var total := Inc32(s.totalChecks);
    AppendTwo(s.samples, Mark(s.now, Metrics.Note(Metrics.CrashRecovery, total, true)),
              Mark(s.now, Metrics.Note(Metrics.TeardownStart, total, true)));
    assert s.summaries + [] == s.summaries;
    BooksAre(s, t, labels, k, if Missing(s) then 1 else 0, ReportsAt(labels, k), MarksAt(labels, k));
  }

  lemma FinalReads(labels: seq<Label>, k: nat)
    requires k < |labels| && labels[k].Action() == FinalCheck
    ensures ChecksAt(labels, k) == OneIf(BothThere(PlacementAfter(labels[..k])))
    ensures ScenarioAt(labels, k + 1) == ScenarioAt(labels, k) && StartAt(labels, k + 1) == StartAt(labels, k)
    ensures CountedSince(labels, k + 1) == CountedSince(labels, k) && ReportsAt(labels, k) == []
    ensures MarksAt(labels, k) == [Noted(labels[k], Metrics.Final, Checks(labels, k) + ChecksAt(labels, k))]
  {
    ScenarioNext(labels, k);
    hide ScenarioAt, StartAt, CountedSince, Report, Noted, PlacementAfter, BothThere;
  }

  lemma FinalBalances(s: State, labels: seq<Label>, k: nat, anchor: Anchor)
    requires k < |labels| && Opened(s, labels, k, anchor) && labels[k].Action() == FinalCheck
    ensures Books(s, Do(s, FinalCheck, anchor), labels, k, OneIf(!Missing(s)))
  {
    if !Missing(s) {
      VerifyEffect(s, anchor);
    }
    FinalReads(labels, k);
    IncMod(Checks(labels, k));
    hide IdentityInv, Inc32, ChecksAt, ScenarioAt, StartAt, CountedSince, BothThere, ReportsAt, MarksAt, Checks,
         Reports, MarksUpTo, PlacementAfter, Verify;
  }

  /** What the other handlers, which verify nothing, report and record. */
  function QuietReports(s: State, a: Action): seq<Summary>
  {
    if a == EndScenario then [Summary(s.scenario, Downtime(s), s.scenarioChecks)] else []
  }

  function QuietMarks(s: State, a: Action): seq<Mark>
  {
    match a
    case Crash => [Mark(s.now, Metrics.Note(Metrics.CrashDuring, s.totalChecks, s.lastResult))]
    case Sample(name) => [Mark(s.now, Metrics.Note(name, s.totalChecks, s.lastResult))]
    case _ => []
  }

  predicate Quiet(a: Action) { a !in {Recover, Redeploy, Migration, Restart, Teardown, FinalCheck} }

  lemma QuietCounts(labels: seq<Label>, k: nat)
    requires k < |labels| && Quiet(labels[k].Action())
    ensures var a := labels[k].Action();
            && ChecksAt(labels, k) == 0
            && ScenarioAt(labels, k + 1) == (if Starts(a) then ScenarioOf(a) else ScenarioAt(labels, k))
            && StartAt(labels, k + 1) == (if Starts(a) then labels[k].Time() else StartAt(labels, k))
            && CountedSince(labels, k + 1) == (if Starts(a) then 0 else CountedSince(labels, k))
  {
    ScenarioNext(labels, k);
    hide ScenarioAt, StartAt, CountedSince, PlacementAfter, BothThere;
  }

  lemma QuietReads(s: State, labels: seq<Label>, k: nat, anchor: Anchor)
    requires k < |labels| && Opened(s, labels, k, anchor) && Quiet(labels[k].Action())
    ensures ReportsAt(labels, k) == QuietReports(s, labels[k].Action())
    ensures MarksAt(labels, k) == QuietMarks(s, labels[k].Action())
  {
    var a := labels[k].Action();
    ReportIs(s, labels, k, 0, anchor);
    OpenedReads(s, labels, k, anchor);
    NotedIs(s, labels, k, if a.Sample? then a.name else Metrics.CrashDuring, anchor);
    hide Opened, Report, Noted, PlacementAfter, BothThere, Checks, Downtime, IdentityInv;
  }

  lemma StartEffect(s: State, a: Action, anchor: Anchor)
    requires a in {Baseline, Partition, Crash}
    ensures var t := Do(s, a, anchor);
            && t.totalChecks == s.totalChecks && t.lastResult == s.lastResult
            && t.scenario == ScenarioOf(a) && t.failureStart == s.now && t.scenarioChecks == 0
            && t.summaries == s.summaries
  {
    match a {
      case Baseline => assert Do(s, a, anchor) == StartBaseline(s); hide Do;
      case Partition => assert Do(s, a, anchor) == Partitioned(s); hide Do;
      case Crash => hide Partitioned, StartBaseline;
    }
  }

  lemma QuietEffect(s: State, a: Action, anchor: Anchor)
    requires Quiet(a) && !Starts(a)
    ensures var t := Do(s, a, anchor);
            && t.totalChecks == s.totalChecks && t.lastResult == s.lastResult
            && t.scenario == s.scenario && t.failureStart == s.failureStart && t.scenarioChecks == s.scenarioChecks
            && t.summaries == s.summaries + QuietReports(s, a)
  {
    hide Verify, Revive, MoveTo, TearDown, Partitioned, StartBaseline, LoseAgents;
    assert s.summaries + [] == s.summaries;
  }

  lemma QuietSamples(s: State, a: Action, anchor: Anchor)
    requires Quiet(a)
    ensures Do(s, a, anchor).samples == s.samples + QuietMarks(s, a)
  {
    hide Verify, Revive, MoveTo, TearDown;
    assert s.samples + [] == s.samples;
  }

  lemma StartBalances(s: State, labels: seq<Label>, k: nat, anchor: Anchor)
    requires k < |labels| && Opened(s, labels, k, anchor) && labels[k].Action() in {Baseline, Partition, Crash}
    ensures Books(s, Do(s, labels[k].Action(), anchor), labels, k, 0)
  {
    var a := labels[k].Action();
    assert Starts(a) && Quiet(a) && QuietReports(s, a) == [];
    hide *;
    OpenedReads(s, labels, k, anchor);
    StartEffect(s, a, anchor);
    QuietSamples(s, a, anchor);
    QuietCounts(labels, k);
    QuietReads(s, labels, k, anchor);
    SmallMod();
    assert s.summaries + [] == s.summaries;
    BooksAre(s, Do(s, a, anchor), labels, k, 0, QuietReports(s, a), QuietMarks(s, a));
  }

  lemma QuietBalances(s: State, labels: seq<Label>, k: nat, anchor: Anchor)
    requires k < |labels| && Opened(s, labels, k, anchor)
    requires Quiet(labels[k].Action()) && !Starts(labels[k].Action())
    ensures Books(s, Do(s, labels[k].Action(), anchor), labels, k, 0)
  {
    var a := labels[k].Action();
    hide *;
    OpenedReads(s, labels, k, anchor);
    QuietEffect(s, a, anchor);
    QuietSamples(s, a, anchor);
    QuietCounts(labels, k);
    QuietReads(s, labels, k, anchor);
    BooksAre(s, Do(s, a, anchor), labels, k, 0, QuietReports(s, a), QuietMarks(s, a));
  }

  lemma DoBalances(s: State, labels: seq<Label>, k: nat, anchor: Anchor)
    requires k < |labels| && Opened(s, labels, k, anchor)
    ensures Balanced(Do(s, labels[k].Action(), anchor), labels, k + 1)
  {
    var a := labels[k].Action();
    assert Balanced(s, labels, k);
    assert Quiet(a) || a in {Recover, Redeploy} || a in {Migration, Restart} || a == Teardown || a == FinalCheck;
    assert Quiet(a) && Starts(a) ==> a in {Baseline, Partition, Crash};
    hide *;
    var t := Do(s, a, anchor);
    var c := if a in {Recover, Redeploy} then 1
             else if a in {Migration, Restart} then (if Missing(s) then 2 else 1)
             else if a == Teardown then (if Missing(s) then 1 else 0)
             else if a == FinalCheck then OneIf(!Missing(s))
             else 0;
    assert Books(s, t, labels, k, c) by {
      if a in {Recover, Redeploy} {
        ReviveBalances(s, labels, k, anchor);
      } else if a in {Migration, Restart} {
        MoveBalances(s, labels, k, anchor);
      } else if a == Teardown {
        TearDownBalances(s, labels, k, anchor);
      } else if a == FinalCheck {
        FinalBalances(s, labels, k, anchor);
      } else if Starts(a) {
        StartBalances(s, labels, k, anchor);
      } else {
        QuietBalances(s, labels, k, anchor);
      }
    }
    BooksBalanceNext(s, t, labels, k, c);
  }

  /** The clock moves and an event is taken off the queue, nothing more. */
  lemma DequeueKeepsBooks(s: State, labels: seq<Label>, k: nat)
    requires k < |labels| && Balanced(s, labels, k)
    ensures Balanced(Dequeue(s, labels[k]), labels, k) && SameAgents(s, Dequeue(s, labels[k]))
    ensures Dequeue(s, labels[k]).now == labels[k].Time()
  {
    var t := Dequeue(s, labels[k]);
    assert t == s.(now := t.now, pending := t.pending) && t.now == labels[k].Time();
    hide Reports, MarksUpTo, Checks, CountedSince, ScenarioAt, StartAt, Dequeue;
  }

  lemma OpensAfter(s: State, labels: seq<Label>, k: nat, anchor: Anchor)
    requires k < |labels| && Balanced(s, labels, k) && IdentityInv(s, anchor)
    requires PlacementOf(s) == PlacementAfter(labels[..k])
    ensures Opened(Dequeue(s, labels[k]), labels, k, anchor)
  {
    assert Missing(s) <==> !BothThere(PlacementOf(s));
    var t := Dequeue(s, labels[k]);
    hide PlacementAfter, PlacementOf, IdentityInv, Balanced, BothThere, Dequeue;
    DequeueKeepsBooks(s, labels, k);
    assert Missing(t) == Missing(s);
    hide Missing, SameAgents;
    SameAgentsKeepIdentity(s, t, anchor);
  }

  /** In every state of every run the books are those that the labels give: the verifications made, those of the
      scenario that is on, every report on a scenario and every sample. */
  lemma {:induction false} BooksBalance(run: seq<State>, labels: seq<Label>, anchor: Anchor, i: nat)
    requires anchor.card.name == REGISTERED_NAME
    requires IsRun(run, labels, anchor) && i < |run|
    ensures i <= |labels| && Balanced(run[i], labels, i)
  {
    RunLength(run, labels, anchor);
    if i > 0 {
      RunStep(run, labels, anchor, i - 1);
      BooksBalance(run, labels, anchor, i - 1);
      IdentityAlways(run, labels, anchor, i - 1);
      PlacementFollowsActions(run, labels, anchor, i - 1);
      hide Do, Balanced, IdentityInv, IsRun, PlacementAfter, Enabled, Opened;
      OpensAfter(run[i - 1], labels, i - 1, anchor);
      DoBalances(Dequeue(run[i - 1], labels[i - 1]), labels, i - 1, anchor);
    } else {
      SmallMod();
    }
  }

  /** Verifications that an action makes when the agents are there, and when one of them is missing. */
  function Verifications(a: Action, there: bool): nat
  {
    match a
    case Recover => 1
    case Redeploy => 1
    case Migration => if there then 1 else 2
    case Restart => if there then 1 else 2
    case Teardown => if there then 0 else 1
    case FinalCheck => if there then 1 else 0
    case _ => 0
  }

  lemma ChecksAtIs(labels: seq<Label>, k: nat)
    requires k < |labels|
    ensures ChecksAt(labels, k) == Verifications(labels[k].Action(), BothThere(PlacementAfter(labels[..k])))
    ensures Checks(labels, k + 1) == Checks(labels, k) + ChecksAt(labels, k)
  {
    hide PlacementAfter, BothThere;
  }

  lemma AddMod(a: nat, b: nat)
    ensures (a % TWO32 + b) % TWO32 == (a + b) % TWO32
  {
  }

  /** The collector's counter, the reports and the samples are those that the labels give. */
  lemma BooksRead(run: seq<State>, labels: seq<Label>, anchor: Anchor, i: nat)
    requires anchor.card.name == REGISTERED_NAME
    requires IsRun(run, labels, anchor) && i < |run|
    ensures i <= |labels| && run[i].totalChecks == Checks(labels, i) % TWO32
    ensures run[i].summaries == Reports(labels, i) && run[i].samples == MarksUpTo(labels, i)
  {
    BooksBalance(run, labels, anchor, i);
    hide IsRun, Checks, ScenarioAt, StartAt, CountedSince, Reports, MarksUpTo;
  }

  lemma ThereIs(s: State)
    ensures BothThere(PlacementOf(s)) <==> s.enterprise.Some? && s.twinLive
  {
  }

  /** Step by step: a step of a run adds just the verifications of its action to the collector's counter. */
  lemma StepVerifies(run: seq<State>, labels: seq<Label>, anchor: Anchor, k: nat)
    requires anchor.card.name == REGISTERED_NAME
    requires IsRun(run, labels, anchor) && k < |labels| && k + 1 < |run|
    ensures var there := run[k].enterprise.Some? && run[k].twinLive;
            run[k + 1].totalChecks == (run[k].totalChecks + Verifications(labels[k].Action(), there)) % TWO32
  {
    hide *;
    BooksRead(run, labels, anchor, k);
    BooksRead(run, labels, anchor, k + 1);
    PlacementFollowsActions(run, labels, anchor, k);
    ThereIs(run[k]);
    ChecksAtIs(labels, k);
    AddMod(Checks(labels, k), ChecksAt(labels, k));
  }

  /** A verification is counted whoever is verified. */
  lemma VerifyCounts(s: State)
    requires s.twinLive && s.twins != []
    ensures var r := CountedVerify(s);
            && r.totalChecks == Inc32(s.totalChecks) && r.scenarioChecks == Inc32(s.scenarioChecks)
            && r.scenario == s.scenario && r.failureStart == s.failureStart && r.twins != []
  {
    hide Inc32, Twin.Verify, Twin.Accepts;
  }

  lemma PresentAfter(s: State, scenario: Scenario, anchor: Anchor)
    requires s.twinLive ==> s.twins != []
    ensures var e := EnsureAgentsPresent(StartScenario(s, scenario), anchor);
            && e.enterprise.Some? && e.twinLive && e.twins != [] && e.scenario == scenario && e.failureStart == e.now
            && e.scenarioChecks == (if Missing(s) then Inc32(0) else 0)
            && e.totalChecks == (if Missing(s) then Inc32(s.totalChecks) else s.totalChecks)
  {
    if Missing(s) {
      var d := Deploy(StartScenario(s, scenario).(recoveryScheduled := false), anchor);
      assert d.twins != [] && d.twinLive && d.totalChecks == s.totalChecks && d.scenarioChecks == 0;
      VerifyCounts(d);
    }
    hide CountedVerify, Inc32, Deploy;
  }

  /** The agent has been moved to the host and verified, and the scenario is reported with one verification if both
      agents were there before, with two if one had to be recovered first. */
  ghost predicate Moved(s: State, t: State, scenario: Scenario, host: Host)
  {
    var n := if s.enterprise.Some? && s.twinLive then 1 else 2;
    && t.totalChecks == (s.totalChecks + n) % TWO32
    && t.summaries != [] && t.summaries[|t.summaries| - 1] == Summary(scenario, 0.0, n)
    && t.enterprise.Some? && t.enterprise.value.host == host
  }

  lemma MoveToVerifies(s: State, scenario: Scenario, host: Host, anchor: Anchor)
    requires s.twinLive ==> s.twins != []
    ensures Moved(s, MoveTo(s, scenario, host, anchor), scenario, host)
  {
    PresentAfter(s, scenario, anchor);
    hide EnsureAgentsPresent, StartScenario;
    var e := EnsureAgentsPresent(StartScenario(s, scenario), anchor);
    MovedCounts(e, scenario, host);
    hide CountedVerify, StartName, SuccessName, Inc32;
    SmallMod();
    IncMod(s.totalChecks);
    IncMod(s.totalChecks + 1);
  }

  /** The check of the moved agent. */
  lemma MovedCounts(e: State, scenario: Scenario, host: Host)
    requires e.enterprise.Some? && e.twinLive && e.twins != [] && e.scenario == scenario
    ensures var r := Record(e, StartName(scenario));
            var m := CountedVerify(r.(enterprise := Some(r.enterprise.value.(host := host))));
            && m.totalChecks == Inc32(e.totalChecks) && m.scenarioChecks == Inc32(e.scenarioChecks)
            && m.scenario == scenario && m.failureStart == e.failureStart && m.now == e.now
  {
    hide CountedVerify, StartName, Inc32;
    var r := Record(e, StartName(scenario));
    VerifyCounts(r.(enterprise := Some(r.enterprise.value.(host := host))));
  }

  /** A migration or restart verifies, and reports at once. */
  lemma MoveVerifies(s: State, a: Action, anchor: Anchor)
    requires a in {Migration, Restart} && (s.twinLive ==> s.twins != [])
    ensures a == Migration ==> Moved(s, Do(s, a, anchor), AgentMigration, SecondaryEdge)
    ensures a == Restart ==> Moved(s, Do(s, a, anchor), ProcessRestart, PrimaryEdge)
  {
    hide MoveTo, Moved;
    MoveToVerifies(s, AgentMigration, SecondaryEdge, anchor);
    MoveToVerifies(s, ProcessRestart, PrimaryEdge, anchor);
  }
}
