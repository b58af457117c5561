/** The simulation manager and its agents as objects, proved against the functions of Continuity. */
module SimulationManagers {
  import opened Common
  import opened Identity
  import opened Continuity
  import Ledger
  import Metrics
  import Timeline

  /** The simulator's clock and event queue, as far as the manager uses them. */
  class Simulator {
    var now: real
    var pending: multiset<Event>

    constructor ()
      ensures now == 0.0 && pending == multiset{}
    {
      now, pending := 0.0, multiset{};
    }

    /** Delays are relative to the current time. */
    method Schedule(delay: real, action: Action)
      modifies `pending
      ensures pending == old(pending) + multiset{Event(now + delay, action)}
    {
      pending := pending + multiset{Event(now + delay, action)};
    }
  }

  class EnterpriseAgent {
    const m_card: Card
    const m_fingerprint: string
    var m_hostNode: Host

    function Value(): Agent
      reads this
    {
      Agent(m_card, m_fingerprint, m_hostNode)
    }

    constructor (host: Host, card: Card, fingerprint: string)
      ensures Value() == Agent(card, fingerprint, host)
    {
      m_card, m_fingerprint, m_hostNode := card, fingerprint, host;
    }

    method Migrate(newNode: Host)
      modifies this
      ensures Value() == old(Value()).(host := newNode)
    {
      m_hostNode := newNode;
    }
  }

  class TwinAgent {
    var m_refFingerprints: map<string, string>
    var m_refLineages: map<string, string>
    var m_success: u32
    var m_fail: u32
    const m_metrics: Metrics.RealMetricsCollector

    function Value(): Twin
      reads this
    {
      Twin(m_refFingerprints, m_refLineages, m_success, m_fail)
    }

    constructor (metrics: Metrics.RealMetricsCollector)
      ensures Value() == Twin(map[], map[], 0, 0) && m_metrics == metrics
    {
      m_refFingerprints, m_refLineages, m_success, m_fail, m_metrics := map[], map[], 0, 0, metrics;
    }

    method RegisterReference(name: string, fp: string, lin: string)
      modifies this
      ensures Value() == old(Value()).Register(name, fp, lin)
    {
      m_refFingerprints := m_refFingerprints[name := fp];
      m_refLineages := m_refLineages[name := lin];
    }

    method VerifyAgentContinuity(agent: EnterpriseAgent?) returns (ok: bool)
      modifies this, m_metrics`m_totalVerificationEvents, m_metrics`m_lastVerificationResult
      ensures var a := if agent == null then None else Some(agent.Value());
              && ok == old(Value()).Accepts(a)
              && Value() == old(Value()).Verify(a)
      ensures m_metrics.m_totalVerificationEvents == Inc32(old(m_metrics.m_totalVerificationEvents))
      ensures m_metrics.m_lastVerificationResult == ok
    {
      hide Inc32;
      if agent == null || agent.m_card.name !in m_refFingerprints {
        m_fail := Inc32(m_fail);
        m_metrics.IncVerificationEvents(false);
        return false;
      }
      var name := agent.m_card.name;
      if name !in m_refLineages {
        m_refLineages := m_refLineages[name := ""];
      } else {
        assert m_refLineages[name := m_refLineages[name]] == m_refLineages;
      }
      ok := agent.m_fingerprint == m_refFingerprints[name] && agent.m_card.lineage == m_refLineages[name];
      if ok {
        m_success := Inc32(m_success);
      } else {
        m_fail := Inc32(m_fail);
      }
      m_metrics.IncVerificationEvents(ok);
    }
  }

  class SimulationManager {
    var m_enterprise: EnterpriseAgent?
    var m_twin: TwinAgent?
    var m_recoveryScheduled: bool
    var m_scenario: Scenario
    var m_failureStartTime: real
    var m_verificationEventsDuringScenario: u32
    var summaries: seq<Summary>
    const simulator: Simulator
    const m_metrics: Metrics.RealMetricsCollector
    const digest: string -> Digest
    ghost var twins: seq<TwinAgent>

    /** The live twin is the newest of the twins ever created, and all are different objects; the collector is ready
        to take a sample. */
    ghost predicate Valid()
      reads this, simulator, m_metrics, m_metrics.m_dlSinks, m_metrics.m_ulSinks
    {
      && (m_twin != null ==> twins != [] && m_twin == twins[|twins| - 1])
      && (forall i, j :: 0 <= i < j < |twins| ==> twins[i] != twins[j])
      && (forall i :: 0 <= i < |twins| ==> twins[i].m_metrics == m_metrics)
      && m_metrics.Counting(simulator.now)
    }

    /** When the recorded samples were taken, and what they note. */
    ghost function Marks(): (r: seq<Mark>)
      reads m_metrics`m_metrics
      ensures |r| == |m_metrics.m_metrics|
      ensures forall i :: 0 <= i < |r| ==> r[i] == Mark(m_metrics.m_metrics[i].timestamp, m_metrics.m_metrics[i].note)
    {
      var samples := m_metrics.m_metrics;
      seq(|samples|, i requires 0 <= i < |samples| => Mark(samples[i].timestamp, samples[i].note))
    }

    /** The agents held are the old ones or new objects. */
    twostate predicate OwnAgents()
      reads this
    {
      && (m_enterprise == null || m_enterprise == old(m_enterprise) || fresh(m_enterprise))
      && (m_twin == null || m_twin == old(m_twin) || fresh(m_twin))
    }

    ghost function TwinValues(): (r: seq<Twin>)
      reads this, twins
      ensures |r| == |twins| && forall i :: 0 <= i < |r| ==> r[i] == twins[i].Value()
    {
      seq(|twins|, i requires 0 <= i < |twins| reads this, twins => twins[i].Value())
    }

    ghost function Abs(): State
      reads this, simulator, m_metrics, m_enterprise, twins
    {
      State(simulator.now, simulator.pending,
            if m_enterprise == null then None else Some(m_enterprise.Value()),
            TwinValues(), m_twin != null, m_recoveryScheduled,
            m_scenario, m_failureStartTime, m_verificationEventsDuringScenario,
            summaries, m_metrics.m_totalVerificationEvents, m_metrics.m_lastVerificationResult, Marks())
    }

    /** What the identity texts parse to under this manager's hash. */
    ghost function Home(): Anchor { AegisAnchor(digest) }

    /** What the abstraction says of the objects. */
    lemma ReadAbs()
      requires Valid()
      ensures var s := Abs();
              && (s.enterprise.Some? <==> m_enterprise != null) && (s.twinLive <==> m_twin != null)
              && (m_enterprise != null ==> s.enterprise.value.host == m_enterprise.m_hostNode)
              && (s.twinLive ==> s.twins != [])
              && s.summaries == summaries && s.totalChecks == m_metrics.m_totalVerificationEvents
              && s.samples == Marks()
    {
      hide Marks;
    }

    lemma MoveFacts(a: Action)
      requires Valid() && (a == Migration || a == Restart)
      ensures a == Migration ==> Ledger.Moved(Abs(), Do(Abs(), a, Home()), AgentMigration, SecondaryEdge)
      ensures a == Restart ==> Ledger.Moved(Abs(), Do(Abs(), a, Home()), ProcessRestart, PrimaryEdge)
    {
      hide Abs, Valid, Ledger.Moved, Do, AegisAnchor;
      ReadAbs();
      Ledger.MoveVerifies(Abs(), a, Home());
    }

    constructor (simulator: Simulator, metrics: Metrics.RealMetricsCollector, digest: string -> Digest)
      requires metrics.Counting(simulator.now)
      ensures Valid() && this.simulator == simulator && m_metrics == metrics && this.digest == digest
      ensures Abs() == FRESH.(now := simulator.now, pending := simulator.pending,
                              totalChecks := metrics.m_totalVerificationEvents,
                              lastResult := metrics.m_lastVerificationResult, samples := Marks())
    {
      m_enterprise, m_twin, m_recoveryScheduled := null, null, false;
      m_scenario, m_failureStartTime, m_verificationEventsDuringScenario, summaries := NoScenario, 0.0, 0, [];
      this.simulator, this.m_metrics, this.digest := simulator, metrics, digest;
      twins := [];
    }

    // ---------- shared steps ----------

    method ScheduleAfter(delay: real, action: Action)
      requires Valid()
      modifies simulator
      ensures Valid() && Abs() == Schedule(old(Abs()), delay, action) && OwnAgents()
    {
      hide Metrics.RealMetricsCollector.Counting, Marks;
      simulator.Schedule(delay, action);
      assert TwinValues() == old(TwinValues());
    }

    method BeginScenario(scenario: Scenario)
      requires Valid()
      modifies `m_scenario, `m_failureStartTime, `m_verificationEventsDuringScenario
      ensures Valid() && Abs() == StartScenario(old(Abs()), scenario) && OwnAgents()
    {
      m_scenario := scenario;
      m_failureStartTime := simulator.now;
      m_verificationEventsDuringScenario := 0;
      assert TwinValues() == old(TwinValues());
    }

    method FinishScenario()
      requires Valid()
      modifies `summaries
      ensures Valid() && Abs() == CloseScenario(old(Abs())) && OwnAgents()
    {
      var downtime := if m_failureStartTime > 0.0 then simulator.now - m_failureStartTime else 0.0;
      summaries := summaries + [Summary(m_scenario, downtime, m_verificationEventsDuringScenario)];
      assert TwinValues() == old(TwinValues());
    }

    /** The enterprise agent's identity, parsed from its text. */
    method ReadIdentity() returns (id: ImmortalIdentity)
      ensures fresh(id) && Anchor(id.fields, id.m_fingerprint) == Home()
    {
      hide Parse, Fingerprint;
      id := new ImmortalIdentity(AEGIS_RAN_FULL_DATA, digest);
    }

    /** Both agents are created anew from the identity texts, and the twin learns the reference. */
    method NewAgents() returns (agent: EnterpriseAgent, twin: TwinAgent)
      ensures fresh(agent) && agent.Value() == Home().On(PrimaryEdge)
      ensures fresh(twin) && twin.m_metrics == m_metrics && twin.Value() == Home().NewTwin()
    {
      hide AegisAnchor;
      var entId := ReadIdentity();
      twin := new TwinAgent(m_metrics);
      agent := new EnterpriseAgent(PrimaryEdge, entId.fields, entId.m_fingerprint);
      twin.RegisterReference(REGISTERED_NAME, entId.m_fingerprint, entId.fields.lineage);
    }

    /** The new agents become the ones held; the twin joins the list of all twins. */
    method InitializeAgents()
      requires Valid()
      modifies `m_enterprise, `m_twin, `twins
      ensures Valid() && Abs() == Deploy(old(Abs()), Home()) && OwnAgents()
      ensures m_enterprise != null && fresh(m_enterprise) && m_twin != null && fresh(m_twin)
    {
      hide AegisAnchor, Metrics.RealMetricsCollector.Counting, Marks;
      ghost var before := TwinValues();
      m_enterprise, m_twin := NewAgents();
      twins := twins + [m_twin];
      assert TwinValues() == before + [Home().NewTwin()];
    }

    /** The live twin checks the enterprise agent. */
    method VerifyAgent() returns (ok: bool)
      requires Valid() && m_twin != null
      modifies m_twin, m_metrics`m_totalVerificationEvents, m_metrics`m_lastVerificationResult
      ensures Valid() && Abs() == Verify(old(Abs())) && OwnAgents()
    {
      hide Inc32, Twin.Verify, Twin.Accepts, Metrics.RealMetricsCollector.Counting, Marks;
      ok := m_twin.VerifyAgentContinuity(m_enterprise);
      assert TwinValues() == old(TwinValues()[|twins| - 1 := m_twin.Value().Verify(Abs().enterprise)]);
    }

    /** The same, and the scenario counts the check. */
    method CheckIdentity() returns (ok: bool)
      requires Valid() && m_twin != null
      modifies `m_verificationEventsDuringScenario, m_twin,
               m_metrics`m_totalVerificationEvents, m_metrics`m_lastVerificationResult
      ensures Valid() && Abs() == CountedVerify(old(Abs())) && OwnAgents()
    {
      hide Inc32, Verify, Metrics.RealMetricsCollector.Counting, Marks;
      ok := VerifyAgent();
      ghost var values := TwinValues();
      m_verificationEventsDuringScenario := Inc32(m_verificationEventsDuringScenario);
      assert TwinValues() == values;
    }

    /** A metric sample under the given name is recorded now. */
    method RecordSample(name: Metrics.SampleName)
      requires Valid()
      modifies m_metrics`m_last, m_metrics`obs, m_metrics`m_metrics
      ensures Valid() && Abs() == Record(old(Abs()), name) && OwnAgents()
    {
      hide AegisAnchor, Metrics.SampleAt, Metrics.CursorAfter, Metrics.Monotone, Metrics.Received;
      m_metrics.RecordMetrics(simulator.now, name);
      Metrics.SampleIsNoted(m_metrics.obs, |m_metrics.obs| - 1);
      assert TwinValues() == old(TwinValues());
      assert Marks() == old(Marks()) + [Mark(simulator.now, Metrics.Note(name, m_metrics.m_totalVerificationEvents,
                                                                         m_metrics.m_lastVerificationResult))];
    }

    // ---------- the event handlers ----------

    method RecoverFromCrash()
      requires Valid()
      modifies this, m_metrics`m_totalVerificationEvents, m_metrics`m_lastVerificationResult
      modifies m_metrics`m_last, m_metrics`obs, m_metrics`m_metrics
      ensures Valid() && Abs() == Revive(old(Abs()), Metrics.CrashRecovery, Home()) && OwnAgents()
      ensures m_enterprise != null && fresh(m_enterprise) && m_twin != null && fresh(m_twin)
    {
      hide Deploy, CountedVerify, CloseScenario, Record, AegisAnchor;
      ClearFlag();
      InitializeAgents();
      var ok := CheckIdentity();
      RecordSample(Metrics.CrashRecovery);
      FinishScenario();
    }

    method RedeploySystem()
      requires Valid()
      modifies this, m_metrics`m_totalVerificationEvents, m_metrics`m_lastVerificationResult
      modifies m_metrics`m_last, m_metrics`obs, m_metrics`m_metrics
      ensures Valid() && Abs() == Revive(old(Abs()), Metrics.TeardownRedeploy, Home()) && OwnAgents()
    {
      hide Deploy, CountedVerify, CloseScenario, Record, AegisAnchor;
      ClearFlag();
      InitializeAgents();
      var ok := CheckIdentity();
      RecordSample(Metrics.TeardownRedeploy);
      FinishScenario();
    }

    method ClearFlag()
      requires Valid()
      modifies `m_recoveryScheduled
      ensures Valid() && Abs() == old(Abs()).(recoveryScheduled := false) && OwnAgents()
    {
      m_recoveryScheduled := false;
      assert TwinValues() == old(TwinValues());
    }

    method EnsurePresent()
      requires Valid()
      modifies this, m_metrics`m_totalVerificationEvents, m_metrics`m_lastVerificationResult
      modifies m_metrics`m_last, m_metrics`obs, m_metrics`m_metrics
      ensures Valid() && Abs() == EnsureAgentsPresent(old(Abs()), Home()) && OwnAgents()
      ensures m_enterprise != null && m_twin != null
    {
      hide Revive;
      if m_enterprise == null || m_twin == null {
        RecoverFromCrash();
      }
    }

    /** Both references are dropped; a revival is scheduled unless the flag says one is. */
    method DropAgents(revival: Action)
      requires Valid()
      modifies `m_enterprise, `m_twin, `m_recoveryScheduled, simulator
      ensures Valid() && Abs() == LoseAgents(old(Abs()), revival) && OwnAgents()
    {
      hide Metrics.RealMetricsCollector.Counting, Marks;
      m_enterprise := null;
      m_twin := null;
      if !m_recoveryScheduled {
        m_recoveryScheduled := true;
        simulator.Schedule(2.0, revival);
      }
      assert TwinValues() == old(TwinValues());
    }

    method TriggerNodeCrash()
      requires Valid()
      modifies this, simulator, m_metrics`m_last, m_metrics`obs, m_metrics`m_metrics
      ensures Valid() && Abs() == Do(old(Abs()), Crash, Home()) && OwnAgents()
    {
      hide StartScenario, LoseAgents, Record, AegisAnchor, Abs, Valid;
      BeginScenario(NodeCrash);
      RecordSample(Metrics.CrashDuring);
      DropAgents(Recover);
    }

    /** The scenario's check, its last sample one second later, and its end. */
    method CheckAndFinish(last: Metrics.SampleName)
      requires Valid() && m_twin != null
      modifies this, simulator, m_twin, m_metrics`m_totalVerificationEvents, m_metrics`m_lastVerificationResult
      ensures Valid() && OwnAgents()
      ensures Abs() == CloseScenario(Schedule(CountedVerify(old(Abs())), 1.0, Sample(last)))
    {
      hide Abs, Valid, CountedVerify, CloseScenario, Schedule;
      var ok := CheckIdentity();
      ScheduleAfter(1.0, Sample(last));
      FinishScenario();
    }

    /** The steps of a migration. */
    method MigrateVerified()
      requires Valid()
      modifies this, simulator, m_enterprise, m_twin
      modifies m_metrics`m_totalVerificationEvents, m_metrics`m_lastVerificationResult
      modifies m_metrics`m_last, m_metrics`obs, m_metrics`m_metrics
      ensures Valid() && Abs() == Do(old(Abs()), Migration, Home()) && OwnAgents()
    {
      hide StartScenario, EnsureAgentsPresent, CountedVerify, CloseScenario, Schedule, Record, AegisAnchor, Abs, Valid;
      BeginScenario(AgentMigration);
      EnsurePresent();  // both agents exist now: the early return of the source is never taken
      RecordSample(Metrics.MigrationStart);
      MoveAgent();
      CheckAndFinish(Metrics.MigrationSuccess);
    }

    method TriggerAgentMigration()
      requires Valid()
      modifies this, simulator, m_enterprise, m_twin
      modifies m_metrics`m_totalVerificationEvents, m_metrics`m_lastVerificationResult
      modifies m_metrics`m_last, m_metrics`obs, m_metrics`m_metrics
      ensures Valid() && Abs() == Do(old(Abs()), Migration, Home()) && OwnAgents()
      ensures Ledger.Moved(old(Abs()), Abs(), AgentMigration, SecondaryEdge)
    {
      hide *;
      MoveFacts(Migration);
      MigrateVerified();
    }

    method MoveAgent()
      requires Valid() && m_enterprise != null
      modifies m_enterprise
      ensures Valid() && old(Abs()).enterprise.Some?
      ensures Abs() == old(Abs()).(enterprise := Some(old(Abs()).enterprise.value.(host := SecondaryEdge)))
    {
      m_enterprise.Migrate(SecondaryEdge);
      assert TwinValues() == old(TwinValues());
    }

    /** The steps of a restart. */
    method RestartVerified()
      requires Valid()
      modifies this, simulator, m_twin
      modifies m_metrics`m_totalVerificationEvents, m_metrics`m_lastVerificationResult
      modifies m_metrics`m_last, m_metrics`obs, m_metrics`m_metrics
      ensures Valid() && Abs() == Do(old(Abs()), Restart, Home()) && OwnAgents()
    {
      hide StartScenario, EnsureAgentsPresent, CountedVerify, CloseScenario, Schedule, Record, AegisAnchor, Abs, Valid;
      BeginScenario(ProcessRestart);
      EnsurePresent();  // both agents exist now: the early return of the source is never taken
      RecordSample(Metrics.RestartStart);
      ReplaceAgent();
      CheckAndFinish(Metrics.RestartSuccess);
    }

    method TriggerProcessRestart()
      requires Valid()
      modifies this, simulator, m_twin
      modifies m_metrics`m_totalVerificationEvents, m_metrics`m_lastVerificationResult
      modifies m_metrics`m_last, m_metrics`obs, m_metrics`m_metrics
      ensures Valid() && Abs() == Do(old(Abs()), Restart, Home()) && OwnAgents()
      ensures Ledger.Moved(old(Abs()), Abs(), ProcessRestart, PrimaryEdge)
    {
      hide *;
      MoveFacts(Restart);
      RestartVerified();
    }

    /** The old process ends; its identity is copied into a new agent on the primary edge. */
    method ReplaceAgent()
      requires Valid() && m_enterprise != null
      modifies `m_enterprise
      ensures Valid() && old(Abs()).enterprise.Some? && m_twin == old(m_twin)
      ensures m_enterprise != null && fresh(m_enterprise)
      ensures Abs() == old(Abs()).(enterprise := Some(old(Abs()).enterprise.value.(host := PrimaryEdge)))
    {
      var card, fingerprint := m_enterprise.m_card, m_enterprise.m_fingerprint;
      m_enterprise := null;
      m_enterprise := new EnterpriseAgent(PrimaryEdge, card, fingerprint);
      assert TwinValues() == old(TwinValues());
    }

    method TriggerFullTeardown()
      requires Valid()
      modifies this, simulator, m_metrics`m_totalVerificationEvents, m_metrics`m_lastVerificationResult
      modifies m_metrics`m_last, m_metrics`obs, m_metrics`m_metrics
      ensures Valid() && Abs() == Do(old(Abs()), Teardown, Home()) && OwnAgents()
    {
      hide StartScenario, EnsureAgentsPresent, LoseAgents, Record, AegisAnchor, Abs, Valid;
      BeginScenario(FullTeardown);
      EnsurePresent();  // both agents exist now: the early return of the source is never taken
      RecordSample(Metrics.TeardownStart);
      DropAgents(Redeploy);
    }

    method TriggerNetworkPartition()
      requires Valid()
      modifies this, simulator
      ensures Valid() && Abs() == Do(old(Abs()), Partition, Home()) && OwnAgents()
    {
      hide StartScenario, Schedule, AegisAnchor, Abs, Valid;
      BeginScenario(NetworkPartition);
      LoseTwin();
      ScheduleAfter(2.5, Sample(Metrics.PartitionMid));
      ScheduleAfter(4.5, Sample(Metrics.PartitionEnd));
      ScheduleAfter(5.0, EndScenario);
    }

    /** The twin goes offline; the duplicate agent that appears is never stored. */
    method LoseTwin()
      requires Valid()
      modifies `m_twin
      ensures Valid() && Abs() == old(Abs()).(twinLive := false) && OwnAgents()
    {
      hide AegisAnchor;
      m_twin := null;
      var entId := ReadIdentity();
      var duplicate := new EnterpriseAgent(SecondaryEdge, entId.fields, entId.m_fingerprint);
      assert TwinValues() == old(TwinValues());
    }

    method RunBaselineFailureScenario()
      requires Valid()
      modifies this, simulator
      ensures Valid() && Abs() == Do(old(Abs()), Baseline, Home()) && OwnAgents()
    {
      hide StartScenario, Schedule, AegisAnchor, Abs, Valid;
      BeginScenario(BaselineFailure);
      ScheduleAfter(5.0, Sample(Metrics.BaselineFailureMid));
      ScheduleAfter(10.0, Sample(Metrics.BaselineFailureEnd));
      ScheduleAfter(11.0, EndScenario);
    }

    method ScheduleContinuitySuccessScenarios()
      requires Valid()
      modifies simulator
      ensures Valid() && Abs() == Do(old(Abs()), ScheduleContinuity, Home()) && OwnAgents()
    {
      hide Schedule, AegisAnchor, Abs, Valid;
      ScheduleAfter(20.0, Crash);
      ScheduleAfter(25.0, Migration);
      ScheduleAfter(30.0, Restart);
      ScheduleAfter(35.0, Teardown);
    }

    method ScheduleNetworkPartitionScenario()
      requires Valid()
      modifies simulator
      ensures Valid() && Abs() == Do(old(Abs()), SchedulePartition, Home()) && OwnAgents()
    {
      hide Schedule, AegisAnchor, Abs, Valid;
      ScheduleAfter(40.0, Partition);
    }

    /** The verification and the sample main makes just before the end. */
    method FinalVerification()
      requires Valid()
      modifies m_twin, m_metrics`m_totalVerificationEvents, m_metrics`m_lastVerificationResult
      modifies m_metrics`m_last, m_metrics`obs, m_metrics`m_metrics
      ensures Valid() && Abs() == Do(old(Abs()), FinalCheck, Home()) && OwnAgents()
    {
      hide Record, AegisAnchor, Abs, Valid;
      VerifyIfBoth();
      RecordSample(Metrics.Final);
    }

    method VerifyIfBoth()
      requires Valid()
      modifies m_twin, m_metrics`m_totalVerificationEvents, m_metrics`m_lastVerificationResult
      ensures Valid() && OwnAgents()
      ensures Abs() == if old(Abs()).twinLive && old(Abs()).enterprise.Some? then Verify(old(Abs())) else old(Abs())
    {
      hide Verify, AegisAnchor;
      if m_twin != null && m_enterprise != null {
        var ok := VerifyAgent();
      }
    }

    // ---------- the event loop ----------

    /** The simulator moves its clock and, for a pending event, takes it off the queue. */
    method AdvanceTo(l: Label)
      requires Valid() && Enabled(Abs(), l)
      modifies simulator
      ensures Valid() && Abs() == Dequeue(old(Abs()), l) && OwnAgents()
    {
      hide Metrics.RealMetricsCollector.Counting, Marks;
      m_metrics.TimePasses(simulator.now, l.Time());
      match l {
        case Trigger(_, t) => simulator.now := t;
        case Fire(e) =>
          simulator.now := e.time;
          simulator.pending := simulator.pending - multiset{e};
      }
      assert TwinValues() == old(TwinValues());
    }

    /** One step of the program is one step of a run. */
    method Step(l: Label)
      requires Valid() && Enabled(Abs(), l)
      modifies this, simulator, m_enterprise, m_twin
      modifies m_metrics`m_totalVerificationEvents, m_metrics`m_lastVerificationResult
      modifies m_metrics`m_last, m_metrics`obs, m_metrics`m_metrics
      ensures Valid() && Abs() == Next(old(Abs()), l, Home()) && OwnAgents()
    {
      hide Abs, Valid, Dequeue, Enabled, AegisAnchor;
      hide Deploy, StartScenario, Schedule, MoveTo, Revive, TearDown, LoseAgents, CloseScenario, Verify, Record,
           Planned, Partitioned, StartBaseline;
      AdvanceTo(l);
      match l.Action() {
        case Initialise => InitializeAgents();
        case Baseline => RunBaselineFailureScenario();
        case ScheduleContinuity => ScheduleContinuitySuccessScenarios();
        case SchedulePartition => ScheduleNetworkPartitionScenario();
        case Crash => TriggerNodeCrash();
        case Migration => TriggerAgentMigration();
        case Restart => TriggerProcessRestart();
        case Teardown => TriggerFullTeardown();
        case Partition => TriggerNetworkPartition();
        case Recover => RecoverFromCrash();
        case Redeploy => RedeploySystem();
        case EndScenario => FinishScenario();
        case FinalCheck => FinalVerification();
        case Sample(name) => RecordSample(name);
      }
    }

    /** Packets arrive at the collector's sinks; to the manager nothing happens. */
    method DeliverAll(batches: seq<Metrics.Batch>, ghost more: nat, ghost cap: nat)
      requires Valid() && KnownSinks(batches) && m_metrics.RoomFor(Metrics.BatchBytes(batches) + more, cap)
      modifies m_metrics.m_dlSinks, m_metrics.m_ulSinks
      ensures Valid() && Abs() == old(Abs()) && OwnAgents()
      ensures m_metrics.RoomFor(more, cap)
    {
      hide Metrics.RealMetricsCollector.Counting, Metrics.RealMetricsCollector.RoomFor, Metrics.QueueBytes, AegisAnchor;
      var i := 0;
      while i < |batches|
        invariant 0 <= i <= |batches| && m_metrics.Counting(simulator.now)
        invariant m_metrics.RoomFor(Metrics.BatchBytes(batches[i..]) + more, cap)
      {
        assert batches[i] in batches && batches[i..][1..] == batches[i + 1..];
        m_metrics.Deliver(batches[i], simulator.now, Metrics.BatchBytes(batches[i + 1..]) + more, cap);
        i := i + 1;
      }
      assert batches[i..] == [];
      assert TwinValues() == old(TwinValues());
    }

    ghost predicate KnownSinks(batches: seq<Metrics.Batch>)
      reads m_metrics`m_dlSinks, m_metrics`m_ulSinks
    {
      forall b :: b in batches ==> b.sink in m_metrics.m_dlSinks + m_metrics.m_ulSinks
    }

    /** Packets arrive, then the program takes a step. */
    method Turn(l: Label, batches: seq<Metrics.Batch>, ghost more: nat, ghost cap: nat)
      requires Valid() && Enabled(Abs(), l)
      requires KnownSinks(batches) && m_metrics.RoomFor(Metrics.BatchBytes(batches) + more, cap)
      modifies this, simulator, m_enterprise, m_twin, m_metrics.m_dlSinks, m_metrics.m_ulSinks
      modifies m_metrics`m_totalVerificationEvents, m_metrics`m_lastVerificationResult
      modifies m_metrics`m_last, m_metrics`obs, m_metrics`m_metrics
      ensures Valid() && Abs() == Next(old(Abs()), l, Home()) && OwnAgents()
      ensures m_metrics.RoomFor(more, cap)
    {
      hide Abs, Valid, Next, Enabled, AegisAnchor, Metrics.RealMetricsCollector.RoomFor, KnownSinks, Metrics.BatchBytes;
      DeliverAll(batches, more, cap);
      Step(l);
    }

    /** A whole run on the objects, from the state after the first initialisation, with packets arriving at the sinks
        before every step: its trace is a run of the transition system, so no outage in it lasts more than 2.0 seconds;
        and at its end the agent held carries the registered identity, the live twin has never failed a check, the
        collector has counted all checks, the samples are in order and truthful, and the bytes recovered from the rates
        of all samples, with those of empty intervals, are the bytes received up to the last sample. */
    method Run(labels: seq<Label>, traffic: seq<seq<Metrics.Batch>>, ghost cap: nat) returns (ghost run: seq<State>)
      requires Valid() && Abs() == Deploy(FRESH, Home()) && CanRun(Abs(), labels, Home())
      requires |traffic| == |labels| && forall k :: 0 <= k < |traffic| ==> KnownSinks(traffic[k])
      requires m_metrics.RoomFor(Metrics.TrafficBytes(traffic), cap)
      modifies this, simulator, m_enterprise, m_twin, m_metrics.m_dlSinks, m_metrics.m_ulSinks
      modifies m_metrics`m_totalVerificationEvents, m_metrics`m_lastVerificationResult
      modifies m_metrics`m_last, m_metrics`obs, m_metrics`m_metrics
      ensures Valid() && IsRun(run, labels, Home()) && Abs() == run[|labels|]
      ensures forall i, j :: 0 <= i <= j < |run| && AbsentThroughout(run, i, j) ==>
                run[j].now - run[i].now <= 2.0 && (j < |labels| ==> labels[j].Time() - run[i].now <= 2.0)
      ensures m_enterprise != null ==> m_enterprise.Value() == Home().On(m_enterprise.m_hostNode)
      ensures m_twin != null ==> m_twin.m_fail == 0
      ensures m_metrics.m_totalVerificationEvents == SumChecks(TwinValues()) % TWO32
      ensures m_metrics.m_totalVerificationEvents == Ledger.Checks(labels, |labels|) % TWO32
      ensures summaries == Ledger.Reports(labels, |labels|) && Marks() == Ledger.MarksUpTo(labels, |labels|)
      ensures Timeline.MarkInv(Abs())
      ensures Metrics.Monotone(m_metrics.obs) && var obs := m_metrics.obs;
              && Metrics.ReportedDl(obs) + Metrics.AbsorbedDl(obs) as real == Metrics.DlBytes(obs) as real
              && Metrics.ReportedUl(obs) + Metrics.AbsorbedUl(obs) as real == Metrics.UlBytes(obs) as real
    {
      hide Abs, Valid, Next, Enabled, AegisAnchor, Deploy, Metrics.RealMetricsCollector.RoomFor, KnownSinks;
      hide Metrics.BatchBytes;
      run := [Abs()];
      var i := 0;
      while i < |labels|
        invariant 0 <= i <= |labels| && |run| == i + 1
        invariant Valid() && OwnAgents() && Abs() == run[i] && run[0] == Deploy(FRESH, Home())
        invariant CanRun(run[i], labels[i..], Home())
        invariant forall k :: 0 <= k < |traffic| ==> KnownSinks(traffic[k])
        invariant m_metrics.RoomFor(Metrics.TrafficBytes(traffic[i..]), cap)
        invariant forall k :: 0 <= k < i ==> Enabled(run[k], labels[k]) && run[k + 1] == Next(run[k], labels[k], Home())
      {
        assert traffic[i..][1..] == traffic[i + 1..];
        Turn(labels[i], traffic[i], Metrics.TrafficBytes(traffic[i + 1..]), cap);
        run := run + [Abs()];
        assert labels[i..][1..] == labels[i + 1..];
        i := i + 1;
      }
      RunFacts(run, labels, digest);
      EndFacts();
      ReadAbs();
      BytesAddUp();
    }

    lemma BytesAddUp()
      requires Valid()
      ensures Metrics.Monotone(m_metrics.obs) && var obs := m_metrics.obs;
              && Metrics.ReportedDl(obs) + Metrics.AbsorbedDl(obs) as real == Metrics.DlBytes(obs) as real
              && Metrics.ReportedUl(obs) + Metrics.AbsorbedUl(obs) as real == Metrics.UlBytes(obs) as real
    {
      hide Metrics.Monotone, Metrics.Received;
      Metrics.BytesConserved(m_metrics.obs);
    }

    /** What the invariants of runs say about the objects. */
    lemma EndFacts()
      requires Valid() && IdentityInv(Abs(), Home())
      ensures m_enterprise != null ==> m_enterprise.Value() == Home().On(m_enterprise.m_hostNode)
      ensures m_twin != null ==> m_twin.m_fail == 0
      ensures m_metrics.m_totalVerificationEvents == SumChecks(TwinValues()) % TWO32
    {
      hide AegisAnchor, SumChecks;
      if m_twin != null {
        assert GoodTwin(TwinValues()[|twins| - 1], Home());
      }
    }
  }

  /** The labels are enabled one after the other. */
  ghost predicate CanRun(s: State, labels: seq<Label>, anchor: Anchor)
    decreases |labels|
  {
    labels == [] || (Enabled(s, labels[0]) && CanRun(Next(s, labels[0], anchor), labels[1..], anchor))
  }

  ghost predicate AbsentThroughout(run: seq<State>, i: int, j: int)
    requires 0 <= i <= j < |run|
  {
    forall k :: i <= k <= j ==> run[k].enterprise.None?
  }

  lemma NoLongOutage(run: seq<State>, labels: seq<Label>, anchor: Anchor)
    requires IsRun(run, labels, anchor)
    ensures forall i, j :: 0 <= i <= j < |run| && AbsentThroughout(run, i, j) ==>
              run[j].now - run[i].now <= 2.0 && (j < |labels| ==> labels[j].Time() - run[i].now <= 2.0)
  {
    hide IsRun;
    forall i, j | 0 <= i <= j < |run| && AbsentThroughout(run, i, j)
      ensures run[j].now - run[i].now <= 2.0 && (j < |labels| ==> labels[j].Time() - run[i].now <= 2.0)
    {
      OutageBound(run, labels, anchor, i, j);
    }
  }

  lemma RunFacts(run: seq<State>, labels: seq<Label>, digest: string -> Digest)
    requires IsRun(run, labels, AegisAnchor(digest))
    ensures forall i, j :: 0 <= i <= j < |run| && AbsentThroughout(run, i, j) ==>
              run[j].now - run[i].now <= 2.0 && (j < |labels| ==> labels[j].Time() - run[i].now <= 2.0)
    ensures IdentityInv(run[|labels|], AegisAnchor(digest)) && Timeline.MarkInv(run[|labels|])
    ensures run[|labels|].totalChecks == Ledger.Checks(labels, |labels|) % TWO32
    ensures run[|labels|].summaries == Ledger.Reports(labels, |labels|)
    ensures run[|labels|].samples == Ledger.MarksUpTo(labels, |labels|)
  {
    hide *;
    AegisIsRegistered(digest);
    var anchor := AegisAnchor(digest);
    Timeline.RunLength(run, labels, anchor);
    NoLongOutage(run, labels, anchor);
    IdentityAlways(run, labels, anchor, |labels|);
    Timeline.SamplesTruthful(run, labels, anchor, |labels|);
    Ledger.BooksRead(run, labels, anchor, |labels|);
  }
}
