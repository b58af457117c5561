# Immortal NR simulation: a Dafny model

This project models the algorithms and protocols of the Immortal NR simulation and of the ns-3 tools
beside it, and proves what they keep over every input and every run.

- **Continuity** (`Continuity.dfy`, `Timeline.dfy`, `Ledger.dfy`, `SimulationManager.dfy`): the manager that crashes,
  recovers, migrates, restarts, tears down and partitions a pair of agents, as a transition system with a clock and
  a multiset of pending events. Triggers may come in any order at any time. Placement, pending revivals, checks,
  summaries and samples of every run are computed from its labels alone. The objects of the program are classes
  whose methods, and whole runs on them, are proved against the transition system.
- **Identity** (`Identity.dfy`): the tagged-text parser, the joined fingerprint preimage and its hexadecimal
  digest.
- **Traffic and metrics** (`Traffic.dfy`, `Metrics.dfy`, `Statistics.dfy`): the numbered sender, a lossy channel,
  the loss-counting sink and the sampling collector, with 64-bit wrap-around.
- **Type graph** (`TypeGraph.dfy`, `GatherOutput.dfy`): the stack-disciplined search that lists all labelled paths,
  and when its output repeats one.
- **Test runner** (`WorkerPool.dfy`, `PoolTrace.dfy`, `Accounting.dfy`): main thread, workers, two queues, poison jobs
  and an interrupt flag under every interleaving; then the verdict counters, the failed list and the exit code, down
  to the steps of the run that settled each job.
- **Loading order** (`DependencyOrder.dfy`): the topological sort by waves, with the interpreter's recursion limit
  as a parameter.
- **Style fixer** (`Text.dfy`, `StyleFixer.dfy`, `LineChecks.dfy`): the guarded file pass and four of its line
  checks, on whole file contents.
- **Scheduler benchmark** (`BenchScheduler.dfy`): the event population and the one-pass mean and variance.
- **Large transfer** (`LargeTransfer.dfy`): the resumable writer over a cyclic buffer.
- **Animation** (`Netanim.dfy`): the grouped, sorted index of node updates against a replay of the log.
- **Fairness** (`Fairness.dfy`): Jain's index in 64-bit arithmetic.

Code that updates state in place is modelled by classes and loops, each proved against a specification function;
the theorems are about those functions and about runs. Delays, rates and variances are real numbers.

## Where the code and its description differ

The model follows the code.

- `Simulator::Schedule` delays count from the moment of the call. The visualization guide announces the crash at 20 s
  and the following events at 25, 30, 35 and 40 s (immortal-ns3/scratch/nr-immortal.cc:987-992). They are
  scheduled at 12 s and 40 s, so they happen at 32, 37, 42, 47 and 80 s; the last two lie beyond the default
  stop time of 45 s (`Timeline.MainTimeline`, `Timeline.MainTimelineHappens`).
- An early recovery inside a migration, restart or teardown leaves the scheduled one pending. That one later
  replaces the agents and moves a migrated agent back to the primary edge
  (`Timeline.StaleRecoveryUndoesMigration`; exactly when: `Timeline.MigrationSticks`).
- The flag does not keep revivals apart: two can be pending (`Timeline.TwoRevivalsPending`; exactly when:
  `Timeline.RevivalAddedIff`, `Timeline.NeverTwoRevivalsIff`).
- The reported downtime is counted from the start of the latest scenario, so an outage ended early by another
  trigger is reported with 0 (`Timeline.EarlyRevivalReportsZero`; exactly when it is true:
  `Timeline.TrueDowntimeIff`).
- A restart puts the new process on the primary edge, also after a migration to the secondary one.
- The separator in the fingerprint preimage avoids collisions (README.md:51) only because the parser cannot put
  it into a field (`Identity.PreimageInjective`, `Identity.UnparsedFieldsCanCollide`).
- The collector divides lost packets by lost packets plus received bytes, so the loss ratio is understated
  (`Metrics.LossRatioUnderstates`, `Metrics.SampleUnderstatesLoss`). The sink's loss counter overstates under reordering
  (`Traffic.ReorderingOvercounts`; exactly when: `Traffic.LostExactIff`), and near 2^64 it can wrap below the loss
  (`Traffic.WrappedCounterMisses`; exactly when: `Traffic.CounterCoversIff`).
- A sink whose average delay is zero is skipped with its bytes still counted, so the reported average can fall
  below the reported minimum (`Metrics.SkippedSinkBreaksMinimum`, `Metrics.SkippedSinkOccurs`; exactly when:
  `Metrics.LatencyWithinExtremesIff`).
- `Uniquefy` documents an in-place change but takes its argument by value, so outputs are neither sorted nor
  de-duplicated (`GatherOutput.RecordedTwiceRepeats`; exactly when they repeat an entry:
  `GatherOutput.DistinctIffUnambiguous`, `GatherOutput.DistinctIffNoTwins`; unsorted whenever a walk steps down:
  `GatherOutput.SortedClimbs`).
- In the test runner a passing suite without a readable report stays in the failed list, and a failing one can
  be listed twice (`Accounting.FailedListMiscounts`).
- A fixing run of the style script reports everything fixed. The tabs fix comes after the license check and can
  uncover a license text, so a second run can find an offence (`LineChecks.FixingRunLeavesLicense`; exactly when:
  `LineChecks.FixingRunPassesIff`, `LineChecks.LicenseSurvivesTabsIff`).
- The fairness report multiplies 64-bit counters and can lose its value for large equal flows
  (`Fairness.WrapLosesIndex`; exactly when: `Fairness.ReportIsJainIff`).

## Model

| member | source | states |
|---|---|---|
| Continuity.OutageBound | immortal-ns3/scratch/nr-immortal.cc:1239-1287 | in every run, under any triggers at any times, at most 2.0 s pass from the first state without an enterprise agent to the last one, and to the step that ends the outage |
| Continuity.AbsenceIsScheduled | immortal-ns3/scratch/nr-immortal.cc:1239-1287 | in every reachable state an absent enterprise agent means the recovery flag is set, and the flag means that a recovery or redeployment is pending within the next 2.0 s |
| Continuity.ReportedDowntime | immortal-ns3/scratch/nr-immortal.cc:1167-1173 | the recovery or redeployment that ends an outage adds one summary, with a downtime between 0 and 2.0 s |
| Timeline.TrueDowntimeIff | immortal-ns3/scratch/nr-immortal.cc:1167-1173 | for an outage of any run that a recovery or redeployment ends, the reported downtime is the true length of the outage if and only if every scenario that started in between did so when the outage began, and that was after time 0 or the outage took no time |
| Timeline.EarlyRevivalReportsZero | immortal-ns3/scratch/nr-immortal.cc:1289-1386 | an outage that a migration, restart or teardown ends early is always reported with a downtime of 0 |
| Continuity.RevivalWaits | immortal-ns3/scratch/nr-immortal.cc:1256-1260 | a pending revival stays in the queue for as long as the agent is absent, whatever else happens |
| Continuity.NextKeepsTimer | immortal-ns3/scratch/nr-immortal.cc:1239-1435 | every step of the manager keeps the timer invariant (clock, flag, deadline of the pending revival) |
| Continuity.IdentityContinuity | immortal-ns3/scratch/nr-immortal.cc:1099-1136 | in every reachable state the held agent carries the registered fingerprint and lineage, every twin ever created would accept it and has counted no failure, the collector's event counter is the sum of all twins' checks (modulo 2^32), and the last verification passed |
| Continuity.DoKeepsIdentity | immortal-ns3/scratch/nr-immortal.cc:1185-1435 | every handler keeps the identity invariant |
| Continuity.VerificationNeedsName | immortal-ns3/scratch/nr-immortal.cc:1185-1193 | the verification inside a revival passes exactly when the parsed agent name is the name under which the twin registers the reference |
| Continuity.AcceptsOnlyRegistered | immortal-ns3/scratch/nr-immortal.cc:1102-1131 | a fresh twin accepts an agent exactly if its name is Aegis-RAN and its fingerprint and lineage are the registered ones |
| Continuity.VerifiedOnce | immortal-ns3/scratch/nr-immortal.cc:1102-1131 | any twin counts any verification once, as a success exactly if it has a reference under the agent's name with the agent's fingerprint and lineage; its references read as before |
| Continuity.AegisIsRegistered | immortal-ns3/scratch/nr-immortal.cc:181-193 | the shipped enterprise text parses to that name and to the twin as its lineage |
| Timeline.MigrationSticks | immortal-ns3/scratch/nr-immortal.cc:1289-1324 | after a migration, once the queue has drained with no further trigger, the agent is on the secondary edge if and only if no revival was pending at the migration, and on the primary edge otherwise |
| Timeline.PlacementFollowsActions | immortal-ns3/scratch/nr-immortal.cc:1185-1435 | in every state of every run presence and place of both agents follow from the actions so far: absent exactly after a crash or teardown, on the secondary edge exactly after a migration, on the primary edge after every other placing action |
| Timeline.StaleRecoveryUndoesMigration | immortal-ns3/scratch/nr-immortal.cc:1239-1287 | a concrete run: crash, migration one second later, and the stale recovery moves the migrated agent back |
| Timeline.TwoRevivalsPending | immortal-ns3/scratch/nr-immortal.cc:1239-1261 | a concrete run in which two recoveries are pending although the flag guards the scheduling |
| Timeline.RevivalAddedIff | immortal-ns3/scratch/nr-immortal.cc:1239-1386 | any action adds a pending revival if and only if it is a crash with the flag clear, or a teardown with the flag clear or an agent missing; so with one revival pending there are two afterwards exactly then |
| Timeline.NeverTwoRevivalsIff | immortal-ns3/scratch/nr-immortal.cc:1239-1386 | no two revivals are ever pending in a run if and only if its labels alone show no two schedulings of a revival without a fired one in between; the flag and the placement they depend on are functions of the actions so far |
| Timeline.RevivalsCounted | immortal-ns3/scratch/nr-immortal.cc:1239-1386 | the number of revivals pending in any state of a run is computed from the labels alone |
| Timeline.OverlapNeedsEarly | immortal-ns3/scratch/nr-immortal.cc:1239-1386 | two schedulings can overlap only if an early revival comes in between: a migration, restart or teardown that finds an agent missing, or a revival triggered at will |
| Timeline.PendingHappens | immortal-ns3/scratch/nr-immortal.cc:1226-1237 | whatever is pending in a run has been fired once the clock has passed its time |
| Timeline.FollowUpHappens | immortal-ns3/scratch/nr-immortal.cc:1206-1435 | what a step leaves behind has been fired at its time once the clock has passed that: the samples and the end of the baseline failure (5, 10, 11 s) and of the partition (2.5, 4.5, 5 s), the last sample of a migration or restart (1 s), the partition (40 s), and the revival (2 s) after a crash or teardown that schedules one |
| Timeline.MainTimeline | immortal-ns3/scratch/nr-immortal.cc:1226-1237 | in every run of the main program's triggers the only crash is at 32 s, the only migration at 37 s and the only restart at 42 s, and up to 45 s there is neither teardown nor partition |
| Timeline.MainTimelineHappens | immortal-ns3/scratch/nr-immortal.cc:1226-1237 | they do occur: in a run in which main schedules the four disruptions at 12 s, each has been fired at its time once the clock has passed it |
| Timeline.SamplesTruthful | immortal-ns3/scratch/nr-immortal.cc:1239-1435 | in every reachable state the recorded samples are in order of time, none is later than now, and a sample taken after at least one check notes that the last check passed |
| Ledger.BooksBalance | immortal-ns3/scratch/nr-immortal.cc:1099-1435 | in every state of every run the collector's check counter, the checks of the scenario that is on, its name and start, all summaries and all samples are those computed from the labels alone: one check per recovery, redeployment, migration and restart, one more where a migration, restart or teardown finds an agent missing, and one per final check with both agents there, each modulo 2^32; a summary counts the checks since its scenario started, final ones aside |
| Ledger.StepVerifies | immortal-ns3/scratch/nr-immortal.cc:1099-1435 | each step of a run adds to the check counter 1 for a recovery or redeployment, 1 or 2 for a migration or restart (2 if an agent was missing), 1 for a teardown that finds one missing, 1 for a final check with both there, and nothing otherwise |
| Ledger.MoveVerifies | immortal-ns3/scratch/nr-immortal.cc:1289-1364 | a migration or restart is verified and reported at once: the counter grows and the summary shows 1 check if both agents were there, 2 if not, and the agent is on the secondary or the primary edge |
| SimulationManagers.SimulationManager.Step | immortal-ns3/scratch/nr-immortal.cc:1239-1435 | one step of the object — move the clock, take the event off the queue, call the handler — is one step of the transition system on its abstraction |
| SimulationManagers.SimulationManager.Run | immortal-ns3/scratch/nr-immortal.cc:1239-1435 | any list of steps performed on the objects, with packets arriving at the sinks before each of them, traces a run of the transition system; so on the objects no outage exceeds 2.0 s, the held agent has the registered identity, the live twin has counted no failure, the check counter, the summaries and the samples are those that the labels alone give, the samples are in order and truthful, and the bytes recovered from the rates of all samples, with those of empty intervals, are the bytes received up to the last sample |
| SimulationManagers.SimulationManager.RecordSample | immortal-ns3/scratch/nr-immortal.cc:633-636 | one sample with the time, its name, and the collector's check counter and last result is appended, and nothing else of the abstract state changes |
| SimulationManagers.SimulationManager.InitializeAgents | immortal-ns3/scratch/nr-immortal.cc:1185-1205 | the handler on the heap creates a fresh twin and a fresh enterprise agent and registers the reference, as the state function says |
| SimulationManagers.SimulationManager.RecoverFromCrash | immortal-ns3/scratch/nr-immortal.cc:1263-1287 | the flag is cleared, both agents are created anew and registered, the twin verifies, the scenario counts the check, a sample is recorded and the scenario is closed: the whole abstract state is the specified one |
| SimulationManagers.SimulationManager.RedeploySystem | immortal-ns3/scratch/nr-immortal.cc:1388-1412 | the whole abstract state after a redeployment is the one after a recovery, with its own sample |
| SimulationManagers.SimulationManager.TriggerNodeCrash | immortal-ns3/scratch/nr-immortal.cc:1244-1261 | a scenario starts, a sample is recorded, both agents are dropped, and a recovery is scheduled 2.0 s later only if the flag is clear; nothing else of the abstract state changes |
| SimulationManagers.SimulationManager.TriggerAgentMigration | immortal-ns3/scratch/nr-immortal.cc:1289-1324 | agents that are missing are recovered first; then a sample is recorded, the agent object moves in place to the secondary edge, keeps its identity and is verified, a second sample is scheduled 1.0 s later, and the scenario is closed: the check counter grows, and the summary shows, 1 check if both agents were there and 2 if not |
| SimulationManagers.SimulationManager.TriggerProcessRestart | immortal-ns3/scratch/nr-immortal.cc:1326-1364 | agents that are missing are recovered first; then a sample is recorded, a new object with the old identity is created on the primary edge and verified, a second sample is scheduled 1.0 s later, and the scenario is closed: the check counter grows, and the summary shows, 1 check if both agents were there and 2 if not |
| SimulationManagers.SimulationManager.TriggerFullTeardown | immortal-ns3/scratch/nr-immortal.cc:1366-1386 | both agents are ensured first, a sample is recorded, then both are dropped, and a redeployment is scheduled 2.0 s later only if the flag is clear |
| SimulationManagers.SimulationManager.TriggerNetworkPartition | immortal-ns3/scratch/nr-immortal.cc:1414-1435 | only the twin is dropped and no revival is scheduled; two samples and the end of the scenario are scheduled 2.5, 4.5 and 5.0 s later |
| SimulationManagers.SimulationManager.FinalVerification | immortal-ns3/scratch/nr-immortal.cc:1630-1633 | the last verification happens only if both agents are there; the final sample is recorded in any case |
| SimulationManagers.TwinAgent.VerifyAgentContinuity | immortal-ns3/scratch/nr-immortal.cc:1102-1131 | result, counters, the lineage table (a lookup inserts a missing entry) and the collector's counter are those of the specification |
| Identity.PreimageInjective | immortal-ns3/scratch/nr-immortal.cc:1039-1043 | the preimages of any two agent texts are equal if and only if the seven identity fields are |
| Identity.FingerprintIsIdentity | immortal-ns3/scratch/nr-immortal.cc:1039-1045 | two fingerprints are equal if and only if the identities are, or the digest itself collides on the two preimages |
| Identity.ParsedFieldsBarFree | immortal-ns3/scratch/nr-immortal.cc:1012-1031 | no parsed identity field contains the separator, whatever the text |
| Identity.UnparsedFieldsCanCollide | immortal-ns3/scratch/nr-immortal.cc:1039-1043 | without the parser the separator does not prevent collisions: two different cards with one preimage |
| Identity.JoinInjective | immortal-ns3/scratch/nr-immortal.cc:1041-1043 | joining equally many separator-free fields loses nothing |
| Identity.HexInjective | immortal-ns3/scratch/nr-immortal.cc:147-161 | rendering bytes with two hexadecimal digits each is injective |
| Identity.FieldIsLastValue | immortal-ns3/scratch/nr-immortal.cc:1012-1031 | after any tokens a field holds the value of the last token with its key; tokens without a colon or with an unknown key change nothing |
| Identity.ParseOfPrint | immortal-ns3/scratch/nr-immortal.cc:1012-1031 | parsing printed entries gives each field the value of its last entry; values may contain colons |
| Identity.RoundTrip | immortal-ns3/scratch/nr-immortal.cc:1010-1037 | a card printed in any order of its twelve keys parses back to itself, with the defaults filled in |
| Identity.ReorderingKeepsIdentity | immortal-ns3/scratch/nr-immortal.cc:1010-1037 | the order of distinct keys does not change what is parsed |
| Identity.ShippedCards | immortal-ns3/scratch/nr-immortal.cc:167-193 | both shipped texts, spelled out line by line, parse to the cards with their twelve values |
| Identity.ParsedFields | immortal-ns3/scratch/nr-immortal.cc:1010-1037 | every field of any parsed text holds the last value under its own key, with the root as the lineage and zero hashes where the text gives none or an empty one |
| Identity.ZeroHashIs | immortal-ns3/scratch/nr-immortal.cc:1032-1037 | the hash that stands for a missing one is 0x and 64 zeros |
| Identity.LastValueIs | immortal-ns3/scratch/nr-immortal.cc:1012-1031 | the last value of a key is what follows the colon in the last token that begins with the key and a colon |
| Identity.FingerprintIs | immortal-ns3/scratch/nr-immortal.cc:1039-1045 | the fingerprint of any text is 0x and the rendered digest of id, name, owner, identity, time, lineage and mission, joined by bars |
| Identity.HexBytesAre | immortal-ns3/scratch/nr-immortal.cc:147-161 | each byte is rendered as two digits 0-9, a-f, the upper half first |
| Identity.TokensOfJoin | immortal-ns3/scratch/nr-immortal.cc:1012-1014 | splitting a join of separator-free tokens gives the tokens back |
| Identity.ImmortalIdentity.ReadTokens | immortal-ns3/scratch/nr-immortal.cc:1012-1031 | the getline loop over the mutable fields computes the fold over all tokens |
| Identity.ImmortalIdentity.constructor | immortal-ns3/scratch/nr-immortal.cc:1010-1045 | the object holds the parsed card and the fingerprint of its preimage |
| Traffic.LostCoversMissing | immortal-ns3/scratch/nr-immortal.cc:383-385 | for any arrival order of numbers from 1 on, the sum of the counted gaps, before any wrap-around, is at least the number of values between the first and the largest received that never arrived |
| Traffic.LostExactIff | immortal-ns3/scratch/nr-immortal.cc:383-385 | that sum is exact if and only if every jump upwards starts at the largest number so far and nothing inside it arrives at any time |
| Traffic.CounterCoversMissing | immortal-ns3/scratch/nr-immortal.cc:383-385 | for the sink's 64-bit counter itself, as long as the losses fit in 64 bits: it covers every missing number, and is exact if and only if all jumps are clean |
| Traffic.CounterCoversIff | immortal-ns3/scratch/nr-immortal.cc:383-385 | whatever wraps: the 64-bit counter covers the missing numbers if and only if the overcount modulo 2^64 plus their number stays below 2^64, and is exact if and only if the overcount is a multiple of 2^64; while the overcount fits in 64 bits, it covers them if and only if the losses do |
| Traffic.SmallNumbersDoNotWrap | immortal-ns3/scratch/nr-immortal.cc:383-385 | fewer than 2^32 arrivals, each with a number below 2^32, do not wrap the counter |
| Traffic.WrappedCounterMisses | immortal-ns3/scratch/nr-immortal.cc:383-385 | the counter can wrap below the true loss: after 1, 2^64-1, 1, 2^64-1 it says 2^64-5 and 2^64-3 numbers are missing |
| Traffic.LostExactWhenIncreasing | immortal-ns3/scratch/nr-immortal.cc:383-385 | for strictly increasing arrivals, packets received plus losses is last minus first plus one |
| Traffic.ReorderingOvercounts | immortal-ns3/scratch/nr-immortal.cc:383-385 | under reordering the counter exceeds the true loss: two losses counted, none missing |
| Traffic.PacketSinkWithStats.HandleRead | immortal-ns3/scratch/nr-immortal.cc:366-387 | draining the socket keeps every statistic equal to its function of all arrivals so far, counters modulo 2^64 |
| Traffic.SinkReads | immortal-ns3/scratch/nr-immortal.cc:366-387 | a sink holds the delay of every packet received in milliseconds, the least and the greatest of them (or its start values), and the last number |
| Traffic.PacketSinkWithStats.GetAvgDelayMs | immortal-ns3/scratch/nr-immortal.cc:339-344 | the average times the number of delays is their sum (0 without any), and it lies between the recorded extremes |
| Traffic.PacketSinkWithStats.GetJitterRadicand | immortal-ns3/scratch/nr-immortal.cc:346-353 | the number under the square root is the population variance of all delays, never negative, and 0 for fewer than two |
| Traffic.UdpClientWithHeader.SendPacket | immortal-ns3/scratch/nr-immortal.cc:462-472 | the object's new state: one more numbered packet, the counter wrapped at 2^32, the next send scheduled |
| Traffic.SenderIsPaced | immortal-ns3/scratch/nr-immortal.cc:442-472 | over every run from a single start the sent numbers are 1..sent, at most the maximum, packet k leaves at start + k intervals, and at most one send is pending |
| Traffic.SenderKeepsSending | immortal-ns3/scratch/nr-immortal.cc:442-472 | in every such run the next packet is pending, for its own time, exactly while fewer than the maximum are sent and the client has not been stopped |
| Traffic.PacketsConserved | immortal-ns3/scratch/nr-immortal.cc:366-472 | over every run with a lossy in-order channel, packets before the first arrival, received, counted lost and after the last arrival add up to the packets sent |
| Traffic.SinkConservesPackets | immortal-ns3/scratch/nr-immortal.cc:366-472 | the same with the object's counters: before the first, received, m_lost and after m_lastSeq add up to the packets sent, and the 64-bit counters have not wrapped |
| Traffic.InvStep | immortal-ns3/scratch/nr-immortal.cc:442-472 | every send, drop, delivery and stop keeps the invariant of sender and channel |
| Metrics.BytesConserved | immortal-ns3/scratch/nr-immortal.cc:560-631 | over every run of samples, the bytes recovered from the reported rates plus those absorbed by intervals of length zero are exactly the bytes received, downlink and uplink |
| Metrics.CursorTracksBytes | immortal-ns3/scratch/nr-immortal.cc:598-604 | the counter subtraction never underflows: it is the true difference, even across a wrap of the 64-bit total |
| Metrics.RealMetricsCollector.Deliver | immortal-ns3/scratch/nr-immortal.cc:366-387 | packets that arrive at a sink leave time and byte counts of the collector in order, as the theorems about runs of samples need it |
| Metrics.LossRatioUnderstates | immortal-ns3/scratch/nr-immortal.cc:618-620 | since the received count is in bytes, the reported loss ratio is at most the packet loss ratio for packets of any sizes, and equal to it if and only if nothing was lost or every packet has a single byte |
| Metrics.LatencyWithinExtremesIff | immortal-ns3/scratch/nr-immortal.cc:567-612 | the reported minimum is the least delay of the counted sinks; the byte-weighted average latency never exceeds the reported maximum, and is at least that least delay if and only if the excess of the counted sinks over it makes up for the bytes of the skipped ones; so always if none is skipped |
| Metrics.SkippedSinkBreaksMinimum | immortal-ns3/scratch/nr-immortal.cc:571-596 | a sink with bytes and a zero average breaks the lower bound: 5 ms on average are reported with a minimum of 10 ms |
| Metrics.SkippedSinkOccurs | immortal-ns3/scratch/nr-immortal.cc:339-387 | two sink objects come to these statistics: one has received a packet after 10 ms, the other one in no time |
| Metrics.SinkIsConsistent | immortal-ns3/scratch/nr-immortal.cc:339-344 | the statistics of every valid sink are consistent, and a sink with bytes whose packets all took some time is not skipped |
| Metrics.RealMetricsCollector.SumSinks | immortal-ns3/scratch/nr-immortal.cc:567-596 | the loop over sinks computes the fold of their statistics |
| Metrics.RealMetricsCollector.CollectCurrentMetrics | immortal-ns3/scratch/nr-immortal.cc:560-631 | one sample is taken of the sinks, and the last-seen fields move on to it: bytes and losses are the sums over all sinks of both directions modulo 2^64 and the loss ratio their quotient, the rates are those of the byte differences, the average delay is weighted by bytes, the extremes are those of the counted sinks, and the jitter's radicand is the variance of their averages |
| Metrics.MeasureDescribes | immortal-ns3/scratch/nr-immortal.cc:560-631 | the same for every observation and every earlier sample |
| Metrics.TotalConserved | immortal-ns3/scratch/nr-immortal.cc:598-609 | over every run of samples, the bytes recovered from the total rates plus those absorbed by empty intervals are the bytes of both directions |
| Metrics.SampleUnderstatesLoss | immortal-ns3/scratch/nr-immortal.cc:567-620 | in a sample taken from sink objects that have received non-empty packets and whose sums fit in 64 bits, losses and bytes are those of all sinks, and the loss ratio is at most packets lost over packets lost or received, with equality if and only if nothing was lost or every packet has a single byte |
| Metrics.RealMetricsCollector.CaptureBaseline | immortal-ns3/scratch/nr-immortal.cc:542-547 | the baseline is taken once, and its collection is a sample like any other |
| Metrics.RealMetricsCollector.RecordMetrics | immortal-ns3/scratch/nr-immortal.cc:633-636 | one more sample is recorded, and it is the specified one |
| Statistics.RadicandIsVariance | immortal-ns3/scratch/nr-immortal.cc:346-353 | mean of squares minus square of the mean is the mean squared deviation, hence not negative |
| TypeGraph.GatherIsAllSimpleWalks | immortal-ns3/utils/print-introspected-doxygen.cc:505-596 | gathering from a root appends exactly one (type, path) entry for every labelled walk from it that repeats no type |
| TypeGraph.GatheredEnumerates | immortal-ns3/utils/print-introspected-doxygen.cc:513-596 | the same for any stack: one entry for every walk that repeats no type and avoids the stack, and no other entry |
| TypeGraph.EdgesAsOffered | immortal-ns3/utils/print-introspected-doxygen.cc:523-595 | the search takes each step from a type exactly as often as the registry offers it: once per attribute that points to the target (other than Object, under its own name) or contains it (with /[i]), once for a registered child, and once per recorded aggregation with it |
| TypeGraph.StepIff | immortal-ns3/utils/print-introspected-doxygen.cc:523-595 | in full: which steps lead from a type, in terms of its attributes, the children and the aggregations |
| TypeGraph.GatheredIff | immortal-ns3/utils/print-introspected-doxygen.cc:505-596 | gathering from a root lists a type with a path if and only if steps offered by the registry lead there from the root without repeating a type, along the names of the path |
| TypeGraph.NeighboursListed | immortal-ns3/utils/print-introspected-doxygen.cc:532-595 | every type one step from the root is listed under the step's name: pointed to by an attribute (Object excepted), held by a container, a child, or aggregated |
| TypeGraph.RenderCons | immortal-ns3/utils/print-introspected-doxygen.cc:433-443 | a path is written name by name, each behind a slash |
| TypeGraph.FreeCountsDown | immortal-ns3/utils/print-introspected-doxygen.cc:513-596 | on a stack of distinct types the termination measure is the number of types minus the depth |
| TypeGraph.StaticInformation.DoGather | immortal-ns3/utils/print-introspected-doxygen.cc:513-596 | the mutually recursive loops over the object's stacks restore both stacks and append what the recursive specification says |
| TypeGraph.StaticInformation.Gather | immortal-ns3/utils/print-introspected-doxygen.cc:505-511 | the appended entries enumerate the simple walks from the root, and an entry is among them if and only if steps offered by the registry lead there; sorting and de-duplicating work on a copy, so nothing else happens to the output |
| GatherOutput.DistinctIffUnambiguous | immortal-ns3/utils/print-introspected-doxygen.cc:488-596 | no entry is appended twice if and only if no two different walks of the search stand for the same type and path |
| GatherOutput.DistinctIffNoTwins | immortal-ns3/utils/print-introspected-doxygen.cc:488-596 | where a step's name tells its target and its names are without slashes, the output from a root is free of repetitions if and only if no walk that repeats no type reaches a type with two identical steps to a type not met before |
| GatherOutput.SortedClimbs | immortal-ns3/utils/print-introspected-doxygen.cc:488-596 | an output in order of type numbers forces every walk that repeats no type to climb in type number, so one walk that steps down leaves the output unsorted |
| GatherOutput.RenderInjective | immortal-ns3/utils/print-introspected-doxygen.cc:433-443 | such step names can be read off the rendered path |
| GatherOutput.RecordedTwiceRepeats | immortal-ns3/utils/print-introspected-doxygen.cc:619-633 | an aggregation recorded twice, as the one of Node and Icmpv4L4Protocol is, lists the protocol's path twice when gathering from the list of nodes, behind a type of higher number: the output is neither unique nor sorted |
| TypeGraph.StaticInformation.HasAlreadyBeenProcessed | immortal-ns3/utils/print-introspected-doxygen.cc:445-457 | the linear search decides membership in the stack |
| TypeGraph.StaticInformation.RecordAggregationInfo | immortal-ns3/utils/print-introspected-doxygen.cc:394-414 | an aggregation is recorded when both names are registered; otherwise the first unknown name is noted |
| TypeGraph.StaticInformation.Get | immortal-ns3/utils/print-introspected-doxygen.cc:459-471 | exactly the paths recorded for the type, in order |
| TypeGraph.PathsAreRecorded | immortal-ns3/utils/print-introspected-doxygen.cc:459-471 | a path is given for a type as often as it was recorded for it |
| WorkerPool.PoolCompletes | immortal-ns3/test.py:1087-1171 | for every number of jobs and workers, every interleaving and every moment of the interrupt: no run is longer than 6 jobs + 3 workers + 5 steps, and when no thread can move the main thread is done, both queues are empty, each worker has exited and each job was collected exactly once, executed unless it is skipped or was interrupted |
| PoolTrace.RanAsReported | immortal-ns3/test.py:1129-1155 | in every run each collected job that was run carries the return code and the report with which a worker's run of just that job ended |
| PoolTrace.IsSeen | immortal-ns3/test.py:1087-1171 | in every run each job that a step settles - run to its end, passed over or kept from starting - is on its way back or collected at the end, as the step settled it |
| WorkerPool.InvStep | immortal-ns3/test.py:1087-1171 | every step of every thread keeps the invariant: queue contents, exactly one copy of every job, poison behind all work |
| WorkerPool.NeverStuck | immortal-ns3/test.py:1963-1964 | until the main thread is done some thread can move, so the blocking gets never starve |
| WorkerPool.EveryStepCounts | immortal-ns3/test.py:1585-1626 | every step decreases the measure |
| WorkerPool.FinishedIsComplete | immortal-ns3/test.py:2124-2129 | when the main thread has joined all workers nothing is left anywhere |
| WorkerPool.CompletesIff | immortal-ns3/test.py:1623-1626 | every run that cannot go on has collected everything if and only if there is a worker or there are no jobs |
| WorkerPool.StarvesWithoutWorkers | immortal-ns3/test.py:1963-1964 | without workers the collector waits for ever: a concrete run |
| Accounting.Collect | immortal-ns3/test.py:1955-2121 | the collect loop: each counter is the number of jobs with its verdict, each name list their names in order, and each job is left in the failed list as often as the branches leave it there |
| Accounting.CountersPerCode | immortal-ns3/test.py:1963-1999 | of the jobs that were run the passed counter counts those with code 0, failed 1, valgrind 2 and crashed any other; skipped counts those passed over |
| Accounting.VerdictsAddUp | immortal-ns3/test.py:1963-1999 | passed, failed, crashed, valgrind, skipped and interrupted jobs add up to all jobs |
| Accounting.ExitCodeIff | immortal-ns3/test.py:2238-2241 | the exit code is 0 if and only if no job was interrupted and every job that was not skipped returned 0 |
| Accounting.FailedJobsIff | immortal-ns3/test.py:1979-2121 | a job stays in the failed list if and only if it was run and returned non-zero or is a suite without a report that reads PASS or SKIP; it is there once for each of the two, a report being unread after another code than 0, 1 or 2 |
| Accounting.SuccessLeavesNoFailureIff | immortal-ns3/test.py:2088-2113 | on success the failed list is empty if and only if every suite that was executed left such a report |
| Accounting.FailedListMiscounts | immortal-ns3/test.py:1979-2113 | a passing suite without a readable report is listed as failed, and a failing suite is listed twice |
| Accounting.RunnerVerdict | immortal-ns3/test.py:1087-2241 | for every run of the pool that ends: each counter is the number of steps of the run that settled a job so (command ended with code 0, 1, 2 or another one, passed over, kept from starting by the interrupt), these add up to the jobs dispatched, a number is in a name list if and only if some step settled that job so, and the exit code is 0 if and only if no job was kept from starting and every command returned 0; the skipped count is that of the jobs dispatched as skipped unless interrupted |
| DependencyOrder.SortToDependencies | immortal-ns3/bindings/python/ns__init__.py:434-479 | the result exists if and only if some wave within the recursion limit loads everything; with a limit above the number of libraries, if and only if the dictionary is closed and acyclic; it is a permutation of the libraries with each after all that it links to, earlier layers first, and within a layer in the order of the list |
| DependencyOrder.Loader.Order | immortal-ns3/bindings/python/ns__init__.py:457-472 | the recursion over the lists updated in place: it succeeds exactly within the limit, and leaves the layers in the dictionary with nothing pending |
| DependencyOrder.ModulesThatCanBeLoaded | immortal-ns3/bindings/python/ns__init__.py:444-455 | the nested loops with a flag select just the pending libraries whose dependencies are all loaded, in the order of the list |
| DependencyOrder.LayerIsLongestChain | immortal-ns3/bindings/python/ns__init__.py:457-472 | a library is in layer k if and only if its longest dependency chain has k links |
| DependencyOrder.LoadsIff | immortal-ns3/bindings/python/ns__init__.py:457-472 | the waves end if and only if every dependency is in the dictionary and there is no cycle; then as many waves as libraries suffice |
| DependencyOrder.WavesAreOrdered | immortal-ns3/bindings/python/ns__init__.py:474-479 | in the flattened waves every library comes after everything it links to |
| DependencyOrder.WavesArePermutation | immortal-ns3/bindings/python/ns__init__.py:474-479 | once everything is loaded the flattened waves are a permutation of the libraries |
| DependencyOrder.EmptyWaveIsForever | immortal-ns3/bindings/python/ns__init__.py:462-472 | if a wave loads nothing, every pending library waits for another one and none is ever loaded |
| StyleFixer.FixThenCheckPasses | immortal-ns3/utils/check-style-clang-format.py:619-680 | for any file and any line check that is sound, fixing and checking again finds nothing, and fixing again changes nothing |
| StyleFixer.RegionShrinks | immortal-ns3/utils/check-style-clang-format.py:647-659 | after a fix, checking is switched on at most where it was on before, although fixes may make new guard lines |
| StyleFixer.OffRegionInFile | immortal-ns3/utils/check-style-clang-format.py:643-679 | in the file as read back after the fix, that line is still there, at the place where the fixed lines before it leave it |
| StyleFixer.PassingSurvives | immortal-ns3/utils/check-style-clang-format.py:619-680 | passing one check survives fixing another one, if line by line the second fix keeps the first check |
| StyleFixer.SecondPassReads | immortal-ns3/utils/check-style-clang-format.py:643-679 | what the next pass reads back from the file is the fixed lines without the emptied ones |
| StyleFixer.File.CheckManually | immortal-ns3/utils/check-style-clang-format.py:619-680 | the pass over a file looks at every line that is a guard or lies behind no OFF guard without an ON guard in between (at all lines if guards are not heeded): it is compliant if and only if all these comply, lists the others by number and in order (only the first in quiet check mode), and rewrites just those; a compliant file is not changed |
| StyleFixer.GuardTexts | immortal-ns3/utils/check-style-clang-format.py:43-53 | which lines are guards: the six texts, blanks around them aside |
| Text.ReadLinesOfConcat | immortal-ns3/utils/check-style-clang-format.py:643-679 | joining lines and splitting again gives the same lines |
| Text.ExpandKeepsStrip | immortal-ns3/utils/check-style-clang-format.py:942-991 | tab expansion does not change a stripped text without tabs |
| Text.TabStop | immortal-ns3/utils/check-style-clang-format.py:982-983 | a tab reaches to the next multiple of four columns |
| Text.ExpandedContains | immortal-ns3/utils/check-style-clang-format.py:904-909 | tab expansion creates no occurrence of a pattern without blanks |
| LineChecks.TabsSound | immortal-ns3/utils/check-style-clang-format.py:959-991 | the tabs check is sound: its fix complies, is one line, and keeps OFF guards |
| LineChecks.WhitespaceIff | immortal-ns3/utils/check-style-clang-format.py:926-956 | a line passes if and only if it ends in a newline with no blank before it; the fix cuts off all blanks at the end and puts a newline there |
| LineChecks.EmacsIff | immortal-ns3/utils/check-style-clang-format.py:886-923 | a line passes if and only if neither setting occurs anywhere in it; the fix deletes it |
| LineChecks.WhitespaceSound | immortal-ns3/utils/check-style-clang-format.py:926-956 | the whitespace check is sound and leaves the stripped text alone |
| LineChecks.EmacsSound | immortal-ns3/utils/check-style-clang-format.py:886-923 | the emacs check is sound: no guard is ever deleted |
| LineChecks.LicensesSound | immortal-ns3/utils/check-style-clang-format.py:822-883 | the license check is sound: the replaced first line complies, the others are deleted, no guard is touched |
| LineChecks.SpdxIs | immortal-ns3/utils/check-style-clang-format.py:866-872 | the replacement keeps everything around the license text, and the new text of the line is the SPDX identifier |
| LineChecks.OtherTextsDeleted | immortal-ns3/utils/check-style-clang-format.py:866-872 | a line with any license text but the first is rejected, and the fix deletes it |
| LineChecks.EachFixPasses | immortal-ns3/utils/check-style-clang-format.py:619-991 | any file fixed by any of the four checks passes that check, and fixing it again changes nothing |
| LineChecks.FullFixPasses | immortal-ns3/utils/check-style-clang-format.py:383-391 | the emacs, whitespace and tabs fixes in the script's order leave any file passing all three |
| LineChecks.FixingRunPassesIff | immortal-ns3/utils/check-style-clang-format.py:408-424 | after a fixing run over any file with the license, emacs, whitespace and tabs checks in the script's order the last three pass, and the license check passes if and only if every examined line that hides a license text behind a tab before the tabs fix is screened by a guard which that fix makes |
| LineChecks.FixingRunLeavesLicense | immortal-ns3/utils/check-style-clang-format.py:408-424 | a file for which the whole run leaves a license offence |
| LineChecks.TabFixMakesGuard | immortal-ns3/utils/check-style-clang-format.py:959-991 | a tab fix can make an OFF guard of an ordinary line |
| LineChecks.LicenseSurvivesTabsIff | immortal-ns3/utils/check-style-clang-format.py:822-991 | a file that passes the license check passes it after the tabs fix if and only if every examined line that hides a license text behind a tab lies behind a line which the fix turns into an OFF guard, with no ON guard in between |
| LineChecks.TabFixUncoversLicense | immortal-ns3/utils/check-style-clang-format.py:822-991 | a file that passes the license check need not pass it after the tabs fix, which comes later in the same run |
| BenchScheduler.Log | immortal-ns3/utils/bench-scheduler.cc:318-374 | the report is missing exactly for fewer than two results; otherwise all six averages are the exact means and all six variances the exact population variances, not negative, and zero exactly if all samples are equal |
| BenchScheduler.AccumulateStep | immortal-ns3/utils/bench-scheduler.cc:345-349 | one accumulation keeps count times average equal to the sum and the moment equal to the sum of squared deviations from the average, whatever the average was seeded with |
| BenchScheduler.DescribedVariance | immortal-ns3/utils/bench-scheduler.cc:360-368 | moment over count is the mean of squares minus the square of the mean, and not negative |
| BenchScheduler.SpreadPositiveIff | immortal-ns3/utils/bench-scheduler.cc:360-368 | the sum of squared deviations is positive if and only if some sample differs from the centre |
| BenchScheduler.Bench.Run | immortal-ns3/utils/bench-scheduler.cc:121-149 | a run executes exactly the requested number of events, unless the population is empty |
| LargeTransfer.Writer.WriteUntilBufferFull | immortal-ns3/examples/tcp/tcp-large-transfer.cc:210-232 | for any room, partial acceptance or refusal: the accepted stream stays a prefix of the repeated alphabet within the total, the writer gives up only because the socket blocks, and it closes exactly when everything is accepted |
| LargeTransfer.Writer.StartFlow | immortal-ns3/examples/tcp/tcp-large-transfer.cc:197-208 | after the start and any number of callbacks: the stream is that prefix, and the socket is closed if and only if all bytes are accepted |
| LargeTransfer.Writer.constructor | immortal-ns3/examples/tcp/tcp-large-transfer.cc:94-99 | the buffer holds the alphabet forty times |
| LargeTransfer.StreamGrows | immortal-ns3/examples/tcp/tcp-large-transfer.cc:216-226 | appending any piece of the buffer from the current offset extends the prefix |
| LargeTransfer.BufferContinuesStream | immortal-ns3/examples/tcp/tcp-large-transfer.cc:41-43 | because 26 divides the write size, the cyclic buffer continues the stream at any position |
| Netanim.GetNodeState | immortal-ns3/netanim_cinematic.py:131-146 | the state read from the sorted index with the early stop: a key has the value of the last update that applies, in time and then in document order; without one the value given to the node at the start; without that either 0 for the coordinates, #888888, 20 and Node with its number |
| Netanim.ExpectedIs | immortal-ns3/netanim_cinematic.py:131-146 | a replay of the raw log gives just these values |
| Netanim.ParseNodeUpdates | immortal-ns3/netanim_cinematic.py:53-81 | the built index has, per node, each update time once, in order, with what is merged there |
| Netanim.GroupUpdates | immortal-ns3/netanim_cinematic.py:53-73 | the dictionary of raw updates holds each (node, time) that occurs, with its changes in document order |
| Netanim.LatestIsLast | immortal-ns3/netanim_cinematic.py:131-139 | the replay's value is that of the last update in (time, document order) not later than the time asked for |
| Netanim.MergeOfChanges | immortal-ns3/netanim_cinematic.py:74-79 | merging the grouped changes of a slot is replaying the log at exactly that time |
| Netanim.ReadEntry | immortal-ns3/netanim_cinematic.py:134-139 | reading one more entry moves the state on to that entry's time |
| Netanim.GetAllEventTimes | immortal-ns3/netanim_cinematic.py:149-160 | the times of all updates and both ends of all packets, each once and in order, or the single time 0 |
| Netanim.FrameOfTime | immortal-ns3/netanim_cinematic.py:149-160 | the frame of the last event not later than a time shows the state at that time; before the first event nothing has changed |
| Fairness.JainBounds | immortal-ns3/examples/tcp/dctcp-example.cc:173-186 | Jain's index lies between 1/n and 1; it is 1 exactly if all flows got the same and 1/n exactly if one flow got everything |
| Fairness.LagrangeIdentity | immortal-ns3/examples/tcp/dctcp-example.cc:177-184 | n times the sum of squares exceeds the square of the sum by the squared differences of all pairs |
| Fairness.SquaresBelowTotal | immortal-ns3/examples/tcp/dctcp-example.cc:177-184 | the sum of squares is at most the square of the sum, with equality exactly for at most one flow |
| Fairness.GroupFairness | immortal-ns3/examples/tcp/dctcp-example.cc:177-184 | the accumulation loops compute both sums modulo 2^64 |
| Fairness.ReportIsJain | immortal-ns3/examples/tcp/dctcp-example.cc:177-184 | if n times the sum of squares fits in 64 bits, the report is Jain's index, or none if all counters are zero |
| Fairness.ReportIsJainIff | immortal-ns3/examples/tcp/dctcp-example.cc:177-184 | for any counters, the report computed in 64 bits is Jain's index (or none) if and only if all counters are zero or the scaled sum of squares is not a multiple of 2^64 and the two products wrap in proportion |
| Fairness.SmallCountersDoNotWrap | immortal-ns3/examples/tcp/dctcp-example.cc:177-184 | counters of at most B do not wrap if the square of n times B fits in 64 bits |
| Fairness.WrapLosesIndex | immortal-ns3/examples/tcp/dctcp-example.cc:177-184 | ten equal flows of 2^31 bytes are reported without a value |
| Fairness.Counters.TraceSink | immortal-ns3/examples/tcp/dctcp-example.cc:114-129 | an arrival adds to one counter and leaves the others |
| Fairness.Counters.PrintFairness | immortal-ns3/examples/tcp/dctcp-example.cc:173-217 | each group's report is what its own counters give in 64 bits, and it is Jain's index exactly under that condition |

## Left out

- SHA-256 itself (section 6.2 of FIPS 180-4): the digest is a parameter, any function from text to 32 bytes.
- NetAnim colours, sizes, descriptions, reports, CSV and console output of the simulation.
- NR radio, EPC, routing, mobility, sockets and the rest of the simulator: kept are a clock, pending events and channels.
- Floating-point rounding, and square roots: variances are proved equal to their definition and not negative.
- GatherOutput.DistinctIffNoTwins: is stated for registries whose step names can be told apart (no slashes, one target per name); without that, `GatherOutput.DistinctIffUnambiguous` holds for all.
- Scenario, failure and sample names are enumerations, and the twelve text members of an identity are one record.
- The early returns after the manager has ensured both agents cannot be taken and are not modelled.
- Pending events with equal times may fire in any order; the simulator takes them in scheduling order, which is one of these.
- `MyHeader` byte layout and the two duplicate agents created only to be shown.
- Job arguments, subprocesses, reports and translation in the test runner: a job returns any code with any report.
- The test runner stops with an exception if the result file of a suite that returned 0, 1 or 2 is missing altogether; the model has the unreadable file only.
- Display names and skip reasons: a job is known by its number.
- `extract_linked_libraries`, the library search and the loading with cppyy: the dependency map is an input.
- The `include_prefixes` check (it asks the file system), `include_quotes`, `doxygen_tags`, the encoding check and clang-format.
- Translation of line ends on reading and the wording of messages in the style checker: offences are line numbers.
- The wrappers of the benchmark suite around scheduler factories, and wall-clock times.
- Connecting and the network side of the large transfer; the socket is any that accepts a non-empty part or refuses.
- XML parsing of the animation log and its packets' addresses: updates are those that the parser accepts.
- Averages, throughputs and queue lengths in the DCTCP example: sums and unit conversion.
- The other ns-3 examples, `netanim_3d_viz.py` (the same index again), `bench-packets.cc` and the templates.
