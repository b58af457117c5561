/** The test runner's worker pool: a main thread, workers, two FIFO queues, poison jobs and an interrupt flag
    that may flip at any moment, as a transition system over all interleavings. */
module WorkerPool {

  /** A unit of work; ran says that its results were set by a run, xmlPasses that the suite's own result file
      reads PASS or SKIP. */
  datatype Job = Job(id: nat, isSkip: bool, isExample: bool, isBreak: bool, ran: bool, returncode: int, xmlPasses: bool)

  datatype Item = Real(job: Job) | Poison

  /** Where a worker thread stands between two shared-memory operations. */
  datatype Worker =
    | Idle
    | Holding(job: Job)
    | Running(job: Job)
    | Reporting(job: Job)
    | Exited
  {
    predicate Busy() { Holding? || Running? || Reporting? }
  }

  /** Where the main thread stands. */
  datatype Main =
    | Dispatching(next: nat)
    | Poisoning(sent: nat)
    | Collecting(got: nat)
    | Joining(next: nat)
    | Finished

  datatype Pool = Pool(jobs: seq<Job>, main: Main, input: seq<Item>, output: seq<Job>,
                       workers: seq<Worker>, threadExit: bool, collected: seq<Job>)

  /** Who moves; a finishing job brings an arbitrary return code and result file. */
  datatype Label = MainStep | WorkerStep(w: nat, code: int, xml: bool) | Interrupt

  /** A step is enabled when the thread is not blocked on an empty queue or on a live thread. */
  predicate Enabled(s: Pool, l: Label)
  {
    match l
    case Interrupt => !s.threadExit
    case MainStep =>
      (match s.main
       case Collecting(n) => n < |s.jobs| ==> s.output != []
       case Joining(w) => w < |s.workers| ==> s.workers[w].Exited?
       case Finished => false
       case _ => true)
    case WorkerStep(w, _, _) =>
      w < |s.workers| && !s.workers[w].Exited? && (s.workers[w].Idle? ==> s.input != [])
  }

  function DoMain(s: Pool): Pool
    requires Enabled(s, MainStep)
  {
    match s.main
    case Dispatching(k) =>
      if k < |s.jobs| then s.(input := s.input + [Real(s.jobs[k])], main := Dispatching(k + 1))
      else s.(main := Poisoning(0))
    case Poisoning(k) =>
      if k < |s.workers| then s.(input := s.input + [Poison], main := Poisoning(k + 1))
      else s.(main := Collecting(0))
    case Collecting(k) =>
      if k < |s.jobs|
      then s.(output := s.output[1..], collected := s.collected + [s.output[0]], main := Collecting(k + 1))
      else s.(main := Joining(0))
    case Joining(w) => s.(main := if w < |s.workers| then Joining(w + 1) else Finished)
  }

  /** One turn of the worker loop, cut at every access to shared state. */
  function DoWorker(s: Pool, w: nat, code: int, xml: bool): Pool
    requires Enabled(s, WorkerStep(w, code, xml))
  {
    match s.workers[w]
    case Idle =>
      var next := if s.input[0].Poison? then Exited else Holding(s.input[0].job);
      s.(input := s.input[1..], workers := s.workers[w := next])
    case Holding(j) =>
      var next := if s.threadExit then Reporting(j.(isBreak := true))
                  else if j.isSkip then Reporting(j)
                  else Running(j);
      s.(workers := s.workers[w := next])
    case Running(j) => s.(workers := s.workers[w := Reporting(j.(ran := true, returncode := code, xmlPasses := xml))])
    case Reporting(j) => s.(workers := s.workers[w := Idle], output := s.output + [j])
  }

  function Next(s: Pool, l: Label): Pool
    requires Enabled(s, l)
  {
    match l
    case Interrupt => s.(threadExit := true)
    case MainStep => DoMain(s)
    case WorkerStep(w, code, xml) => DoWorker(s, w, code, xml)
  }

  /** Jobs are numbered in dispatch order and are ordinary work when dispatched. */
  ghost predicate Numbered(jobs: seq<Job>)
  {
    forall i :: 0 <= i < |jobs| ==> jobs[i].id == i && !jobs[i].isBreak && !jobs[i].ran
  }

  function Start(jobs: seq<Job>, processors: nat): Pool
  {
    Pool(jobs, Dispatching(0), [], [], seq(processors, i => Idle), false, [])
  }

  ghost predicate IsRun(s: Pool, labels: seq<Label>)
    decreases |labels|
  {
    labels == [] || (Enabled(s, labels[0]) && IsRun(Next(s, labels[0]), labels[1..]))
  }

  ghost function After(s: Pool, labels: seq<Label>): Pool
    requires IsRun(s, labels)
    decreases |labels|
  {
    if labels == [] then s else After(Next(s, labels[0]), labels[1..])
  }

  // ---------- counting ----------

  /** Copies of job number k in a list, and in the workers' hands. */
  function Count(js: seq<Job>, k: nat): nat
  {
    if js == [] then 0 else Count(js[..|js| - 1], k) + if js[|js| - 1].id == k then 1 else 0
  }

  function Holds(w: Worker, k: nat): nat { if w.Busy() && w.job.id == k then 1 else 0 }

  function Held(ws: seq<Worker>, k: nat): nat
  {
    if ws == [] then 0 else Held(ws[..|ws| - 1], k) + Holds(ws[|ws| - 1], k)
  }

  function BusyOne(w: Worker): nat { if w.Busy() then 1 else 0 }

  function BusyCount(ws: seq<Worker>): nat
  {
    if ws == [] then 0 else BusyCount(ws[..|ws| - 1]) + BusyOne(ws[|ws| - 1])
  }

  function ExitOne(w: Worker): nat { if w.Exited? then 1 else 0 }

  function Exits(ws: seq<Worker>): nat
  {
    if ws == [] then 0 else Exits(ws[..|ws| - 1]) + ExitOne(ws[|ws| - 1])
  }

  /** Turns a worker still needs before it is free again. */
  function Stage(w: Worker): nat
  {
    match w case Holding(_) => 3 case Running(_) => 2 case Reporting(_) => 1 case _ => 0
  }

  function Stages(ws: seq<Worker>): nat
  {
    if ws == [] then 0 else Stages(ws[..|ws| - 1]) + Stage(ws[|ws| - 1])
  }

  lemma {:induction false} UpdateWorker(ws: seq<Worker>, i: nat, x: Worker)
    requires i < |ws|
    ensures forall k :: Held(ws[i := x], k) == Held(ws, k) - Holds(ws[i], k) + Holds(x, k)
    ensures BusyCount(ws[i := x]) == BusyCount(ws) - BusyOne(ws[i]) + BusyOne(x)
    ensures Exits(ws[i := x]) == Exits(ws) - ExitOne(ws[i]) + ExitOne(x)
    ensures Stages(ws[i := x]) == Stages(ws) - Stage(ws[i]) + Stage(x)
  {
    hide Holds, BusyOne, ExitOne, Stage;
    var n := |ws| - 1;
    if i == n {
      assert ws[i := x][..n] == ws[..n];
    } else {
      UpdateWorker(ws[..n], i, x);
      assert ws[i := x][..n] == ws[..n][i := x];
    }
  }

  lemma CountSnoc(js: seq<Job>, j: Job, k: nat)
    ensures Count(js + [j], k) == Count(js, k) + if j.id == k then 1 else 0
  {
    assert (js + [j])[..|js|] == js;
  }

  lemma {:induction false} CountCons(js: seq<Job>, k: nat)
    requires js != []
    ensures Count(js, k) == (if js[0].id == k then 1 else 0) + Count(js[1..], k)
  {
    var n := |js| - 1;
    if n > 0 {
      CountCons(js[..n], k);
      assert js[..n][1..] == js[1..][..n - 1];
    }
  }

  lemma {:induction false} Idling(n: nat)
    ensures var ws := seq(n, i => Idle);
            (forall k :: Held(ws, k) == 0) && BusyCount(ws) == 0 && Exits(ws) == 0 && Stages(ws) == 0
  {
    if n > 0 {
      Idling(n - 1);
      assert seq(n, i => Idle)[..n - 1] == seq(n - 1, i => Idle);
    }
  }

  lemma {:induction false} WorkerCounts(ws: seq<Worker>)
    ensures BusyCount(ws) + Exits(ws) <= |ws|
    ensures BusyCount(ws) == 0 <==> forall i :: 0 <= i < |ws| ==> !ws[i].Busy()
    ensures Exits(ws) == |ws| <==> forall i :: 0 <= i < |ws| ==> ws[i].Exited?
    ensures Exits(ws) == 0 <==> forall i :: 0 <= i < |ws| ==> !ws[i].Exited?
    ensures BusyCount(ws) == 0 ==> Stages(ws) == 0
  {
    if ws != [] {
      var n := |ws| - 1;
      WorkerCounts(ws[..n]);
      assert forall i :: 0 <= i < n ==> ws[i] == ws[..n][i];
    }
  }

  // ---------- the invariant ----------

  /** How many jobs the main thread has put into the input queue, and how many poison jobs. */
  function Sent(s: Pool): nat
  {
    match s.main case Dispatching(k) => k case _ => |s.jobs|
  }

  function Poisoned(s: Pool): nat
  {
    match s.main case Dispatching(_) => 0 case Poisoning(k) => k case _ => |s.workers|
  }

  function Got(s: Pool): nat
  {
    match s.main case Dispatching(_) => 0 case Poisoning(_) => 0 case Collecting(k) => k case _ => |s.jobs|
  }

  /** The input queue holds the jobs not yet taken, in order, and behind them the poison not yet swallowed. */
  ghost predicate QueueInv(s: Pool, taken: nat)
  {
    && taken <= Sent(s) <= |s.jobs|
    && Exits(s.workers) <= Poisoned(s) <= |s.workers|
    && (Exits(s.workers) > 0 ==> taken == |s.jobs|)
    && |s.input| == Sent(s) - taken + Poisoned(s) - Exits(s.workers)
    && forall i :: 0 <= i < |s.input| ==>
         s.input[i] == if i < Sent(s) - taken then Real(s.jobs[taken + i]) else Poison
  }

  /** Every job taken is in exactly one place. */
  ghost predicate CopiesInv(s: Pool, taken: nat)
  {
    && (forall k: nat :: Count(s.collected, k) + Count(s.output, k) + Held(s.workers, k)
                         == if k < taken then 1 else 0)
    && |s.collected| + |s.output| + BusyCount(s.workers) == taken
    && |s.collected| == Got(s) <= |s.jobs|
  }

  /** Job number j.id on its way back: it was run unless it is skipped or was interrupted. */
  ghost predicate Tracks(jobs: seq<Job>, j: Job, interrupted: bool)
  {
    && j.id < |jobs|
    && j.isSkip == jobs[j.id].isSkip && j.isExample == jobs[j.id].isExample
    && (j.isBreak ==> interrupted)
    && (j.ran <==> !j.isBreak && !j.isSkip)
  }

  /** A worker that has not finished its job holds it just as it was dispatched. */
  ghost predicate InHand(jobs: seq<Job>, w: Worker, interrupted: bool)
  {
    match w
    case Holding(j) => j.id < |jobs| && j == jobs[j.id]
    case Running(j) => j.id < |jobs| && j == jobs[j.id] && !j.isSkip
    case Reporting(j) => Tracks(jobs, j, interrupted)
    case _ => true
  }

  ghost predicate TrackInv(s: Pool)
  {
    && Numbered(s.jobs)
    && (forall i :: 0 <= i < |s.collected| ==> Tracks(s.jobs, s.collected[i], s.threadExit))
    && (forall i :: 0 <= i < |s.output| ==> Tracks(s.jobs, s.output[i], s.threadExit))
    && (forall i :: 0 <= i < |s.workers| ==> InHand(s.jobs, s.workers[i], s.threadExit))
  }

  ghost predicate JoinInv(s: Pool)
  {
    && (s.main.Joining? ==> s.main.next <= |s.workers| && forall i :: 0 <= i < s.main.next ==> s.workers[i].Exited?)
    && (s.main.Finished? ==> forall i :: 0 <= i < |s.workers| ==> s.workers[i].Exited?)
  }

  /** taken: how many jobs have left the input queue. */
  ghost predicate Inv(s: Pool, taken: nat)
  {
    QueueInv(s, taken) && CopiesInv(s, taken) && TrackInv(s) && JoinInv(s)
  }

  lemma InvInitially(jobs: seq<Job>, processors: nat)
    requires Numbered(jobs)
    ensures Inv(Start(jobs, processors), 0)
  {
    Idling(processors);
  }

  /** Jobs taken after a step. */
  function Taken(s: Pool, l: Label, taken: nat): nat
    requires Enabled(s, l)
  {
    if l.WorkerStep? && s.workers[l.w].Idle? && s.input[0].Real? then taken + 1 else taken
  }

  lemma QueueMain(s: Pool, taken: nat)
    requires QueueInv(s, taken) && Enabled(s, MainStep)
    ensures QueueInv(DoMain(s), taken)
  {
    hide Exits;
    WorkerCounts(s.workers);
  }

  lemma QueueTake(s: Pool, l: Label, taken: nat)
    requires QueueInv(s, taken) && l.WorkerStep? && Enabled(s, l) && s.workers[l.w].Idle?
    ensures QueueInv(Next(s, l), Taken(s, l, taken))
  {
    var t := Next(s, l);
    hide Exits;
    UpdateWorker(s.workers, l.w, t.workers[l.w]);
    assert forall i :: 0 <= i < |t.input| ==> t.input[i] == s.input[i + 1];
    if s.input[0].Poison? {
      assert Sent(s) == taken && taken == |s.jobs|;
    }
  }

  lemma QueueStep(s: Pool, l: Label, taken: nat)
    requires QueueInv(s, taken) && Enabled(s, l)
    ensures QueueInv(Next(s, l), Taken(s, l, taken))
  {
    match l {
      case Interrupt => QueueUnmoved(s, l, taken);
      case MainStep =>
        QueueMain(s, taken);
        hide QueueInv;
      case WorkerStep(w, _, _) =>
        if s.workers[w].Idle? {
          QueueTake(s, l, taken);
          hide QueueInv, Next, Taken;
        } else {
          QueueUnmoved(s, l, taken);
          hide QueueInv, Next;
        }
    }
  }

  /** An interrupt, and a worker that takes nothing, leave the input queue alone. */
  lemma QueueUnmoved(s: Pool, l: Label, taken: nat)
    requires QueueInv(s, taken) && Enabled(s, l)
    requires l.Interrupt? || (l.WorkerStep? && !s.workers[l.w].Idle?)
    ensures QueueInv(Next(s, l), taken)
  {
    hide Exits;
    if l.WorkerStep? {
      UpdateWorker(s.workers, l.w, Next(s, l).workers[l.w]);
    }
  }

  lemma TrackStep(s: Pool, l: Label, taken: nat)
    requires QueueInv(s, taken) && TrackInv(s) && Enabled(s, l)
    ensures TrackInv(Next(s, l))
  {
    if l.WorkerStep? && s.workers[l.w].Idle? && s.input[0].Real? {
      assert s.input[0] == Real(s.jobs[taken]);
    }
  }

  lemma JoinStep(s: Pool, l: Label)
    requires JoinInv(s) && Enabled(s, l)
    ensures JoinInv(Next(s, l))
  {
  }

  lemma CopiesMain(s: Pool, taken: nat)
    requires QueueInv(s, taken) && CopiesInv(s, taken) && Enabled(s, MainStep)
    ensures CopiesInv(DoMain(s), taken)
  {
    var t := DoMain(s);
    hide Count, Held;
    if s.main.Collecting? && s.main.got < |s.jobs| {
      forall k: nat
        ensures Count(t.collected, k) + Count(t.output, k) == Count(s.collected, k) + Count(s.output, k)
      {
        CountCons(s.output, k);
        CountSnoc(s.collected, s.output[0], k);
      }
    }
  }

  lemma CopiesInterrupt(s: Pool, taken: nat)
    requires CopiesInv(s, taken)
    ensures CopiesInv(s.(threadExit := true), taken)
  {
    hide Count, Held, BusyCount;
  }

  lemma CopiesTake(s: Pool, l: Label, taken: nat)
    requires QueueInv(s, taken) && CopiesInv(s, taken) && TrackInv(s)
    requires l.WorkerStep? && Enabled(s, l) && s.workers[l.w].Idle?
    ensures CopiesInv(Next(s, l), Taken(s, l, taken))
  {
    var t := Next(s, l);
    hide Count, Held, BusyCount, Exits;
    UpdateWorker(s.workers, l.w, t.workers[l.w]);
    if s.input[0].Real? {
      assert s.input[0] == Real(s.jobs[taken]);
    }
  }

  lemma CopiesWork(s: Pool, l: Label, taken: nat)
    requires CopiesInv(s, taken) && l.WorkerStep? && Enabled(s, l) && s.workers[l.w].Busy()
    ensures CopiesInv(Next(s, l), taken)
  {
    var t := Next(s, l);
    hide Count, Held, BusyCount;
    var old' := s.workers[l.w];
    UpdateWorker(s.workers, l.w, t.workers[l.w]);
    if old'.Reporting? {
      forall k: nat ensures Count(t.output, k) == Count(s.output, k) + Holds(old', k) {
        CountSnoc(s.output, old'.job, k);
      }
    }
  }

  /** Every step keeps the invariant. */
  lemma InvStep(s: Pool, l: Label, taken: nat)
    requires Inv(s, taken) && Enabled(s, l)
    ensures Inv(Next(s, l), Taken(s, l, taken))
  {
    hide QueueInv, TrackInv, JoinInv, CopiesInv;
    QueueStep(s, l, taken);
    TrackStep(s, l, taken);
    JoinStep(s, l);
    match l {
      case Interrupt => CopiesInterrupt(s, taken);
      case MainStep => CopiesMain(s, taken);
      case WorkerStep(w, _, _) =>
        if s.workers[w].Idle? { CopiesTake(s, l, taken); } else { CopiesWork(s, l, taken); }
    }
  }

  // ---------- termination and progress ----------

  /** Steps of the main thread for n jobs and p workers. */
  function MainLeft(m: Main, n: nat, p: nat): int
  {
    match m
    case Dispatching(k) => (n - k) + 1 + (p + 1) + (n + 1) + (p + 1)
    case Poisoning(k) => (p - k) + 1 + (n + 1) + (p + 1)
    case Collecting(k) => (n - k) + 1 + (p + 1)
    case Joining(w) => (p - w) + 1
    case Finished => 0
  }

  /** Steps that can still happen: every step uses up at least one. */
  function Measure(s: Pool, taken: nat): int
  {
    MainLeft(s.main, |s.jobs|, |s.workers|) + 4 * (|s.jobs| - taken) + Stages(s.workers)
    + (|s.workers| - Exits(s.workers)) + if s.threadExit then 0 else 1
  }

  lemma MeasureIsNat(s: Pool, taken: nat)
    requires Inv(s, taken)
    ensures Measure(s, taken) >= 0
  {
    hide Exits, Stages, Count, Held, BusyCount;
    WorkerCounts(s.workers);
  }

  lemma WorkerUsesOne(s: Pool, l: Label, taken: nat)
    requires QueueInv(s, taken) && l.WorkerStep? && Enabled(s, l)
    ensures var t := Next(s, l);
            4 * Taken(s, l, taken) + Exits(t.workers) - Stages(t.workers)
            >= 4 * taken + Exits(s.workers) - Stages(s.workers) + 1
  {
    hide Exits, Stages;
    UpdateWorker(s.workers, l.w, Next(s, l).workers[l.w]);
  }

  /** The main thread's program counters never pass their bounds. */
  lemma MainInBounds(s: Pool, taken: nat)
    requires Inv(s, taken)
    ensures match s.main
            case Dispatching(k) => k <= |s.jobs|
            case Poisoning(k) => k <= |s.workers|
            case Collecting(k) => k <= |s.jobs|
            case Joining(w) => w <= |s.workers|
            case Finished => true
  {
    hide Exits, Count, Held, BusyCount, TrackInv;
  }

  lemma MainUsesOne(s: Pool, taken: nat)
    requires Inv(s, taken) && Enabled(s, MainStep)
    ensures var t := DoMain(s);
            && MainLeft(t.main, |s.jobs|, |s.workers|) == MainLeft(s.main, |s.jobs|, |s.workers|) - 1
            && t.jobs == s.jobs && t.workers == s.workers && t.threadExit == s.threadExit
  {
    MainInBounds(s, taken);
    hide Inv;
  }

  lemma EveryStepCounts(s: Pool, l: Label, taken: nat)
    requires Inv(s, taken) && Enabled(s, l)
    ensures Measure(Next(s, l), Taken(s, l, taken)) < Measure(s, taken)
  {
    match l {
      case Interrupt =>
      case MainStep =>
        MainUsesOne(s, taken);
        hide DoMain;
      case WorkerStep(_, _, _) =>
        InvHasQueue(s, taken);
        WorkerUsesOne(s, l, taken);
        assert Next(s, l).main == s.main && Next(s, l).jobs == s.jobs && Next(s, l).threadExit == s.threadExit
               && |Next(s, l).workers| == |s.workers|;
        hide DoWorker, Taken;
    }
    hide Exits, Stages, Inv, QueueInv, MainLeft;
  }

  lemma InvHasQueue(s: Pool, taken: nat)
    requires Inv(s, taken)
    ensures QueueInv(s, taken)
  {
  }

  /** With at least one worker (or no job) some thread can always move until the main thread is done: the
      collector's blocking gets never starve. */
  lemma NeverStuck(s: Pool, taken: nat)
    requires Inv(s, taken) && !s.main.Finished?
    requires |s.workers| >= 1 || s.jobs == []
    ensures exists l :: l != Interrupt && Enabled(s, l)
  {
    if !Enabled(s, MainStep) {
      WorkerCounts(s.workers);
      if i :| 0 <= i < |s.workers| && s.workers[i].Busy() {
        assert Enabled(s, WorkerStep(i, 0, false));
      } else if s.main.Joining? {
        var w := s.main.next;
        assert s.workers[w].Idle?;
        assert Enabled(s, WorkerStep(w, 0, false));
      } else {
        assert taken < |s.jobs|;
        assert s.workers[0].Idle?;
        assert Enabled(s, WorkerStep(0, 0, false));
      }
    }
  }

  /** Every run keeps the invariant and is no longer than the measure of its start. */
  lemma {:induction false} RunFacts(s: Pool, labels: seq<Label>, taken: nat) returns (taken': nat)
    requires Inv(s, taken) && IsRun(s, labels)
    ensures Inv(After(s, labels), taken')
    ensures |labels| + Measure(After(s, labels), taken') <= Measure(s, taken)
    ensures After(s, labels).jobs == s.jobs && |After(s, labels).workers| == |s.workers|
    decreases |labels|
  {
    hide Inv, Measure;
    if labels == [] {
      taken' := taken;
    } else {
      var l := labels[0];
      StepFacts(s, l, taken);
      taken' := RunFacts(Next(s, l), labels[1..], Taken(s, l, taken));
    }
  }

  lemma StepFacts(s: Pool, l: Label, taken: nat)
    requires Inv(s, taken) && Enabled(s, l)
    ensures Inv(Next(s, l), Taken(s, l, taken))
    ensures Measure(Next(s, l), Taken(s, l, taken)) < Measure(s, taken)
    ensures Next(s, l).jobs == s.jobs && |Next(s, l).workers| == |s.workers|
  {
    InvStep(s, l, taken);
    EveryStepCounts(s, l, taken);
    hide Inv, Measure;
  }

  /** Nothing can move any more except the interrupt flag. */
  ghost predicate Stuck(s: Pool)
  {
    forall l :: Enabled(s, l) ==> l == Interrupt
  }

  /** Number of steps that no run exceeds, whatever the interleaving and whenever the flag flips. */
  function StepBound(jobs: nat, processors: nat): nat { 6 * jobs + 3 * processors + 5 }

  /** The protocol is right: every run is bounded, and when no thread can move, the main thread has finished,
      both queues are empty, every worker has exited on its own poison job and every job has been collected
      exactly once, with its own flags, marked interrupted only if the interrupt flag was set. */
  lemma PoolCompletes(jobs: seq<Job>, processors: nat, labels: seq<Label>)
    requires Numbered(jobs) && IsRun(Start(jobs, processors), labels)
    requires processors >= 1 || jobs == []
    ensures |labels| <= StepBound(|jobs|, processors)
    ensures Stuck(After(Start(jobs, processors), labels)) ==>
              Complete(After(Start(jobs, processors), labels), jobs, processors)
  {
    var s := Start(jobs, processors);
    InvInitially(jobs, processors);
    Idling(processors);
    var taken := RunFacts(s, labels, 0);
    var t := After(s, labels);
    MeasureIsNat(t, taken);
    if Stuck(t) {
      if !t.main.Finished? {
        NeverStuck(t, taken);
      }
      FinishedIsComplete(t, taken);
    }
  }

  ghost predicate Complete(s: Pool, jobs: seq<Job>, processors: nat)
  {
    && s.main.Finished? && s.input == [] && s.output == []
    && |s.workers| == processors && (forall i :: 0 <= i < processors ==> s.workers[i].Exited?)
    && |s.collected| == |jobs|
    && (forall k :: 0 <= k < |jobs| ==> Count(s.collected, k) == 1)
    && (forall i :: 0 <= i < |s.collected| ==> Tracks(jobs, s.collected[i], s.threadExit))
  }

  lemma FinishedIsComplete(s: Pool, taken: nat)
    requires Inv(s, taken) && s.main.Finished? && (|s.workers| >= 1 || s.jobs == [])
    ensures Complete(s, s.jobs, |s.workers|)
  {
    hide Count, Held, Tracks;
    WorkerCounts(s.workers);
    assert taken == |s.jobs|;
    assert BusyCount(s.workers) == 0;
    NoneHeld(s.workers);
    assert s.output == [];
    NoneCounted();
  }

  lemma {:induction false} NoneHeld(ws: seq<Worker>)
    requires forall i :: 0 <= i < |ws| ==> !ws[i].Busy()
    ensures forall k :: Held(ws, k) == 0
  {
    if ws != [] {
      NoneHeld(ws[..|ws| - 1]);
    }
  }

  lemma NoneCounted()
    ensures forall k :: Count([], k) == 0
  {
  }

  // ---------- without workers ----------

  /** Zero workers starve the collector: the run that dispatches everything ends in a state where the main
      thread waits for ever. */
  lemma StarvesWithoutWorkers(jobs: seq<Job>)
    requires jobs != []
    ensures exists labels :: IsRun(Start(jobs, 0), labels) && Stuck(After(Start(jobs, 0), labels))
                             && After(Start(jobs, 0), labels).main == Collecting(0)
  {
    var s := Start(jobs, 0);
    var labels := DispatchAll(s);
    var t := After(s, labels);
    forall l | Enabled(t, l) ensures l == Interrupt {
    }
  }

  lemma {:induction false} DispatchAll(s: Pool) returns (labels: seq<Label>)
    requires s.main.Dispatching? && s.main.next <= |s.jobs| && s.workers == [] && s.output == []
    ensures IsRun(s, labels)
    ensures var t := After(s, labels); t.main == Collecting(0) && t.workers == [] && t.output == [] && t.jobs == s.jobs
    decreases |s.jobs| - s.main.next
  {
    var t := DoMain(s);
    if s.main.next < |s.jobs| {
      var rest := DispatchAll(t);
      labels := [MainStep] + rest;
      assert labels[1..] == rest;
    } else {
      labels := [MainStep, MainStep];
      assert labels[1..] == [MainStep] && labels[1..][1..] == [];
      assert IsRun(DoMain(t), []);
      assert IsRun(t, labels[1..]);
    }
  }

  /** A run always ends with everything collected exactly when there is a worker or nothing to do. */
  lemma CompletesIff(jobs: seq<Job>, processors: nat)
    requires Numbered(jobs)
    ensures (forall labels :: IsRun(Start(jobs, processors), labels) && Stuck(After(Start(jobs, processors), labels))
               ==> Complete(After(Start(jobs, processors), labels), jobs, processors))
       <==> processors >= 1 || jobs == []
  {
    if processors >= 1 || jobs == [] {
      forall labels | IsRun(Start(jobs, processors), labels) && Stuck(After(Start(jobs, processors), labels))
        ensures Complete(After(Start(jobs, processors), labels), jobs, processors)
      {
        PoolCompletes(jobs, processors, labels);
      }
    } else {
      StarvesWithoutWorkers(jobs);
    }
  }
}
