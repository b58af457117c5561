/** The test runner's collect loop: verdict counters, the list of failed jobs and the exit code, over the jobs
    that come back from the worker pool in any order. */
module Accounting {
  import opened PoolTrace
  import opened WorkerPool

  datatype Status = Interrupted | Skip | Pass | Fail | Valgr | Crash

  /** The verdict on a collected job. */
  function Verdict(j: Job): Status
  {
    if j.isBreak then Interrupted
    else if j.isSkip then Skip
    else match j.returncode case 0 => Pass case 1 => Fail case 2 => Valgr case _ => Crash
  }

  /** The jobs with a given verdict, in the order they were collected. */
  function With(js: seq<Job>, st: Status): (found: seq<Job>)
    ensures |found| <= |js|
  {
    if js == [] then []
    else With(js[..|js| - 1], st) + if Verdict(js[|js| - 1]) == st then [js[|js| - 1]] else []
  }

  function Names(js: seq<Job>): (names: seq<nat>)
    ensures |names| == |js| && forall i :: 0 <= i < |js| ==> names[i] == js[i].id
  {
    seq(|js|, i requires 0 <= i < |js| => js[i].id)
  }

  /** A job really failed. */
  predicate BadCode(j: Job) { !j.isBreak && !j.isSkip && j.returncode != 0 }

  /** A suite that ran without leaving a result file that reads PASS or SKIP. */
  predicate BadReport(j: Job)
  {
    !j.isBreak && !j.isSkip && !j.isExample && (j.returncode !in {0, 1, 2} || !j.xmlPasses)
  }

  /** Copies of a job that stay in the list of failed jobs. */
  function Copies(j: Job): nat { (if BadCode(j) then 1 else 0) + if BadReport(j) then 1 else 0 }

  datatype Summary = Summary(passed: nat, failed: nat, crashed: nat, valgrind: nat, skipped: nat,
                             failedNames: seq<nat>, crashedNames: seq<nat>, valgrindNames: seq<nat>,
                             skippedNames: seq<nat>, failedJobs: seq<Job>, exitCode: int)

  /** What the counters and the failed list say after the given jobs. */
  ghost predicate Summarizes(s: Summary, js: seq<Job>)
  {
    && s.passed == |With(js, Pass)| && s.failed == |With(js, Fail)| && s.crashed == |With(js, Crash)|
    && s.valgrind == |With(js, Valgr)| && s.skipped == |With(js, Skip)|
    && s.failedNames == Names(With(js, Fail)) && s.crashedNames == Names(With(js, Crash))
    && s.valgrindNames == Names(With(js, Valgr)) && s.skippedNames == Names(With(js, Skip))
    && forall j :: multiset(s.failedJobs)[j] == multiset(js)[j] * Copies(j)
  }

  lemma WithSnoc(js: seq<Job>, j: Job, st: Status)
    ensures With(js + [j], st) == Noted(With(js, st), Verdict(j) == st, j)
    ensures Names(With(js + [j], st)) == Noted(Names(With(js, st)), Verdict(j) == st, j.id)
  {
    assert (js + [j])[..|js|] == js;
  }

  /** The copies of a job that one turn of the loop leaves behind. */
  function Left(j: Job): seq<Job>
  {
    One(BadCode(j), j) + One(BadReport(j), j)
  }

  function One<T>(b: bool, x: T): seq<T> { if b then [x] else [] }

  function Noted<T>(xs: seq<T>, b: bool, x: T): seq<T> { if b then xs + [x] else xs }

  function Bump(n: nat, b: bool): nat { if b then n + 1 else n }

  /** The summary after one more job: one counter goes up, its name is noted, the job's copies are appended. */
  function Extended(s: Summary, j: Job): Summary
  {
    var v := Verdict(j);
    Summary(Bump(s.passed, v == Pass), Bump(s.failed, v == Fail), Bump(s.crashed, v == Crash),
            Bump(s.valgrind, v == Valgr), Bump(s.skipped, v == Skip),
            Noted(s.failedNames, v == Fail, j.id), Noted(s.crashedNames, v == Crash, j.id),
            Noted(s.valgrindNames, v == Valgr, j.id), Noted(s.skippedNames, v == Skip, j.id),
            s.failedJobs + Left(j), s.exitCode)
  }

  /** The same, verdict by verdict. */
  lemma ExtendedBy(s: Summary, j: Job)
    ensures var t := s.(failedJobs := s.failedJobs + Left(j));
            Extended(s, j)
            == match Verdict(j)
               case Interrupted => t
               case Skip => t.(skipped := s.skipped + 1, skippedNames := s.skippedNames + [j.id])
               case Pass => t.(passed := s.passed + 1)
               case Fail => t.(failed := s.failed + 1, failedNames := s.failedNames + [j.id])
               case Valgr => t.(valgrind := s.valgrind + 1, valgrindNames := s.valgrindNames + [j.id])
               case Crash => t.(crashed := s.crashed + 1, crashedNames := s.crashedNames + [j.id])
  {
    hide Verdict, Left;
  }

  lemma SummarySnoc(s: Summary, js: seq<Job>, j: Job)
    requires Summarizes(s, js)
    ensures Summarizes(Extended(s, j), js + [j])
  {
    hide With, Copies, Verdict, Left;
    WithSnoc(js, j, Pass);
    WithSnoc(js, j, Fail);
    WithSnoc(js, j, Crash);
    WithSnoc(js, j, Valgr);
    WithSnoc(js, j, Skip);
    hide Names;
    forall x ensures multiset(s.failedJobs + Left(j))[x] == multiset(js + [j])[x] * Copies(x) {
      FailedSnoc(s.failedJobs, js, j, x);
    }
  }

  lemma FailedSnoc(failed: seq<Job>, js: seq<Job>, j: Job, x: Job)
    requires multiset(failed)[x] == multiset(js)[x] * Copies(x)
    ensures multiset(failed + Left(j))[x] == multiset(js + [j])[x] * Copies(x)
  {
    hide Copies, Left;
    LeftCount(j, x);
    CopiesSnoc(multiset(js)[x], if x == j then 1 else 0, Copies(x));
    assert multiset(js + [j])[x] == multiset(js)[x] + if x == j then 1 else 0;
  }

  lemma CopiesSnoc(a: nat, b: nat, c: nat)
    ensures (a + b) * c == a * c + b * c
  {
  }

  lemma LeftCount(j: Job, x: Job)
    ensures multiset(Left(j))[x] == if x == j then Copies(j) else 0
  {
  }

  /** The part of the loop that reads a suite's own report: the job stays in the list unless the report passes. */
  method ReadReport(failedJobs: seq<Job>, job: Job) returns (r: seq<Job>)
    requires !job.isBreak
    ensures r == failedJobs + One(BadReport(job), job)
  {
    r := failedJobs;
    if !job.isExample && !job.isSkip {
      r := r + [job];
      if job.returncode == 0 || job.returncode == 1 || job.returncode == 2 {
        if job.xmlPasses {
          r := r[..|r| - 1];
        }
      }
    }
  }

  /** One pass of the loop, on the counters and lists kept so far. */
  method CollectOne(before: Summary, job: Job) returns (s: Summary)
    ensures s == Extended(before, job)
  {
    ExtendedBy(before, job);
    s := before;
    if !job.isBreak {
      if job.isSkip {
        s := s.(skipped := s.skipped + 1, skippedNames := s.skippedNames + [job.id]);
      } else {
        s := s.(failedJobs := s.failedJobs + [job]);
        if job.returncode == 0 {
          s := s.(passed := s.passed + 1, failedJobs := s.failedJobs[..|s.failedJobs| - 1]);
        } else if job.returncode == 1 {
          s := s.(failed := s.failed + 1, failedNames := s.failedNames + [job.id]);
        } else if job.returncode == 2 {
          s := s.(valgrind := s.valgrind + 1, valgrindNames := s.valgrindNames + [job.id]);
        } else {
          s := s.(crashed := s.crashed + 1, crashedNames := s.crashedNames + [job.id]);
        }
      }
      assert s.failedJobs == before.failedJobs + One(BadCode(job), job);
      var failedJobs := ReadReport(s.failedJobs, job);
      s := s.(failedJobs := failedJobs);
    }
    assert s.failedJobs == before.failedJobs + Left(job);
    hide Extended, Left, BadCode, One;
  }

  /** The collect loop of the main thread. */
  method Collect(output: seq<Job>, totalTests: nat) returns (s: Summary)
    ensures Summarizes(s, output)
    ensures s.exitCode == if s.passed + s.skipped == totalTests then 0 else 1
  {
    s := Summary(0, 0, 0, 0, 0, [], [], [], [], [], 0);
    var i := 0;
    while i < |output|
      invariant 0 <= i <= |output|
      invariant Summarizes(s, output[..i])
    {
      hide Summarizes, Extended;
      SummarySnoc(s, output[..i], output[i]);
      assert output[..i + 1] == output[..i] + [output[i]];
      s := CollectOne(s, output[i]);
      i := i + 1;
    }
    assert output[..i] == output;
    s := s.(exitCode := if s.passed + s.skipped == totalTests then 0 else 1);
  }

  // ---------- what the summary says ----------

  /** Every job falls under exactly one verdict. */
  lemma {:induction false} VerdictsAddUp(js: seq<Job>)
    ensures |With(js, Pass)| + |With(js, Fail)| + |With(js, Crash)| + |With(js, Valgr)| + |With(js, Skip)|
            + |With(js, Interrupted)| == |js|
  {
    if js != [] {
      VerdictsAddUp(js[..|js| - 1]);
    }
  }

  ghost function Positions(js: seq<Job>, st: Status): set<nat>
  {
    set i | 0 <= i < |js| && Verdict(js[i]) == st
  }

  lemma PositionsSnoc(front: seq<Job>, j: Job, st: Status)
    ensures |Positions(front + [j], st)| == |Positions(front, st)| + if Verdict(j) == st then 1 else 0
  {
    hide Verdict;
    assert Positions(front + [j], st) == Positions(front, st) + if Verdict(j) == st then {|front|} else {};
  }

  lemma {:induction false} WithSize(js: seq<Job>, st: Status)
    ensures |With(js, st)| == |Positions(js, st)|
  {
    if js == [] {
      assert Positions(js, st) == {};
    } else {
      var front, j := js[..|js| - 1], js[|js| - 1];
      assert js == front + [j];
      hide *;
      WithSize(front, st);
      PositionsSnoc(front, j, st);
      WithSnoc(front, j, st);
      NotedLength(With(front, st), Verdict(j) == st, j);
    }
  }

  /** The job was run, neither passed over nor interrupted. */
  ghost predicate WasRun(j: Job) { !j.isBreak && !j.isSkip }

  /** One counter per return code: 0 passes, 1 fails, 2 is the memory checker's, anything else is a crash. */
  lemma CountersPerCode(s: Summary, js: seq<Job>)
    requires Summarizes(s, js)
    ensures s.passed == |set i | 0 <= i < |js| && WasRun(js[i]) && js[i].returncode == 0|
    ensures s.failed == |set i | 0 <= i < |js| && WasRun(js[i]) && js[i].returncode == 1|
    ensures s.valgrind == |set i | 0 <= i < |js| && WasRun(js[i]) && js[i].returncode == 2|
    ensures s.crashed == |set i | 0 <= i < |js| && WasRun(js[i]) && js[i].returncode !in {0, 1, 2}|
    ensures s.skipped == |set i | 0 <= i < |js| && !js[i].isBreak && js[i].isSkip|
  {
    assert s.passed == |With(js, Pass)| && s.failed == |With(js, Fail)| && s.crashed == |With(js, Crash)|
           && s.valgrind == |With(js, Valgr)| && s.skipped == |With(js, Skip)| by { hide With, Names, Copies; }
    hide With, Summarizes;
    WithSize(js, Pass);
    WithSize(js, Fail);
    WithSize(js, Valgr);
    WithSize(js, Crash);
    WithSize(js, Skip);
    assert Positions(js, Pass) == set i | 0 <= i < |js| && WasRun(js[i]) && js[i].returncode == 0;
    assert Positions(js, Fail) == set i | 0 <= i < |js| && WasRun(js[i]) && js[i].returncode == 1;
    assert Positions(js, Valgr) == set i | 0 <= i < |js| && WasRun(js[i]) && js[i].returncode == 2;
    assert Positions(js, Crash) == set i | 0 <= i < |js| && WasRun(js[i]) && js[i].returncode !in {0, 1, 2};
    assert Positions(js, Skip) == set i | 0 <= i < |js| && !js[i].isBreak && js[i].isSkip;
  }

  predicate Fine(j: Job) { !j.isBreak && (j.isSkip || j.returncode == 0) }

  lemma {:induction false} AllFineIff(js: seq<Job>)
    ensures |With(js, Pass)| + |With(js, Skip)| <= |js|
    ensures |With(js, Pass)| + |With(js, Skip)| == |js| <==> forall i :: 0 <= i < |js| ==> Fine(js[i])
  {
    if js != [] {
      var front := js[..|js| - 1];
      AllFineIff(front);
      assert forall i :: 0 <= i < |front| ==> front[i] == js[i];
    }
  }

  /** The exit code is 0 exactly when no job was interrupted and every job that was not skipped returned 0. */
  lemma ExitCodeIff(s: Summary, js: seq<Job>)
    requires Summarizes(s, js)
    requires s.exitCode == if s.passed + s.skipped == |js| then 0 else 1
    ensures s.exitCode == 0 <==> forall i :: 0 <= i < |js| ==> Fine(js[i])
    ensures s.exitCode == 0 ==> s.failed == 0 && s.crashed == 0 && s.valgrind == 0
  {
    hide With, Fine;
    AllFineIff(js);
    VerdictsAddUp(js);
  }

  /** A job stays in the failed list exactly when its code was bad or its suite left no good report. */
  lemma FailedJobsIff(s: Summary, js: seq<Job>, j: Job)
    requires Summarizes(s, js)
    ensures j in s.failedJobs
       <==> j in js && !j.isBreak && !j.isSkip && (j.returncode != 0 || (!j.isExample && !j.xmlPasses))
    ensures multiset(s.failedJobs)[j]
         == if j.isBreak || j.isSkip then 0
            else multiset(js)[j] * ((if j.returncode != 0 then 1 else 0)
                                    + if !j.isExample && (j.returncode !in {0, 1, 2} || !j.xmlPasses) then 1 else 0)
  {
    assert Copies(j) > 0 <==> !j.isBreak && !j.isSkip && (j.returncode != 0 || (!j.isExample && !j.xmlPasses));
    assert Copies(j)
        == if j.isBreak || j.isSkip then 0
           else (if j.returncode != 0 then 1 else 0)
                + if !j.isExample && (j.returncode !in {0, 1, 2} || !j.xmlPasses) then 1 else 0;
    hide With, Copies;
    assert multiset(s.failedJobs)[j] == multiset(js)[j] * Copies(j);
    assert j in s.failedJobs <==> multiset(s.failedJobs)[j] > 0;
    assert j in js <==> multiset(js)[j] > 0;
    ProductPositive(multiset(js)[j], Copies(j));
  }

  lemma ProductPositive(a: nat, b: nat)
    ensures a * b > 0 <==> a > 0 && b > 0
  {
    if a > 0 && b > 0 {
      assert a * b >= 1 * b by { assert (a - 1) * b >= 0; }
    }
  }

  /** A successful exit can still leave jobs in the failed list: exactly when some passing suite left no
      result file that reads PASS or SKIP. */
  lemma SuccessLeavesNoFailureIff(s: Summary, js: seq<Job>)
    requires Summarizes(s, js)
    requires forall i :: 0 <= i < |js| ==> Fine(js[i])
    ensures s.failedJobs == [] <==> forall i :: 0 <= i < |js| ==> js[i].isSkip || js[i].isExample || js[i].xmlPasses
  {
    hide Summarizes;
    if s.failedJobs != [] {
      var j := s.failedJobs[0];
      FailedJobsIff(s, js, j);
      var i :| 0 <= i < |js| && js[i] == j;
      assert Fine(js[i]);
    } else {
      forall i | 0 <= i < |js| ensures js[i].isSkip || js[i].isExample || js[i].xmlPasses {
        FailedJobsIff(s, js, js[i]);
        assert Fine(js[i]);
      }
    }
  }

  /** A passing suite with an unreadable report stays in the failed list, and a failing one is listed twice. */
  lemma FailedListMiscounts(s: Summary)
    requires var ok := Job(0, false, false, false, true, 0, false);
             var bad := Job(1, false, false, false, true, 1, false);
             Summarizes(s, [ok, bad])
    ensures multiset(s.failedJobs)[Job(0, false, false, false, true, 0, false)] == 1
    ensures multiset(s.failedJobs)[Job(1, false, false, false, true, 1, false)] == 2
  {
    hide With;
    var ok := Job(0, false, false, false, true, 0, false);
    var bad := Job(1, false, false, false, true, 1, false);
    var js := [ok, bad];
    assert multiset(js)[ok] == 1 && multiset(js)[bad] == 1;
    assert Copies(ok) == 1 && Copies(bad) == 2;
    assert multiset(s.failedJobs)[ok] == 1 * Copies(ok);
    assert multiset(s.failedJobs)[bad] == 1 * Copies(bad);
  }

  // ---------- pool and accounting together ----------

  /** Numbers of the jobs with a given verdict. */
  ghost function Numbers(js: seq<Job>, st: Status): set<nat>
  {
    set i | 0 <= i < |js| && Verdict(js[i]) == st :: js[i].id
  }

  lemma {:induction false} CountsOwn(js: seq<Job>, i: nat)
    requires i < |js|
    ensures Count(js, js[i].id) >= 1
  {
    if i < |js| - 1 {
      CountsOwn(js[..|js| - 1], i);
    }
  }

  lemma NumbersSnoc(front: seq<Job>, j: Job, st: Status)
    ensures Numbers(front + [j], st) == Numbers(front, st) + if Verdict(j) == st then {j.id} else {}
  {
    var js := front + [j];
    hide Verdict;
    forall k | k in Numbers(front, st) ensures k in Numbers(js, st) {
      var i :| 0 <= i < |front| && Verdict(front[i]) == st && front[i].id == k;
      assert js[i] == front[i];
    }
    if Verdict(j) == st {
      assert js[|front|] == j;
    }
  }

  /** The number of a job that is the only one with it is not counted before. */
  lemma NumberIsNew(front: seq<Job>, j: Job, st: Status)
    requires Count(front + [j], j.id) <= 1
    ensures j.id !in Numbers(front, st)
  {
    hide Verdict;
    CountSnoc(front, j, j.id);
    if j.id in Numbers(front, st) {
      var i :| 0 <= i < |front| && Verdict(front[i]) == st && front[i].id == j.id;
      CountsOwn(front, i);
      assert false;
    }
  }

  /** When no number occurs twice, counting jobs is counting numbers. */
  lemma {:induction false} CountingNumbers(js: seq<Job>, st: Status)
    requires forall k: nat :: Count(js, k) <= 1
    ensures |With(js, st)| == |Numbers(js, st)|
  {
    if js != [] {
      var front, j := js[..|js| - 1], js[|js| - 1];
      assert js == front + [j];
      hide *;
      forall k: nat ensures Count(front, k) <= 1 { CountSnoc(front, j, k); }
      CountingNumbers(front, st);
      NumberIsNew(front, j, st);
      NumbersSnoc(front, j, st);
      WithSnoc(front, j, st);
      NotedLength(With(front, st), Verdict(j) == st, j);
    }
  }

  lemma NotedLength<T>(xs: seq<T>, b: bool, x: T)
    ensures |Noted(xs, b, x)| == |xs| + if b then 1 else 0
  {
  }

  /** Every number that is counted belongs to some entry. */
  lemma {:induction false} CountedIsThere(js: seq<Job>, k: nat) returns (i: nat)
    requires Count(js, k) >= 1
    ensures i < |js| && js[i].id == k
  {
    if js[|js| - 1].id == k {
      i := |js| - 1;
    } else {
      i := CountedIsThere(js[..|js| - 1], k);
    }
  }

  ghost predicate CameBackFine(js: seq<Job>, k: nat)
  {
    exists i :: 0 <= i < |js| && js[i].id == k && Fine(js[i])
  }

  // ---------- what the steps of a run say ----------

  /** The step settles the job that its worker has in hand: the interrupt keeps it from starting, it is passed over,
      or its command ends with a code of the given kind. */
  ghost predicate Settles(t: Pool, l: Label, st: Status)
    requires Enabled(t, l)
  {
    && l.WorkerStep?
    && var hand := t.workers[l.w];
       match st
       case Interrupted => hand.Holding? && t.threadExit
       case Skip => hand.Holding? && !t.threadExit && hand.job.isSkip
       case Pass => hand.Running? && l.code == 0
       case Fail => hand.Running? && l.code == 1
       case Valgr => hand.Running? && l.code == 2
       case Crash => hand.Running? && l.code !in {0, 1, 2}
  }

  ghost predicate SettlesAt(s: Pool, labels: seq<Label>, i: nat, st: Status)
    requires IsRun(s, labels) && i < |labels|
  {
    NextBefore(s, labels, i);
    Settles(Before(s, labels, i), labels[i], st)
  }

  /** Steps of a run that settle a job in the given way. */
  ghost function Settled(s: Pool, labels: seq<Label>, st: Status): nat
    requires IsRun(s, labels)
    decreases |labels|
  {
    if labels == [] then 0
    else (if Settles(s, labels[0], st) then 1 else 0) + Settled(Next(s, labels[0]), labels[1..], st)
  }

  /** The run seen from its second state. */
  lemma BeforeTail(s: Pool, labels: seq<Label>, i: nat)
    requires IsRun(s, labels) && labels != [] && i < |labels|
    ensures i == 0 ==> Before(s, labels, i) == s
    ensures i > 0 ==> Before(s, labels, i) == Before(Next(s, labels[0]), labels[1..], i - 1)
  {
    PrefixIsRun(s, labels, i);
    hide Enabled, Next;
    if i > 0 {
      assert labels[..i][1..] == labels[1..][..i - 1] && labels[..i][0] == labels[0];
    }
  }

  lemma {:induction false} NoneSettledIff(s: Pool, labels: seq<Label>, st: Status)
    requires IsRun(s, labels)
    ensures Settled(s, labels, st) == 0 <==> forall i :: 0 <= i < |labels| ==> !SettlesAt(s, labels, i, st)
    decreases |labels|
  {
    hide Settles, Enabled, Next, Before;
    if labels != [] {
      var t, rest := Next(s, labels[0]), labels[1..];
      NoneSettledIff(t, rest, st);
      BeforeTail(s, labels, 0);
      assert SettlesAt(s, labels, 0, st) == Settles(s, labels[0], st);
      forall i | 0 <= i < |rest| ensures SettlesAt(t, rest, i, st) == SettlesAt(s, labels, i + 1, st) {
        BeforeTail(s, labels, i + 1);
      }
      if i :| 0 <= i < |labels| && SettlesAt(s, labels, i, st) {
        assert i > 0 ==> SettlesAt(t, rest, i - 1, st);
      }
    }
  }

  // ---------- counting the jobs on their way back ----------

  function Brings(w: Worker, st: Status): nat { if w.Reporting? && Verdict(w.job) == st then 1 else 0 }

  function BroughtBy(ws: seq<Worker>, st: Status): nat
  {
    if ws == [] then 0 else BroughtBy(ws[..|ws| - 1], st) + Brings(ws[|ws| - 1], st)
  }

  lemma {:induction false} UpdateBrought(ws: seq<Worker>, i: nat, x: Worker, st: Status)
    requires i < |ws|
    ensures BroughtBy(ws[i := x], st) == BroughtBy(ws, st) - Brings(ws[i], st) + Brings(x, st)
  {
    hide Brings;
    var n := |ws| - 1;
    if i == n {
      assert ws[i := x][..n] == ws[..n];
    } else {
      UpdateBrought(ws[..n], i, x, st);
      assert ws[i := x][..n] == ws[..n][i := x];
    }
  }

  lemma {:induction false} NoneBrought(ws: seq<Worker>, st: Status)
    requires forall i :: 0 <= i < |ws| ==> !ws[i].Reporting?
    ensures BroughtBy(ws, st) == 0
  {
    if ws != [] {
      NoneBrought(ws[..|ws| - 1], st);
    }
  }

  lemma {:induction false} WithCons(js: seq<Job>, st: Status)
    requires js != []
    ensures |With(js, st)| == (if Verdict(js[0]) == st then 1 else 0) + |With(js[1..], st)|
  {
    hide Verdict;
    var n := |js| - 1;
    if n > 0 {
      WithCons(js[..n], st);
      assert js[..n][1..] == js[1..][..n - 1];
    }
  }

  /** Jobs with the given verdict that are on their way back or have arrived. */
  function Back(s: Pool, st: Status): nat
  {
    BroughtBy(s.workers, st) + |With(s.output, st)| + |With(s.collected, st)|
  }

  lemma BackMain(s: Pool, st: Status)
    requires Enabled(s, MainStep)
    ensures Back(Next(s, MainStep), st) == Back(s, st)
  {
    hide Verdict, With, BroughtBy;
    if s.main.Collecting? && s.main.got < |s.jobs| {
      WithCons(s.output, st);
      WithSnoc(s.collected, s.output[0], st);
    }
  }

  /** A worker brings a job back in the way in which the step settles it, whatever it held before. */
  lemma BringsStep(s: Pool, l: Label, st: Status)
    requires TrackInv(s) && Enabled(s, l) && l.WorkerStep?
    ensures var x := Next(s, l).workers[l.w];
            && Brings(x, st) == (if Settles(s, l, st) then 1 else 0)
            && Next(s, l).workers == s.workers[l.w := x]
    ensures s.workers[l.w].Reporting? ==> !Settles(s, l, st)
  {
    hide Tracks;
    assert InHand(s.jobs, s.workers[l.w], s.threadExit);
    hide TrackInv;
  }

  lemma WorkerOutputs(s: Pool, l: Label, st: Status)
    requires Enabled(s, l) && l.WorkerStep?
    ensures var t, w := Next(s, l), s.workers[l.w];
            && t.collected == s.collected
            && t.output == (if w.Reporting? then s.output + [w.job] else s.output)
            && Brings(w, st) == (if w.Reporting? && Verdict(w.job) == st then 1 else 0)
  {
    hide Verdict;
  }

  lemma BackIs(s: Pool, st: Status)
    ensures Back(s, st) == BroughtBy(s.workers, st) + |With(s.output, st)| + |With(s.collected, st)|
  {
    hide BroughtBy, With;
  }

  lemma BackWorker(s: Pool, l: Label, st: Status)
    requires TrackInv(s) && Enabled(s, l) && l.WorkerStep? && l.w < |s.workers|
    ensures Back(Next(s, l), st) == Back(s, st) + if Settles(s, l, st) then 1 else 0
  {
    hide *;
    var t, w := Next(s, l), s.workers[l.w];
    BringsStep(s, l, st);
    WorkerOutputs(s, l, st);
    UpdateBrought(s.workers, l.w, t.workers[l.w], st);
    BackIs(s, st);
    BackIs(t, st);
    if w.Reporting? {
      WithSnoc(s.output, w.job, st);
      NotedLength(With(s.output, st), Verdict(w.job) == st, w.job);
    }
  }

  /** The jobs that are back in a given way grow by one with every step that settles a job in that way. */
  lemma {:induction false} BackCountsSteps(s: Pool, labels: seq<Label>, taken: nat, st: Status)
    requires Inv(s, taken) && IsRun(s, labels)
    ensures Back(After(s, labels), st) == Back(s, st) + Settled(s, labels, st)
    decreases |labels|
  {
    if labels != [] {
      var l := labels[0];
      StepFacts(s, l, taken);
      assert Back(Next(s, l), st) == Back(s, st) + if Settles(s, l, st) then 1 else 0 by {
        assert TrackInv(s) by { hide QueueInv, CopiesInv, TrackInv, JoinInv; }
        match l {
          case Interrupt => assert Next(s, l) == s.(threadExit := true); hide Next, TrackInv, Inv;
          case MainStep => BackMain(s, st);
          case WorkerStep(_, _, _) => BackWorker(s, l, st);
        }
      }
      hide Inv, Settles, Back, Next, Enabled;
      BackCountsSteps(Next(s, l), labels[1..], Taken(s, l, taken), st);
    }
  }

  /** At the end of a run the collected jobs with a verdict are as many as the steps that settled a job so. */
  lemma VerdictsAreSteps(jobs: seq<Job>, processors: nat, labels: seq<Label>, st: Status)
    requires Numbered(jobs) && IsRun(Start(jobs, processors), labels)
    requires Complete(After(Start(jobs, processors), labels), jobs, processors)
    ensures |With(After(Start(jobs, processors), labels).collected, st)| == Settled(Start(jobs, processors), labels, st)
  {
    var s := Start(jobs, processors);
    InvInitially(jobs, processors);
    NoneBrought(s.workers, st);
    BackCountsSteps(s, labels, 0, st);
    NoneBrought(After(s, labels).workers, st);
    hide IsRun, After, Settled, Inv, BroughtBy;
  }

  /** Step i of the run settles job number k in the given way. */
  ghost predicate SettlesJob(s: Pool, labels: seq<Label>, i: nat, k: nat, st: Status)
    requires IsRun(s, labels) && i < |labels|
  {
    NextBefore(s, labels, i);
    SettlesAt(s, labels, i, st) && Before(s, labels, i).workers[labels[i].w].job.id == k
  }

  ghost predicate SomeStepSettles(s: Pool, labels: seq<Label>, k: nat, st: Status)
    requires IsRun(s, labels)
  {
    exists i :: 0 <= i < |labels| && SettlesJob(s, labels, i, k, st)
  }

  /** A state along a run keeps the invariant that ties the jobs in hand to the dispatched ones. */
  lemma TracksBefore(jobs: seq<Job>, processors: nat, labels: seq<Label>, i: nat)
    requires Numbered(jobs) && IsRun(Start(jobs, processors), labels) && i <= |labels|
    ensures var t := Before(Start(jobs, processors), labels, i); TrackInv(t) && t.jobs == jobs
  {
    var s := Start(jobs, processors);
    InvInitially(jobs, processors);
    PrefixIsRun(s, labels, i);
    var taken := RunFacts(s, labels[..i], 0);
    assert TrackInv(Before(s, labels, i)) by { hide QueueInv, CopiesInv, TrackInv, JoinInv, IsRun, After; }
    hide IsRun, After, Inv, TrackInv;
  }

  /** What the verdict on a job that comes back says about the step that settled it. */
  lemma SettledAs(t: Pool, l: Label, j: Job)
    requires Enabled(t, l) && TrackInv(t) && SettledBy(t, l, j) && Tracks(t.jobs, j, true)
    ensures Settles(t, l, Verdict(j)) && t.workers[l.w].job.id == j.id
  {
    assert InHand(t.jobs, t.workers[l.w], t.threadExit);
  }

  lemma SeenAs(t: Pool, l: Label, st: Status, j: Job)
    requires Enabled(t, l) && TrackInv(t) && Settles(t, l, st) && Tracks(t.jobs, j, true)
    requires var was := t.workers[l.w].job;
             && j.id == was.id
             && (Ends(t, l, was) ==> j.ran && j.returncode == l.code && j.isBreak == was.isBreak)
             && (GivesUp(t, l, was) ==> j.isBreak)
             && (PassesOver(t, l, was) ==> j == was)
    ensures Verdict(j) == st
  {
    assert InHand(t.jobs, t.workers[l.w], t.threadExit);
  }

  lemma SettlesKinds(t: Pool, l: Label, st: Status) returns (was: Job)
    requires Enabled(t, l) && Settles(t, l, st)
    ensures Ends(t, l, was) || GivesUp(t, l, was) || PassesOver(t, l, was)
    ensures was == t.workers[l.w].job
  {
    was := t.workers[l.w].job;
  }

  lemma WithMembers(js: seq<Job>, st: Status, j: Job)
    ensures j in With(js, st) <==> j in js && Verdict(j) == st
  {
    hide Verdict;
    if js != [] {
      WithMembers(js[..|js| - 1], st, j);
      assert js == js[..|js| - 1] + [js[|js| - 1]];
    }
  }

  /** A number is listed under a verdict exactly if some step of the run settled that job so. */
  lemma ListedIff(jobs: seq<Job>, processors: nat, labels: seq<Label>, st: Status, k: nat)
    requires Numbered(jobs) && IsRun(Start(jobs, processors), labels)
    requires Complete(After(Start(jobs, processors), labels), jobs, processors)
    ensures k in Names(With(After(Start(jobs, processors), labels).collected, st))
       <==> SomeStepSettles(Start(jobs, processors), labels, k, st)
  {
    var s := Start(jobs, processors);
    var end := After(s, labels);
    var js := end.collected;
    NoneBackAtStart(jobs, processors);
    hide Start, IsRun, After, Verdict, With, Settles, IsBack, Before, TrackInv, Tracks, Enabled, SettledBy;
    if k in Names(With(js, st)) {
      var m :| 0 <= m < |With(js, st)| && With(js, st)[m].id == k;
      var j := With(js, st)[m];
      WithMembers(js, st, j);
      ListedHasStep(jobs, processors, labels, j);
    }
    if i :| 0 <= i < |labels| && SettlesJob(s, labels, i, k, st) {
      var j := StepIsListed(jobs, processors, labels, i, st);
      WithMembers(js, st, j);
      var m :| 0 <= m < |With(js, st)| && With(js, st)[m] == j;
      assert Names(With(js, st))[m] == k;
    }
  }

  lemma ListedHasStep(jobs: seq<Job>, processors: nat, labels: seq<Label>, j: Job)
    requires Numbered(jobs) && IsRun(Start(jobs, processors), labels)
    requires Complete(After(Start(jobs, processors), labels), jobs, processors)
    requires j in After(Start(jobs, processors), labels).collected
    ensures SomeStepSettles(Start(jobs, processors), labels, j.id, Verdict(j))
  {
    var s := Start(jobs, processors);
    var end := After(s, labels);
    NoneBackAtStart(jobs, processors);
    assert Tracks(jobs, j, true);
    hide Start, IsRun, After, Verdict, Settles, Before, TrackInv, Tracks, Enabled, SettledBy, Complete;
    assert IsBack(end, j);
    var i := HasItsStep(s, labels, j);
    NextBefore(s, labels, i);
    TracksBefore(jobs, processors, labels, i);
    SettledAs(Before(s, labels, i), labels[i], j);
    assert SettlesJob(s, labels, i, j.id, Verdict(j));
  }

  lemma StepIsListed(jobs: seq<Job>, processors: nat, labels: seq<Label>, i: nat, st: Status) returns (j: Job)
    requires Numbered(jobs) && IsRun(Start(jobs, processors), labels)
    requires Complete(After(Start(jobs, processors), labels), jobs, processors)
    requires i < |labels| && SettlesAt(Start(jobs, processors), labels, i, st)
    ensures j in After(Start(jobs, processors), labels).collected && Verdict(j) == st
    ensures SettlesJob(Start(jobs, processors), labels, i, j.id, st)
  {
    var s := Start(jobs, processors);
    NextBefore(s, labels, i);
    TracksBefore(jobs, processors, labels, i);
    var was := SettlesKinds(Before(s, labels, i), labels[i], st);
    j := IsSeen(s, labels, i, was);
    assert j in After(s, labels).collected && Tracks(jobs, j, true) by {
      hide IsRun, After, Before, Enabled, Next, Settles, Ends, GivesUp, PassesOver, Start, Count;
    }
    hide IsRun, After, Before, Enabled, Next, Settles, TrackInv, Start, Complete, IsBack;
    SeenAs(Before(s, labels, i), labels[i], st, j);
  }

  /** No job was kept from starting and every command that ended returned 0. */
  ghost predicate AllWentWell(s: Pool, labels: seq<Label>)
    requires IsRun(s, labels)
  {
    forall i :: 0 <= i < |labels| && labels[i].WorkerStep? ==> WentWell(s, labels, i)
  }

  ghost predicate WentWell(s: Pool, labels: seq<Label>, i: nat)
    requires IsRun(s, labels) && i < |labels| && labels[i].WorkerStep?
  {
    NextBefore(s, labels, i);
    var t := Before(s, labels, i);
    var hand := t.workers[labels[i].w];
    (hand.Running? ==> labels[i].code == 0) && (hand.Holding? ==> !t.threadExit)
  }

  lemma AllWentWellIff(s: Pool, labels: seq<Label>)
    requires IsRun(s, labels)
    ensures AllWentWell(s, labels)
       <==> Settled(s, labels, Interrupted) + Settled(s, labels, Fail) + Settled(s, labels, Valgr)
            + Settled(s, labels, Crash) == 0
  {
    NoneSettledIff(s, labels, Interrupted);
    NoneSettledIff(s, labels, Fail);
    NoneSettledIff(s, labels, Valgr);
    NoneSettledIff(s, labels, Crash);
    hide IsRun, Before, Settled;
    forall i | 0 <= i < |labels|
      ensures (labels[i].WorkerStep? ==> WentWell(s, labels, i))
         <==> !SettlesAt(s, labels, i, Interrupted) && !SettlesAt(s, labels, i, Fail)
              && !SettlesAt(s, labels, i, Valgr) && !SettlesAt(s, labels, i, Crash)
    {
    }
    hide SettlesAt, WentWell;
  }

  /** The summary of a run of the pool that ended, read off the steps of the run: each counter is the number of steps
      that settled a job in that way, each list of names holds the jobs that some step settled so, and the runner
      exits with 0 exactly when no job was kept from starting and every command returned 0; that is, when every
      job dispatched was brought back, run or skipped, with nothing wrong. */
  lemma RunnerVerdict(jobs: seq<Job>, processors: nat, labels: seq<Label>, s: Summary)
    requires Numbered(jobs) && (processors >= 1 || jobs == [])
    requires IsRun(Start(jobs, processors), labels) && Stuck(After(Start(jobs, processors), labels))
    requires var end := After(Start(jobs, processors), labels);
             Summarizes(s, end.collected) && s.exitCode == if s.passed + s.skipped == |jobs| then 0 else 1
    ensures var start := Start(jobs, processors);
            && s.passed == Settled(start, labels, Pass) && s.failed == Settled(start, labels, Fail)
            && s.crashed == Settled(start, labels, Crash) && s.valgrind == Settled(start, labels, Valgr)
            && s.skipped == Settled(start, labels, Skip)
            && s.passed + s.failed + s.crashed + s.valgrind + s.skipped + Settled(start, labels, Interrupted) == |jobs|
            && (s.exitCode == 0 <==> AllWentWell(start, labels))
    ensures forall k :: && (k in s.failedNames <==> SomeStepSettles(Start(jobs, processors), labels, k, Fail))
                        && (k in s.crashedNames <==> SomeStepSettles(Start(jobs, processors), labels, k, Crash))
                        && (k in s.valgrindNames <==> SomeStepSettles(Start(jobs, processors), labels, k, Valgr))
                        && (k in s.skippedNames <==> SomeStepSettles(Start(jobs, processors), labels, k, Skip))
    ensures var end := After(Start(jobs, processors), labels);
            && (!end.threadExit ==> s.skipped == |set k | 0 <= k < |jobs| && jobs[k].isSkip|)
            && (s.exitCode == 0 <==> forall k :: 0 <= k < |jobs| ==> CameBackFine(end.collected, k))
  {
    PoolCompletes(jobs, processors, labels);
    var start, end := Start(jobs, processors), After(Start(jobs, processors), labels);
    assert Summarizes(s, end.collected);
    hide *;
    forall st ensures |With(end.collected, st)| == Settled(start, labels, st) {
      VerdictsAreSteps(jobs, processors, labels, st);
    }
    SummaryOfComplete(end, jobs, processors, s);
    AllWentWellIff(start, labels);
    CountersOf(s, end.collected);
    forall k, st ensures k in Names(With(end.collected, st)) <==> SomeStepSettles(start, labels, k, st) {
      ListedIff(jobs, processors, labels, st, k);
    }
  }

  lemma CountersOf(s: Summary, js: seq<Job>)
    requires Summarizes(s, js)
    ensures s.passed == |With(js, Pass)| && s.failed == |With(js, Fail)| && s.crashed == |With(js, Crash)|
    ensures s.valgrind == |With(js, Valgr)| && s.skipped == |With(js, Skip)|
    ensures s.failedNames == Names(With(js, Fail)) && s.crashedNames == Names(With(js, Crash))
    ensures s.valgrindNames == Names(With(js, Valgr)) && s.skippedNames == Names(With(js, Skip))
  {
    hide With, Names, Copies;
  }

  lemma SummaryOfComplete(end: Pool, jobs: seq<Job>, processors: nat, s: Summary)
    requires Complete(end, jobs, processors)
    requires Summarizes(s, end.collected) && s.exitCode == if s.passed + s.skipped == |jobs| then 0 else 1
    ensures s.passed + s.failed + s.crashed + s.valgrind + s.skipped + |With(end.collected, Interrupted)| == |jobs|
    ensures !end.threadExit ==> s.skipped == |set k | 0 <= k < |jobs| && jobs[k].isSkip|
    ensures s.exitCode == 0 <==> forall k :: 0 <= k < |jobs| ==> CameBackFine(end.collected, k)
  {
    hide Fine, With;
    var js := end.collected;
    VerdictsAddUp(js);
    ExitCodeIff(s, js);
    if !end.threadExit {
      SkippedAreDispatched(end, jobs, processors);
    }
    if s.exitCode == 0 {
      forall k | 0 <= k < |jobs| ensures CameBackFine(js, k) {
        var i := CountedIsThere(js, k);
      }
    } else {
      var i :| 0 <= i < |js| && !Fine(js[i]);
      assert Tracks(jobs, js[i], end.threadExit);
      forall m | 0 <= m < |js| && js[m].id == js[i].id ensures m == i {
        TwiceCounted(js, m, i);
      }
      assert !CameBackFine(js, js[i].id);
    }
  }

  lemma {:induction false} TwiceCounted(js: seq<Job>, m: nat, i: nat)
    requires m < |js| && i < |js| && js[m].id == js[i].id && Count(js, js[i].id) == 1
    ensures m == i
  {
    var n := |js| - 1;
    if m < n && i < n {
      assert js[..n][m] == js[m] && js[..n][i] == js[i];
      CountsOwn(js[..n], i);
      TwiceCounted(js[..n], m, i);
    } else if m < n {
      CountsOwn(js[..n], m);
    } else if i < n {
      CountsOwn(js[..n], i);
    }
  }

  lemma SkippedAreDispatched(end: Pool, jobs: seq<Job>, processors: nat)
    requires Complete(end, jobs, processors) && !end.threadExit
    ensures |With(end.collected, Skip)| == |set k | 0 <= k < |jobs| && jobs[k].isSkip|
  {
    var js := end.collected;
    forall k: nat ensures Count(js, k) <= 1 {
      if Count(js, k) >= 1 {
        var i := CountedIsThere(js, k);
        assert Tracks(jobs, js[i], false);
      }
    }
    CountingNumbers(js, Skip);
    forall k | 0 <= k < |jobs| && jobs[k].isSkip ensures k in Numbers(js, Skip) {
      var i := CountedIsThere(js, k);
      assert Tracks(jobs, js[i], false);
    }
    forall k | k in Numbers(js, Skip) ensures 0 <= k < |jobs| && jobs[k].isSkip {
      var i :| 0 <= i < |js| && Verdict(js[i]) == Skip && js[i].id == k;
      assert Tracks(jobs, js[i], false);
    }
    assert Numbers(js, Skip) == set k | 0 <= k < |jobs| && jobs[k].isSkip;
  }
}
