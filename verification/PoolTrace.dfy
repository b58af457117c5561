/** What the jobs that come back say about the run: every collected job carries what the step that settled it brought,
    and every step that settles a job is seen in a job that comes back. */
module PoolTrace {
  import opened WorkerPool

  // ---------- states along a run ----------

  lemma {:induction false} PrefixIsRun(s: Pool, labels: seq<Label>, i: nat)
    requires IsRun(s, labels) && i <= |labels|
    ensures IsRun(s, labels[..i])
    decreases i
  {
    hide Enabled, Next;
    if i > 0 {
      PrefixIsRun(Next(s, labels[0]), labels[1..], i - 1);
      assert labels[..i][1..] == labels[1..][..i - 1] && labels[..i][0] == labels[0];
    }
  }

  /** The pool before step i of a run. */
  ghost function Before(s: Pool, labels: seq<Label>, i: nat): Pool
    requires IsRun(s, labels) && i <= |labels|
  {
    PrefixIsRun(s, labels, i);
    After(s, labels[..i])
  }

  lemma {:induction false} LastStep(s: Pool, labels: seq<Label>)
    requires IsRun(s, labels) && labels != []
    ensures var n := |labels| - 1;
            && IsRun(s, labels[..n])
            && Enabled(After(s, labels[..n]), labels[n])
            && After(s, labels) == Next(After(s, labels[..n]), labels[n])
    decreases |labels|
  {
    var n := |labels| - 1;
    PrefixIsRun(s, labels, n);
    hide Enabled, Next;
    if n == 0 {
      assert labels[..0] == [] && labels[1..] == [];
    } else {
      LastStep(Next(s, labels[0]), labels[1..]);
      assert labels[..n][1..] == labels[1..][..n - 1] && labels[..n][0] == labels[0];
    }
  }

  // ---------- steps that settle a job ----------

  /** Worker l.w has job j in hand and looks at the interrupt flag. */
  ghost predicate Looks(s: Pool, l: Label, j: Job)
  {
    l.WorkerStep? && l.w < |s.workers| && s.workers[l.w] == Holding(j)
  }

  /** The command of job j ends, with the code and the result file that the label names. */
  ghost predicate Ends(s: Pool, l: Label, j: Job)
  {
    l.WorkerStep? && l.w < |s.workers| && s.workers[l.w] == Running(j)
  }

  /** The job is given back unrun because of the interrupt. */
  ghost predicate GivesUp(s: Pool, l: Label, j: Job) { Looks(s, l, j) && s.threadExit }

  /** The job is given back unrun because it is to be skipped. */
  ghost predicate PassesOver(s: Pool, l: Label, j: Job) { Looks(s, l, j) && !s.threadExit && j.isSkip }

  /** Job j comes back as the step settled it. */
  ghost predicate SettledBy(s: Pool, l: Label, j: Job)
  {
    || (exists was :: Ends(s, l, was) && was.id == j.id && j.ran && j.isBreak == was.isBreak
                      && j.returncode == l.code && j.xmlPasses == l.xml)
    || (exists was :: GivesUp(s, l, was) && was.id == j.id && j.isBreak)
    || (exists was :: PassesOver(s, l, was) && j == was)
  }

  /** The job is on its way back or has arrived. */
  ghost predicate IsBack(s: Pool, j: Job)
  {
    || (exists w :: 0 <= w < |s.workers| && s.workers[w] == Reporting(j))
    || j in s.output
    || j in s.collected
  }

  lemma BackBefore(s: Pool, l: Label, j: Job)
    requires Enabled(s, l) && IsBack(Next(s, l), j)
    ensures IsBack(s, j) || SettledBy(s, l, j)
  {
    var t := Next(s, l);
    if w :| 0 <= w < |t.workers| && t.workers[w] == Reporting(j) && s.workers[w] != Reporting(j) {
      assert l.WorkerStep? && l.w == w;
      var was := s.workers[w].job;
      if s.workers[w].Running? {
        assert Ends(s, l, was);
      } else if s.threadExit {
        assert GivesUp(s, l, was);
      } else {
        assert PassesOver(s, l, was);
      }
    } else if j in t.output && j !in s.output {
      assert l.WorkerStep? && s.workers[l.w] == Reporting(j);
    } else if j in t.collected && j !in s.collected {
      assert s.output[0] == j;
    }
  }

  lemma StaysBack(s: Pool, l: Label, j: Job)
    requires Enabled(s, l) && IsBack(s, j)
    ensures IsBack(Next(s, l), j)
  {
    var t := Next(s, l);
    if w :| 0 <= w < |s.workers| && s.workers[w] == Reporting(j) {
      if l.WorkerStep? && l.w == w {
        assert t.output[|s.output|] == j;
      } else {
        assert t.workers[w] == Reporting(j);
      }
    } else if j in s.output {
      var i :| 0 <= i < |s.output| && s.output[i] == j;
      if j !in t.output {
        assert t.collected[|s.collected|] == j;
      }
    } else {
      var i :| 0 <= i < |s.collected| && s.collected[i] == j;
      assert t.collected[i] == j;
    }
  }

  /** A step that settles a job sends it back, settled so. */
  lemma SettledIsBack(s: Pool, l: Label, was: Job) returns (j: Job)
    requires Enabled(s, l) && (Ends(s, l, was) || GivesUp(s, l, was) || PassesOver(s, l, was))
    ensures IsBack(Next(s, l), j) && j.id == was.id
    ensures Ends(s, l, was) ==> j.ran && j.returncode == l.code && j.xmlPasses == l.xml && j.isBreak == was.isBreak
    ensures GivesUp(s, l, was) ==> j.isBreak
    ensures PassesOver(s, l, was) ==> j == was
  {
    var t := Next(s, l);
    j := t.workers[l.w].job;
    assert t.workers[l.w] == Reporting(j);
  }

  // ---------- whole runs ----------

  ghost predicate NoneBack(s: Pool) { forall j :: !IsBack(s, j) }

  /** Whatever comes back was settled by some step of the run. */
  lemma {:induction false} HasItsStep(s: Pool, labels: seq<Label>, j: Job) returns (i: nat)
    requires IsRun(s, labels) && NoneBack(s) && IsBack(After(s, labels), j)
    ensures i < |labels| && SettledBy(Before(s, labels, i), labels[i], j)
  {
    hide Enabled, Next, IsBack, SettledBy, IsRun, After;
    if labels == [] {
      NothingDone(s, labels);
      assert false;
    } else {
      var n := |labels| - 1;
      LastStep(s, labels);
      assert Before(s, labels, n) == After(s, labels[..n]);
      if SettledBy(Before(s, labels, n), labels[n], j) {
        i := n;
      } else {
        BackBefore(After(s, labels[..n]), labels[n], j);
        i := HasItsStep(s, labels[..n], j);
        assert labels[..n][..i] == labels[..i];
      }
    }
  }

  lemma NothingDone(s: Pool, labels: seq<Label>)
    requires labels == []
    ensures IsRun(s, labels) && After(s, labels) == s
  {
  }

  lemma {:induction false} StaysBackTo(s: Pool, labels: seq<Label>, i: nat, j: Job)
    requires IsRun(s, labels) && i <= |labels| && IsBack(Before(s, labels, i), j)
    ensures IsBack(After(s, labels), j)
    decreases |labels|
  {
    hide Enabled, Next, IsBack, IsRun, After;
    var n := |labels|;
    if i == n {
      assert labels[..n] == labels;
    } else {
      LastStep(s, labels);
      assert labels[..n - 1][..i] == labels[..i];
      StaysBackTo(s, labels[..n - 1], i, j);
      StaysBack(After(s, labels[..n - 1]), labels[n - 1], j);
    }
  }

  lemma NextBefore(s: Pool, labels: seq<Label>, i: nat)
    requires IsRun(s, labels) && i < |labels|
    ensures Enabled(Before(s, labels, i), labels[i])
    ensures Before(s, labels, i + 1) == Next(Before(s, labels, i), labels[i])
  {
    PrefixIsRun(s, labels, i + 1);
    LastStep(s, labels[..i + 1]);
    assert labels[..i + 1][..i] == labels[..i];
    hide IsRun, After, Enabled, Next;
  }

  /** Whatever a step of the run settles is back at its end. */
  lemma IsSeen(s: Pool, labels: seq<Label>, i: nat, was: Job) returns (j: Job)
    requires IsRun(s, labels) && i < |labels|
    requires var t, l := Before(s, labels, i), labels[i];
             Ends(t, l, was) || GivesUp(t, l, was) || PassesOver(t, l, was)
    ensures IsBack(After(s, labels), j) && j.id == was.id
    ensures var t, l := Before(s, labels, i), labels[i];
            && (Ends(t, l, was) ==> j.ran && j.returncode == l.code && j.xmlPasses == l.xml && j.isBreak == was.isBreak)
            && (GivesUp(t, l, was) ==> j.isBreak)
            && (PassesOver(t, l, was) ==> j == was)
  {
    hide Enabled, Next, IsBack, IsRun, After, Before, Ends, GivesUp, PassesOver;
    NextBefore(s, labels, i);
    j := SettledIsBack(Before(s, labels, i), labels[i], was);
    StaysBackTo(s, labels, i + 1, j);
  }

  lemma NoneBackAtStart(jobs: seq<Job>, processors: nat)
    ensures NoneBack(Start(jobs, processors))
  {
  }

  /** A collected job that was run carries the return code and the result file with which a worker's run of just that
      job ended. */
  lemma RanAsReported(jobs: seq<Job>, processors: nat, labels: seq<Label>, j: Job) returns (i: nat, was: Job)
    requires Numbered(jobs) && IsRun(Start(jobs, processors), labels)
    requires j in After(Start(jobs, processors), labels).collected && j.ran
    ensures i < |labels| && Ends(Before(Start(jobs, processors), labels, i), labels[i], was) && was.id == j.id
    ensures labels[i] == WorkerStep(labels[i].w, j.returncode, j.xmlPasses)
  {
    var s := Start(jobs, processors);
    NoneBackAtStart(jobs, processors);
    InvInitially(jobs, processors);
    var taken := RunFacts(s, labels, 0);
    var t := After(s, labels);
    assert Tracks(t.jobs, j, t.threadExit) by {
      hide QueueInv, CopiesInv, JoinInv, Tracks, IsRun, After;
      var k :| 0 <= k < |t.collected| && t.collected[k] == j;
      assert TrackInv(t);
    }
    hide Inv, IsRun, After, Before, Start;
    i := HasItsStep(s, labels, j);
    was :| Ends(Before(s, labels, i), labels[i], was) && was.id == j.id
           && j.returncode == labels[i].code && j.xmlPasses == labels[i].xml;
  }
}
