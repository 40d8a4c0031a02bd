/** What becomes of the pipe ends of tasks that a signal kills in the scheduler. */
module DescriptorKills {
  import opened Descriptors

  /** Step `j` of the run is event `e` of task `i`. */
  ghost predicate Took(run: seq<System>, j: nat, i: nat, e: Event) {
    j + 1 < |run| && i < |run[j].tasks| && Shaped(run[j]) && Enabled(run[j], i, e) && run[j + 1] == Next(run[j], i, e)
  }

  lemma StepIs(run: seq<System>, n: nat) returns (i: nat, e: Event)
    requires IsRun(run, true) && n + 1 < |run|
    ensures Took(run, n, i, e)
  {
    assert StepsTo(run[n], true, run[n + 1]);
    i, e :| Enabled(run[n], i, e) && (e.Kill? ==> true) && run[n + 1] == Next(run[n], i, e);
  }

  // --- for good -----------------------------------------------------------------------------

  /** End `d` has been left behind, or is in the table of task `i`, which will never run again. */
  ghost predicate Stranded(s: System, i: nat, d: Descriptor) {
    s.leaked(d) > 0 || (i < |s.tasks| && s.tasks[i].place == Finished && Count(s.tasks[i].files, d) > 0)
  }

  lemma KillStrands(run: seq<System>, n: nat, i: nat, d: Descriptor)
    requires Took(run, n, i, Kill) && Held(run[n].tasks[i], d) > 0
    ensures Stranded(run[n + 1], i, d)
  {
  }

  lemma StrandedStays(run: seq<System>, n: nat, j: nat, e: Event, i: nat, d: Descriptor)
    requires Took(run, n, j, e) && Inv(run[n]) && Stranded(run[n], i, d)
    ensures Stranded(run[n + 1], i, d)
  {
  }

  /** A stranded end is counted by its pipe. */
  lemma StrandedCounts(s: System, i: nat, d: Descriptor)
    requires Inv(s) && IsEnd(d) && Stranded(s, i, d)
    ensures d.pipe < |s.pipes| && s.pipes[d.pipe].used
    ensures if d.PipeRead? then s.pipes[d.pipe].readers > 0 else s.pipes[d.pipe].writers > 0
  {
    if s.leaked(d) == 0 { HeldIsThere(s.tasks, i, d); }
    assert Refs(s)(d) > 0;
    assert PipeOk(s.pipes, Refs(s), d.pipe);
  }

  /** Once a task holding an end, in its table or on its way, is killed, the end is never given back: in every later
      state of the run, whatever the others close, its pipe is in use and its count above zero. */
  lemma {:induction false} KilledEndsStay(run: seq<System>, n: nat, i: nat, d: Descriptor, m: nat)
    requires IsRun(run, true) && Took(run, n, i, Kill) && IsEnd(d) && Held(run[n].tasks[i], d) > 0 && n < m < |run|
    ensures Stranded(run[m], i, d)
    ensures d.pipe < |run[m].pipes| && run[m].pipes[d.pipe].used
    ensures if d.PipeRead? then run[m].pipes[d.pipe].readers > 0 else run[m].pipes[d.pipe].writers > 0
  {
    hide IsRun, Took, Stranded, Inv;
    if m == n + 1 {
      KillStrands(run, n, i, d);
    } else {
      KilledEndsStay(run, n, i, d, m - 1);
      EveryRunCounts(run, true, m - 1);
      var j, e := StepIs(run, m - 1);
      StrandedStays(run, m - 1, j, e, i, d);
    }
    EveryRunCounts(run, true, m);
    StrandedCounts(run[m], i, d);
  }

  // --- exactly when counts and tables part ------------------------------------------------------

  /** Task `i` is as a kill left it. */
  ghost predicate FromKill(run: seq<System>, n: nat, i: nat)
    requires n < |run| && i < |run[n].tasks|
  {
    exists j: nat {:trigger Took(run, j, i, Kill)} ::
      0 <= j < n && Took(run, j, i, Kill) && i < |run[j + 1].tasks| && run[n].tasks[i] == run[j + 1].tasks[i]
  }

  /** A finished task with an end in its table was killed. */
  ghost predicate FateOk(run: seq<System>, n: nat, i: nat)
    requires n < |run| && i < |run[n].tasks|
  {
    ExitOk(run[n].tasks[i]) || FromKill(run, n, i)
  }

  lemma ExitStays(s: System, i: nat, e: Event, j: nat)
    requires Inv(s) && Shaped(s) && Enabled(s, i, e) && !e.Kill? && j < |s.tasks|
    requires ExitOk(s.tasks[j]) || s.tasks[j].place == Finished
    ensures |Next(s, i, e).tasks| == |s.tasks|
    ensures ExitOk(Next(s, i, e).tasks[j]) || Next(s, i, e).tasks[j] == s.tasks[j]
  {
    assert PlaceOk(s.tasks[i]);
    if i == j && e.Reap? { assert NoEndBelow(NoFiles(), MAX_FILES); }
  }

  lemma FateStays(run: seq<System>, n: nat, i: nat, e: Event, j: nat)
    requires n + 1 < |run| && Inv(run[n]) && Took(run, n, i, e)
    requires j < |run[n].tasks| && FateOk(run, n, j)
    ensures j < |run[n + 1].tasks| && FateOk(run, n + 1, j)
  {
    if e.Kill? && i == j {
      assert FromKill(run, n + 1, j);
    } else if e.Kill? || run[n + 1].tasks[j] == run[n].tasks[j] {
      assert run[n + 1].tasks[j] == run[n].tasks[j];
      FromKillStays(run, n, j);
    } else {
      KilledIsFinished(run, n, j);
      ExitStays(run[n], i, e, j);
    }
  }

  lemma FromKillStays(run: seq<System>, n: nat, i: nat)
    requires n + 1 < |run| && i < |run[n].tasks| && i < |run[n + 1].tasks| && run[n + 1].tasks[i] == run[n].tasks[i]
    ensures FromKill(run, n, i) ==> FromKill(run, n + 1, i)
  {
    if FromKill(run, n, i) {
      var j: nat :| j < n && Took(run, j, i, Kill) && i < |run[j + 1].tasks| && run[n].tasks[i] == run[j + 1].tasks[i];
      assert Took(run, j, i, Kill);
    }
  }

  lemma KilledIsFinished(run: seq<System>, n: nat, i: nat)
    requires n < |run| && i < |run[n].tasks|
    ensures FromKill(run, n, i) ==> run[n].tasks[i].place == Finished
  {
    if FromKill(run, n, i) {
      var j: nat :| j < n && Took(run, j, i, Kill) && i < |run[j + 1].tasks| && run[n].tasks[i] == run[j + 1].tasks[i];
    }
  }

  lemma SameSlots(run: seq<System>, n: nat, i: nat, e: Event)
    requires Took(run, n, i, e)
    ensures |run[n + 1].tasks| == |run[n].tasks|
  {
  }

  lemma {:induction false} EveryFateIsOk(run: seq<System>, n: nat, i: nat)
    requires IsRun(run, true) && n < |run| && i < |run[n].tasks|
    ensures FateOk(run, n, i)
  {
    if n == 0 {
      assert ExitOk(run[0].tasks[i]);
    } else {
      EveryRunCounts(run, true, n - 1);
      var a, e := StepIs(run, n - 1);
      SameSlots(run, n - 1, a, e);
      EveryFateIsOk(run, n - 1, i);
      FateStays(run, n - 1, a, e, i);
    }
  }

  /** By state `n`, some task has been killed with end `d` on its way, or with it in its table and reaped since. */
  ghost predicate Lost(run: seq<System>, n: nat, d: Descriptor) {
    exists j: nat, i: nat {:trigger Took(run, j, i, Kill)} ::
      j < n && Took(run, j, i, Kill)
      && (InHand(run[j].tasks[i].place, d) > 0 || (Count(run[j].tasks[i].files, d) > 0 && Reaped(run, j, n, i)))
  }

  /** The task killed at step `j` has been reaped before state `n`. */
  ghost predicate Reaped(run: seq<System>, j: nat, n: nat, i: nat)
    requires Took(run, j, i, Kill)
  {
    exists r: nat {:trigger Took(run, r, i, Reap)} ::
      j < r < n && Took(run, r, i, Reap) && run[r].tasks[i] == run[j + 1].tasks[i]
  }

  /** What a kill and a reaping add to what is left behind. */
  lemma LeakIs(run: seq<System>, n: nat, i: nat, e: Event, d: Descriptor)
    requires Took(run, n, i, e)
    ensures i < |run[n].tasks|
    ensures run[n + 1].leaked(d) == run[n].leaked(d) + (if e.Kill? then InHand(run[n].tasks[i].place, d)
                                                        else if e.Reap? then Count(run[n].tasks[i].files, d) else 0)
  {
    hide InHand, Count;
  }

  lemma {:induction false} LeakedGrows(run: seq<System>, m: nat, n: nat, d: Descriptor)
    requires IsRun(run, true) && m <= n < |run|
    ensures run[m].leaked(d) <= run[n].leaked(d)
  {
    hide IsRun, Took;
    if m < n {
      LeakedGrows(run, m, n - 1, d);
      var i, e := StepIs(run, n - 1);
      LeakIs(run, n - 1, i, e, d);
    }
  }

  lemma KillLeaks(run: seq<System>, j: nat, n: nat, i: nat, d: Descriptor)
    requires IsRun(run, true) && j < n < |run| && Took(run, j, i, Kill) && InHand(run[j].tasks[i].place, d) > 0
    ensures run[n].leaked(d) > 0
  {
    hide IsRun, InHand, Next, Enabled;
    LeakIs(run, j, i, Kill, d);
    LeakedGrows(run, j + 1, n, d);
  }

  lemma ReapLeaks(run: seq<System>, j: nat, n: nat, i: nat, d: Descriptor)
    requires IsRun(run, true) && n < |run| && Took(run, j, i, Kill)
    requires Count(run[j].tasks[i].files, d) > 0 && Reaped(run, j, n, i)
    ensures run[n].leaked(d) > 0
  {
    hide IsRun, Count, Next, Enabled, Shaped;
    KillKeepsFiles(run, j, i);
    var r: nat :| j < r < n && Took(run, r, i, Reap) && run[r].tasks[i] == run[j + 1].tasks[i];
    hide Took;
    LeakIs(run, r, i, Reap, d);
    LeakedGrows(run, r + 1, n, d);
  }

  lemma LostIsLeaked(run: seq<System>, n: nat, d: Descriptor)
    requires IsRun(run, true) && n < |run| && Lost(run, n, d)
    ensures run[n].leaked(d) > 0
  {
    hide IsRun, Count, InHand, Next, Enabled, Reaped;
    var j: nat, i: nat :| j < n && Took(run, j, i, Kill)
      && (InHand(run[j].tasks[i].place, d) > 0 || (Count(run[j].tasks[i].files, d) > 0 && Reaped(run, j, n, i)));
    if InHand(run[j].tasks[i].place, d) > 0 {
      KillLeaks(run, j, n, i, d);
    } else {
      ReapLeaks(run, j, n, i, d);
    }
  }

  lemma KillKeepsFiles(run: seq<System>, n: nat, i: nat)
    requires Took(run, n, i, Kill)
    ensures i < |run[n].tasks| == |run[n + 1].tasks| && run[n + 1].tasks[i].files == run[n].tasks[i].files
  {
  }

  lemma LostStays(run: seq<System>, n: nat, d: Descriptor)
    ensures Lost(run, n, d) ==> Lost(run, n + 1, d)
  {
    if Lost(run, n, d) {
      var j: nat, i: nat :| j < n && Took(run, j, i, Kill)
        && (InHand(run[j].tasks[i].place, d) > 0 || (Count(run[j].tasks[i].files, d) > 0 && Reaped(run, j, n, i)));
      if Reaped(run, j, n, i) {
        var r: nat :| j < r < n && Took(run, r, i, Reap) && run[r].tasks[i] == run[j + 1].tasks[i];
        assert Took(run, r, i, Reap);
        assert Reaped(run, j, n + 1, i);
      }
      assert Took(run, j, i, Kill);
    }
  }

  /** A reaped table that still names an end belonged to a killed task. */
  lemma ReapLoses(run: seq<System>, n: nat, i: nat, d: Descriptor)
    requires IsRun(run, true) && Took(run, n, i, Reap) && IsEnd(d) && Count(run[n].tasks[i].files, d) > 0
    ensures Lost(run, n + 1, d)
  {
    EveryFateIsOk(run, n, i);
    assert run[n].tasks[i].place == Finished;
    hide IsRun, Next, InHand;
    if ExitOk(run[n].tasks[i]) {
      CountNone(run[n].tasks[i].files, d);
    }
    var j: nat :| j < n && Took(run, j, i, Kill) && i < |run[j + 1].tasks| && run[n].tasks[i] == run[j + 1].tasks[i];
    KillKeepsFiles(run, j, i);
    assert Took(run, n, i, Reap);
    assert Reaped(run, j, n + 1, i);
  }

  lemma {:induction false} LeakedIsLost(run: seq<System>, n: nat, d: Descriptor)
    requires IsRun(run, true) && n < |run| && IsEnd(d) && run[n].leaked(d) > 0
    ensures Lost(run, n, d)
  {
    assert run[0].leaked(d) == 0;
    hide IsRun, Took, InHand, Count;
    if n > 0 {
      if run[n - 1].leaked(d) > 0 {
        LeakedIsLost(run, n - 1, d);
        LostStays(run, n - 1, d);
      } else {
        var i, e := StepIs(run, n - 1);
        LeakIs(run, n - 1, i, e, d);
        if e.Reap? { ReapLoses(run, n - 1, i, d); } else { assert Took(run, n - 1, i, Kill); }
      }
    }
  }

  /** Whenever nobody is in the middle of moving an end of a pipe, its count is the number of entries naming it in all
      the tables exactly when no such end has been lost to a kill. */
  lemma CountsPartByKills(run: seq<System>, n: nat, d: Descriptor)
    requires IsRun(run, true) && n < |run| && IsEnd(d) && d.pipe < |run[n].pipes|
    requires forall i | 0 <= i < |run[n].tasks| :: InHand(run[n].tasks[i].place, d) == 0
    ensures var p := run[n].pipes[d.pipe];
            (if d.PipeRead? then p.readers else p.writers) == Entries(run[n].tasks, d) <==> !Lost(run, n, d)
  {
    EveryRunCounts(run, true, n);
    assert PipeOk(run[n].pipes, Refs(run[n]), d.pipe);
    AtRest(run[n].tasks, d);
    if Lost(run, n, d) { LostIsLeaked(run, n, d); } else if run[n].leaked(d) > 0 { LeakedIsLost(run, n, d); }
  }
}
