/** Exactly when `wait` returns to a task still marked asleep. */
module LateSleepers {
  import opened Blocking
  import opened Semaphore

  /** A run with what happened at each step. */
  ghost predicate IsTrace(run: seq<System>, events: seq<Event>, permits: nat, rounds: nat) {
    && |run| == |events| + 1 && Initial(run[0], permits, rounds)
    && forall k {:trigger Happened(run, events, rounds, k)} | 0 <= k < |events| :: Happened(run, events, rounds, k)
  }

  ghost predicate Happened(run: seq<System>, events: seq<Event>, rounds: nat, k: nat)
    requires k + 1 < |run| && k < |events|
  {
    Shaped(run[k]) && Enabled(run[k], events[k]) && run[k + 1] == Next(run[k], rounds, events[k])
  }

  /** Every run has such a trace. */
  lemma {:induction false} RunsAreTraces(run: seq<System>, permits: nat, rounds: nat) returns (events: seq<Event>)
    requires IsRun(run, permits, rounds)
    ensures IsTrace(run, events, permits, rounds)
  {
    if |run| == 1 {
      events := [];
    } else {
      var n := |run| - 2;
      var before := RunsAreTraces(run[..n + 1], permits, rounds);
      assert StepsTo(run[n], rounds, run[n + 1]);
      var e :| Enabled(run[n], e) && run[n + 1] == Next(run[n], rounds, e);
      events := before + [e];
      forall k | 0 <= k < |events|
        ensures Happened(run, events, rounds, k)
      {
        if k < n { assert Happened(run[..n + 1], before, rounds, k); }
      }
    }
  }

  lemma {:induction false} TraceIsSafe(run: seq<System>, events: seq<Event>, permits: nat, rounds: nat, n: nat)
    requires IsTrace(run, events, permits, rounds) && n < |run|
    ensures Inv(run[n], permits) && |run[n].workers| == |run[0].workers|
  {
    if n == 0 {
      InitialInv(run[0], permits, rounds);
    } else {
      TraceIsSafe(run, events, permits, rounds, n - 1);
      assert Happened(run, events, rounds, n - 1);
      StepKeepsInv(run[n - 1], permits, rounds, events[n - 1]);
    }
  }

  /** At step `j` task `c` marks itself asleep although its deadline has passed. */
  ghost predicate MarksLate(run: seq<System>, events: seq<Event>, c: nat, j: nat)
    requires j < |run| && j < |events|
  {
    && c < |run[j].workers| && events[j].Run? && run[j].current == c
    && run[j].workers[c].place == Idle1 && run[j].workers[c].deadline <= run[j].now
  }

  /** Between that step and state `n` the task has come no further than its wait, no tick has come, and nobody has
      made the task runnable. */
  ghost predicate Undisturbed(run: seq<System>, events: seq<Event>, c: nat, j: nat, n: nat)
    requires n <= |events| && n <= |run|
  {
    forall k {:trigger Stays(run, events, c, k)} | j < k < n :: Stays(run, events, c, k)
  }

  ghost predicate Stays(run: seq<System>, events: seq<Event>, c: nat, k: nat)
    requires k < |run| && k < |events|
  {
    && c < |run[k].workers| && run[k].workers[c].place in {Idle2, Take}
    && !events[k].Tick? && events[k] != Poke(c)
  }

  ghost predicate IsLate(run: seq<System>, events: seq<Event>, c: nat, n: nat)
    requires n < |run| && n <= |events|
  {
    exists j: nat {:trigger MarksLate(run, events, c, j)} ::
      j < n && MarksLate(run, events, c, j) && Undisturbed(run, events, c, j, n)
  }

  // --- a mark that is due is a late one -------------------------------------------------------

  /** The task's mark is there although its deadline has passed. */
  ghost predicate DueMark(s: System, c: nat)
    requires Shaped(s) && c < |s.workers|
  {
    s.workers[c].place in {Idle2, Take} && s.states[c].Asleep? && s.states[c].until <= s.now
  }

  /** A mark that is due was put there by this very step, or was there before and the step has not disturbed it. */
  lemma DueStep(s: System, permits: nat, rounds: nat, e: Event, c: nat)
    requires Inv(s, permits) && Enabled(s, e) && c < |s.workers|
    requires Inv(Next(s, rounds, e), permits) && |Next(s, rounds, e).workers| == |s.workers|
    requires DueMark(Next(s, rounds, e), c)
    ensures || (e.Run? && s.current == c && s.workers[c].place == Idle1 && s.workers[c].deadline <= s.now)
            || (DueMark(s, c) && !e.Tick? && e != Poke(c))
  {
    assert StateOk(s, c);
  }

  lemma {:induction false} DueIsLate(run: seq<System>, events: seq<Event>, permits: nat, rounds: nat, c: nat, n: nat)
    requires IsTrace(run, events, permits, rounds) && n < |run| && Shaped(run[n]) && c < |run[n].workers|
    requires DueMark(run[n], c)
    ensures IsLate(run, events, c, n)
  {
    if n > 0 {
      TraceIsSafe(run, events, permits, rounds, n - 1);
      TraceIsSafe(run, events, permits, rounds, n);
      assert Happened(run, events, rounds, n - 1);
      DueStep(run[n - 1], permits, rounds, events[n - 1], c);
      hide Inv, IsTrace, Happened;
      if MarksLate(run, events, c, n - 1) {
        assert Undisturbed(run, events, c, n - 1, n);
      } else {
        DueIsLate(run, events, permits, rounds, c, n - 1);
        var j: nat :| j < n - 1 && MarksLate(run, events, c, j) && Undisturbed(run, events, c, j, n - 1);
        assert Undisturbed(run, events, c, j, n);
      }
    }
  }

  // --- and a late one is still there --------------------------------------------------------------

  /** The task is running, and marked asleep unless it has found no permit. */
  ghost predicate StillMarked(s: System, c: nat)
    requires Shaped(s) && c < |s.workers|
  {
    s.current == c && (s.states[c].Asleep? || (s.states[c] == Waiting(CHANNEL) && s.count == 0))
  }

  lemma MarkStays(s: System, rounds: nat, e: Event, c: nat)
    requires Shaped(s) && Enabled(s, e) && c < |s.workers| && s.workers[c].place in {Idle2, Take} && StillMarked(s, c)
    requires !e.Tick? && e != Poke(c) && Next(s, rounds, e).workers[c].place in {Idle2, Take}
    ensures Shaped(Next(s, rounds, e)) && StillMarked(Next(s, rounds, e), c)
  {
  }

  lemma {:induction false} LateIsMarked(run: seq<System>, events: seq<Event>, permits: nat, rounds: nat, c: nat,
                                        j: nat, n: nat)
    requires IsTrace(run, events, permits, rounds) && j < n < |run| && MarksLate(run, events, c, j)
    requires Undisturbed(run, events, c, j, n)
    requires c < |run[n].workers| && run[n].workers[c].place in {Idle2, Take}
    ensures Shaped(run[n]) && StillMarked(run[n], c)
  {
    TraceIsSafe(run, events, permits, rounds, n - 1);
    TraceIsSafe(run, events, permits, rounds, n);
    assert Happened(run, events, rounds, n - 1);
    hide IsTrace, Inv;
    if j < n - 1 {
      assert Stays(run, events, c, n - 1);
      assert Undisturbed(run, events, c, j, n - 1);
      LateIsMarked(run, events, permits, rounds, c, j, n - 1);
      MarkStays(run[n - 1], rounds, events[n - 1], c);
    }
  }

  /** Over every run: a task that gets through its wait is marked asleep exactly when it last marked itself after its
      deadline had passed, and neither a tick nor a signal to it has come since. */
  lemma MarkedExactlyWhenLate(run: seq<System>, events: seq<Event>, permits: nat, rounds: nat, n: nat, ticks: nat)
    requires IsTrace(run, events, permits, rounds) && n < |run| && Shaped(run[n])
    requires run[n].workers[run[n].current].place == Take && run[n].count > 0
    ensures var c, t := run[n].current, RunStep(run[n], rounds, ticks);
            && t.workers[c].place == Load
            && (t.states[c].Asleep? <==> IsLate(run, events, c, n))
            && (t.states[c] == Ready <==> !IsLate(run, events, c, n))
  {
    var s, c := run[n], run[n].current;
    TraceIsSafe(run, events, permits, rounds, n);
    WaitReturnsUnmarked(s, permits, rounds, ticks);
    assert StateOk(s, c);
    hide IsTrace, Inv;
    if s.states[c].Asleep? { DueIsLate(run, events, permits, rounds, c, n); }
    if IsLate(run, events, c, n) {
      var j: nat :| j < n && MarksLate(run, events, c, j) && Undisturbed(run, events, c, j, n);
      LateIsMarked(run, events, permits, rounds, c, j, n);
    }
  }
}
