/** A counting semaphore used by worker tasks that may be preempted between any two steps.

    A step is one uninterruptible piece of the code: a region with interrupts off, or one access to
    memory.  Only the running task takes steps, whatever its state says: a task that has marked itself
    blocked goes on until the next timer tick, and beyond it if nobody else can run. */
module Semaphore {
  import opened Blocking

  const CHANNEL: nat := 0x5E3A

  /** Where a worker is.  Sleeping takes three steps: work out the deadline, mark the task asleep, and
      look at the clock until the deadline has passed. */
  datatype Place =
    | Idle0 | Idle1 | Idle2      // sleeping, without a permit
    | Take                       // wait: take a permit or park
    | Load                       // read the shared counter
    | Hold0 | Hold1 | Hold2      // sleeping, with the permit
    | Store                      // write the counter back
    | Give                       // signal: the count goes up
    | Wake                       // signal: waiters become runnable
    | Leave                      // all rounds done, about to finish
    | Gone
    | Outsider                   // not a worker: never touches the semaphore

  datatype Worker = Worker(place: Place, round: nat, value: nat, deadline: nat)

  datatype System = System(now: nat, count: nat, counter: nat, current: nat, workers: seq<Worker>, states: seq<Status>)

  /** What happens next: the running task takes a step (`ticks` is how long a sleep begun here lasts),
      an outsider changes its own state, a timer tick picks who goes on, a signal makes a blocked task runnable. */
  datatype Event = Run(ticks: nat) | Elsewhere(state: Status) | Tick(next: nat) | Poke(who: nat)

  predicate Shaped(s: System) { |s.workers| == |s.states| && s.current < |s.states| }

  predicate Enabled(s: System, e: Event)
    requires Shaped(s)
  {
    match e
    case Run(_) => s.workers[s.current].place !in {Gone, Outsider}
    case Elsewhere(state) => s.workers[s.current].place == Outsider && state != Waiting(CHANNEL)
    case Tick(next) =>
      && MayRun(Roused(s.states, s.now + 1), s.current, next)
      && (next == s.current || Roused(s.states, s.now + 1)[next] == Ready || s.workers[next].place == Outsider)
    case Poke(who) => who < |s.states| && (s.states[who].Asleep? || s.states[who].Waiting?)
  }

  function At(s: System, w: Worker): System
    requires Shaped(s)
  {
    s.(workers := s.workers[s.current := w])
  }

  function Marked(s: System, state: Status): System
    requires Shaped(s)
  {
    s.(states := s.states[s.current := state])
  }

  /** One step of the running worker, which has `rounds` rounds to do. */
  function RunStep(s: System, rounds: nat, ticks: nat): System
    requires Shaped(s)
  {
    var w := s.workers[s.current];
    match w.place
    case Idle0 => At(s, w.(place := Idle1, deadline := s.now + ticks))
    case Idle1 => Marked(At(s, w.(place := Idle2)), Asleep(w.deadline))
    case Idle2 => if s.now >= w.deadline then At(s, w.(place := Take)) else s
    case Take => if s.count > 0 then At(s, w.(place := Load)).(count := s.count - 1) else Marked(s, Waiting(CHANNEL))
    case Load => At(s, w.(place := Hold0, value := s.counter))
    case Hold0 => At(s, w.(place := Hold1, deadline := s.now + ticks))
    case Hold1 => Marked(At(s, w.(place := Hold2)), Asleep(w.deadline))
    case Hold2 => if s.now >= w.deadline then At(s, w.(place := Store)) else s
    case Store => At(s, w.(place := Give)).(counter := w.value + 1)
    case Give => At(s, w.(place := Wake)).(count := s.count + 1)
    case Wake => At(s, w.(place := if w.round + 1 < rounds then Idle0 else Leave,
                          round := w.round + 1)).(states := Woken(s.states, CHANNEL))
    case Leave => Marked(At(s, w.(place := Gone)), Finished)
    case Gone => s
    case Outsider => s
  }

  function Next(s: System, rounds: nat, e: Event): System
    requires Shaped(s) && Enabled(s, e)
  {
    match e
    case Run(ticks) => RunStep(s, rounds, ticks)
    case Elsewhere(state) => Marked(s, state)
    case Tick(next) => s.(now := s.now + 1, states := Roused(s.states, s.now + 1), current := next)
    case Poke(who) => s.(states := s.states[who := Ready])
  }

  /** Nobody has started a round, nobody is inside, and there are `permits` permits. */
  predicate Initial(s: System, permits: nat, rounds: nat) {
    && Shaped(s) && s.count == permits && s.counter == 0
    && forall i | 0 <= i < |s.workers| ::
         var w := s.workers[i];
         && w.round == 0 && s.states[i] != Waiting(CHANNEL)
         && (w.place == Outsider || (w.place == (if rounds > 0 then Idle0 else Leave) && s.states[i] == Ready))
  }

  ghost predicate IsRun(run: seq<System>, permits: nat, rounds: nat) {
    && |run| > 0 && Initial(run[0], permits, rounds)
    && forall n | 0 <= n < |run| - 1 :: StepsTo(run[n], rounds, run[n + 1])
  }

  ghost predicate StepsTo(s: System, rounds: nat, t: System) {
    Shaped(s) && exists e :: Enabled(s, e) && t == Next(s, rounds, e)
  }

  // --- counting -----------------------------------------------------------------------

  predicate Inside(p: Place) { p in {Load, Hold0, Hold1, Hold2, Store, Give} }

  function Holders(ws: seq<Worker>): nat {
    if ws == [] then 0 else Holders(ws[..|ws| - 1]) + if Inside(ws[|ws| - 1].place) then 1 else 0
  }

  /** Rounds whose increment has been written. */
  function Written(w: Worker): nat { if w.place in {Give, Wake} then w.round + 1 else w.round }

  function Increments(ws: seq<Worker>): nat {
    if ws == [] then 0 else Increments(ws[..|ws| - 1]) + Written(ws[|ws| - 1])
  }

  lemma {:induction false} HoldersChange(ws: seq<Worker>, i: nat, w: Worker)
    requires i < |ws|
    ensures Holders(ws[i := w]) + (if Inside(ws[i].place) then 1 else 0) ==
              Holders(ws) + (if Inside(w.place) then 1 else 0)
  {
    var n := |ws| - 1;
    if i < n {
      HoldersChange(ws[..n], i, w);
      assert ws[i := w][..n] == ws[..n][i := w];
    } else {
      assert ws[i := w][..n] == ws[..n];
    }
  }

  lemma {:induction false} IncrementsChange(ws: seq<Worker>, i: nat, w: Worker)
    requires i < |ws|
    ensures Increments(ws[i := w]) + Written(ws[i]) == Increments(ws) + Written(w)
  {
    var n := |ws| - 1;
    if i < n {
      IncrementsChange(ws[..n], i, w);
      assert ws[i := w][..n] == ws[..n][i := w];
    } else {
      assert ws[i := w][..n] == ws[..n];
    }
  }

  lemma {:induction false} HolderCounts(ws: seq<Worker>, i: nat)
    requires i < |ws| && Inside(ws[i].place)
    ensures Holders(ws) >= 1
  {
    if i < |ws| - 1 { HolderCounts(ws[..|ws| - 1], i); }
  }

  /** Two workers inside are two holders. */
  lemma {:induction false} HoldersCount(ws: seq<Worker>, i: nat, j: nat)
    requires i < j < |ws| && Inside(ws[i].place) && Inside(ws[j].place)
    ensures Holders(ws) >= 2
  {
    if j < |ws| - 1 { HoldersCount(ws[..|ws| - 1], i, j); } else { HolderCounts(ws[..|ws| - 1], i); }
  }

  lemma {:induction false} SomeHolder(ws: seq<Worker>) returns (i: nat)
    requires Holders(ws) > 0
    ensures i < |ws| && Inside(ws[i].place)
  {
    if Inside(ws[|ws| - 1].place) { i := |ws| - 1; } else { i := SomeHolder(ws[..|ws| - 1]); }
  }

  // --- the invariant ---------------------------------------------------------------------

  /** No permit is lost or made up. */
  predicate Conserved(s: System, permits: nat) { s.count + Holders(s.workers) == permits }

  /** Somebody is about to wake the waiters. */
  ghost predicate WakeAhead(s: System) { exists j :: 0 <= j < |s.workers| && s.workers[j].place == Wake }

  ghost predicate StateOk(s: System, i: nat)
    requires Shaped(s) && i < |s.states|
  {
    var w, st := s.workers[i], s.states[i];
    && (st == Waiting(CHANNEL) ==> w.place == Take && (s.count > 0 ==> WakeAhead(s)))
    && (w.place == Gone ==> st == Finished)
    && (w.place !in {Outsider, Gone} ==> st.Ready? || st == Waiting(CHANNEL) || st.Asleep?)
    && (w.place !in {Outsider, Gone} && st.Asleep? ==> st.until <= s.now
                                                       || (w.place in {Idle2, Hold2} && st.until == w.deadline))
  }

  ghost predicate Inv(s: System, permits: nat) {
    && Shaped(s) && Conserved(s, permits)
    && (forall i {:trigger StateOk(s, i)} | 0 <= i < |s.states| :: StateOk(s, i))
    && (s.states[s.current] == Waiting(CHANNEL) ==> s.count == 0)
  }

  lemma InitialInv(s: System, permits: nat, rounds: nat)
    requires Initial(s, permits, rounds)
    ensures Inv(s, permits)
  {
    NobodyInside(s.workers);
  }

  lemma {:induction false} NobodyInside(ws: seq<Worker>)
    requires forall i | 0 <= i < |ws| :: !Inside(ws[i].place)
    ensures Holders(ws) == 0
  {
    if ws != [] { NobodyInside(ws[..|ws| - 1]); }
  }

  /** Other tasks' states survive a step of the running one, as long as a wake stays ahead where it was. */
  lemma OthersOk(s: System, t: System)
    requires Shaped(s) && Shaped(t) && t.current == s.current && t.now == s.now && |t.states| == |s.states|
    requires forall i {:trigger StateOk(s, i)} | 0 <= i < |s.states| :: StateOk(s, i)
    requires forall i | 0 <= i < |s.states| && i != s.current :: t.workers[i] == s.workers[i]
    requires forall i | 0 <= i < |s.states| && i != s.current :: t.states[i] == s.states[i]
    requires (t.count > 0 ==> WakeAhead(t)) || (t.count <= s.count && (WakeAhead(s) ==> WakeAhead(t)))
    ensures forall i | 0 <= i < |s.states| && i != s.current :: StateOk(t, i)
  {
    forall i | 0 <= i < |s.states| && i != s.current
      ensures StateOk(t, i)
    {
      assert StateOk(s, i);
    }
  }

  /** The running task's own step keeps the invariant: every kind but the wake. */
  lemma RunKeepsInv(s: System, permits: nat, rounds: nat, ticks: nat)
    requires Inv(s, permits) && Enabled(s, Run(ticks)) && s.workers[s.current].place != Wake
    ensures Inv(RunStep(s, rounds, ticks), permits)
  {
    var t, c := RunStep(s, rounds, ticks), s.current;
    RunHolds(s, permits, rounds, ticks);
    assert StateOk(s, c);
    WakeStays(s, t);
    assert StateOk(t, c);
    hide StateOk, Conserved, WakeAhead;
    OthersOk(s, t);
  }

  /** Taking and giving move a permit between the count and the tasks inside. */
  lemma RunHolds(s: System, permits: nat, rounds: nat, ticks: nat)
    requires Shaped(s) && Conserved(s, permits) && Enabled(s, Run(ticks))
    ensures var t := RunStep(s, rounds, ticks);
            && |t.workers| == |s.workers| && t.workers == s.workers[s.current := t.workers[s.current]]
               && Conserved(t, permits)
  {
    var t, c := RunStep(s, rounds, ticks), s.current;
    assert t.workers == s.workers[c := t.workers[c]];
    HoldersChange(s.workers, c, t.workers[c]);
    hide Holders;
  }

  lemma WakeStays(s: System, t: System)
    requires Shaped(s) && |t.workers| == |s.workers| && t.workers == s.workers[s.current := t.workers[s.current]]
    requires s.workers[s.current].place != Wake
    ensures WakeAhead(s) ==> WakeAhead(t)
    ensures t.workers[s.current].place == Wake ==> WakeAhead(t)
  {
    if WakeAhead(s) {
      var j :| 0 <= j < |s.workers| && s.workers[j].place == Wake;
      assert t.workers[j].place == Wake;
    }
  }

  lemma WakeKeepsInv(s: System, permits: nat, rounds: nat, ticks: nat)
    requires Inv(s, permits) && s.workers[s.current].place == Wake
    ensures Inv(RunStep(s, rounds, ticks), permits)
  {
    var t, c := RunStep(s, rounds, ticks), s.current;
    HoldersChange(s.workers, c, t.workers[c]);
    forall i | 0 <= i < |t.states|
      ensures StateOk(t, i)
    {
      assert StateOk(s, i);
    }
  }

  lemma TickKeepsInv(s: System, permits: nat, next: nat)
    requires Inv(s, permits) && Enabled(s, Tick(next))
    ensures Inv(Next(s, 0, Tick(next)), permits)
  {
    var t := Next(s, 0, Tick(next));
    assert WakeAhead(s) ==> WakeAhead(t);
    forall i | 0 <= i < |t.states|
      ensures StateOk(t, i)
    {
      assert StateOk(s, i);
    }
    assert StateOk(s, next);
  }

  lemma OtherKeepsInv(s: System, permits: nat, e: Event)
    requires Inv(s, permits) && Enabled(s, e) && (e.Poke? || e.Elsewhere?)
    ensures Inv(Next(s, 0, e), permits)
  {
    var t := Next(s, 0, e);
    assert WakeAhead(s) ==> WakeAhead(t);
    forall i | 0 <= i < |t.states|
      ensures StateOk(t, i)
    {
      assert StateOk(s, i);
    }
  }

  lemma StepKeepsInv(s: System, permits: nat, rounds: nat, e: Event)
    requires Inv(s, permits) && Enabled(s, e)
    ensures Inv(Next(s, rounds, e), permits)
  {
    match e
    case Run(ticks) =>
      if s.workers[s.current].place == Wake {
        WakeKeepsInv(s, permits, rounds, ticks);
      } else {
        RunKeepsInv(s, permits, rounds, ticks);
      }
    case Elsewhere(_) => OtherKeepsInv(s, permits, e);
    case Tick(next) => TickKeepsInv(s, permits, next);
    case Poke(_) => OtherKeepsInv(s, permits, e);
  }

  // --- what follows, over every run -----------------------------------------------------------

  /** In every run: permits are conserved, and nobody waits for a permit that is there unless a wake is
      still ahead. */
  lemma {:induction false} EveryRunIsSafe(run: seq<System>, permits: nat, rounds: nat, n: nat)
    requires IsRun(run, permits, rounds) && n < |run|
    ensures Inv(run[n], permits)
  {
    if n == 0 {
      InitialInv(run[0], permits, rounds);
    } else {
      EveryRunIsSafe(run, permits, rounds, n - 1);
      assert StepsTo(run[n - 1], rounds, run[n]);
      var e :| Enabled(run[n - 1], e) && run[n] == Next(run[n - 1], rounds, e);
      StepKeepsInv(run[n - 1], permits, rounds, e);
    }
  }

  /** A task that gets through `wait` is not marked as waiting.  If it is marked asleep, that is the mark of a
      sleep whose deadline has passed, and the next tick takes it off. */
  lemma WaitReturnsUnmarked(s: System, permits: nat, rounds: nat, ticks: nat)
    requires Inv(s, permits) && s.workers[s.current].place == Take && s.count > 0
    ensures var t := RunStep(s, rounds, ticks);
            && t.workers[s.current].place == Load && t.count == s.count - 1
            && (t.states[s.current] == Ready || (t.states[s.current].Asleep? && t.states[s.current].until <= t.now))
            && Roused(t.states, t.now + 1)[s.current] == Ready
  {
    assert StateOk(s, s.current);
  }

  /** As long as there is a permit in the world, a waiter has somebody to wait for: a task inside, or one
      about to wake it, neither of them waiting itself. */
  lemma NoDeadlock(s: System, permits: nat, i: nat) returns (j: nat)
    requires Inv(s, permits) && permits > 0 && i < |s.states| && s.states[i] == Waiting(CHANNEL)
    ensures j < |s.states| && (Inside(s.workers[j].place) || s.workers[j].place == Wake)
    ensures s.states[j] == Ready || s.states[j].Asleep?
  {
    assert StateOk(s, i);
    if s.count > 0 {
      j :| 0 <= j < |s.workers| && s.workers[j].place == Wake;
    } else {
      j := SomeHolder(s.workers);
    }
    assert StateOk(s, j);
  }

  // --- one permit: the counter comes out right -----------------------------------------------------

  ghost predicate RoundOk(w: Worker, rounds: nat) {
    match w.place
    case Outsider => w.round == 0
    case Leave => w.round == rounds
    case Gone => w.round == rounds
    case _ => w.round < rounds
  }

  /** Every increment written is counted, and whoever has read the counter has read the latest. */
  ghost predicate Exact(s: System, rounds: nat) {
    && s.counter == Increments(s.workers)
    && (forall i | 0 <= i < |s.workers| :: RoundOk(s.workers[i], rounds))
    && (forall i | 0 <= i < |s.workers| && s.workers[i].place in {Hold0, Hold1, Hold2, Store} ::
      s.workers[i].value == s.counter)
  }

  lemma OneInside(s: System, i: nat, j: nat)
    requires Conserved(s, 1) && i < |s.workers| && j < |s.workers| && Inside(s.workers[i].place)
             && Inside(s.workers[j].place)
    ensures i == j
  {
    if i < j { HoldersCount(s.workers, i, j); }
    if j < i { HoldersCount(s.workers, j, i); }
  }

  /** Only the store changes the counter, and by one more increment written. */
  lemma RunCounts(s: System, rounds: nat, ticks: nat)
    requires Shaped(s) && Enabled(s, Run(ticks)) && Exact(s, rounds)
    ensures var t := RunStep(s, rounds, ticks);
            && t.counter == Increments(t.workers) && t.workers == s.workers[s.current := t.workers[s.current]]
            && (s.workers[s.current].place != Store ==> t.counter == s.counter)
            && RoundOk(t.workers[s.current], rounds)
  {
    var t, c := RunStep(s, rounds, ticks), s.current;
    assert t.workers == s.workers[c := t.workers[c]];
    IncrementsChange(s.workers, c, t.workers[c]);
    assert RoundOk(s.workers[c], rounds);
    hide Increments;
  }

  lemma RunKeepsExact(s: System, rounds: nat, ticks: nat)
    requires Inv(s, 1) && Exact(s, rounds) && Enabled(s, Run(ticks))
    ensures Exact(RunStep(s, rounds, ticks), rounds)
  {
    var t, c := RunStep(s, rounds, ticks), s.current;
    RunCounts(s, rounds, ticks);
    hide Increments, RoundOk, StateOk, Holders;
    forall i | 0 <= i < |t.workers| && t.workers[i].place in {Hold0, Hold1, Hold2, Store}
      ensures t.workers[i].value == t.counter
    {
      if s.workers[c].place == Store && i != c { OneInside(s, i, c); }
    }
  }

  lemma StepKeepsExact(s: System, rounds: nat, e: Event)
    requires Inv(s, 1) && Exact(s, rounds) && Enabled(s, e)
    ensures Exact(Next(s, rounds, e), rounds)
  {
    if e.Run? { RunKeepsExact(s, rounds, e.ticks); }
  }

  lemma {:induction false} EveryRunIsExact(run: seq<System>, rounds: nat, n: nat)
    requires IsRun(run, 1, rounds) && n < |run|
    ensures Exact(run[n], rounds)
  {
    if n == 0 {
      NoIncrements(run[0].workers);
    } else {
      EveryRunIsExact(run, rounds, n - 1);
      EveryRunIsSafe(run, 1, rounds, n - 1);
      assert StepsTo(run[n - 1], rounds, run[n]);
      var e :| Enabled(run[n - 1], e) && run[n] == Next(run[n - 1], rounds, e);
      StepKeepsExact(run[n - 1], rounds, e);
    }
  }

  lemma {:induction false} NoIncrements(ws: seq<Worker>)
    requires forall i | 0 <= i < |ws| :: ws[i].round == 0 && ws[i].place in {Idle0, Leave, Outsider}
    ensures Increments(ws) == 0
  {
    if ws != [] { NoIncrements(ws[..|ws| - 1]); }
  }

  function WorkersIn(ws: seq<Worker>): nat {
    if ws == [] then 0 else WorkersIn(ws[..|ws| - 1]) + if ws[|ws| - 1].place == Outsider then 0 else 1
  }

  lemma {:induction false} AllIncrements(ws: seq<Worker>, rounds: nat)
    requires forall i | 0 <= i < |ws| :: RoundOk(ws[i], rounds) && ws[i].place in {Gone, Outsider}
    ensures Increments(ws) == WorkersIn(ws) * rounds
  {
    if ws != [] {
      AllIncrements(ws[..|ws| - 1], rounds);
      var n := WorkersIn(ws[..|ws| - 1]);
      assert (n + 1) * rounds == n * rounds + rounds;
    }
  }

  lemma {:induction false} SameWorkers(ws: seq<Worker>, i: nat, w: Worker)
    requires i < |ws| && (w.place == Outsider <==> ws[i].place == Outsider)
    ensures WorkersIn(ws[i := w]) == WorkersIn(ws)
  {
    var n := |ws| - 1;
    if i < n {
      SameWorkers(ws[..n], i, w);
      assert ws[i := w][..n] == ws[..n][i := w];
    } else {
      assert ws[i := w][..n] == ws[..n];
    }
  }

  lemma {:induction false} WorkersStay(run: seq<System>, permits: nat, rounds: nat, n: nat)
    requires IsRun(run, permits, rounds) && n < |run|
    ensures WorkersIn(run[n].workers) == WorkersIn(run[0].workers)
  {
    if n > 0 {
      WorkersStay(run, permits, rounds, n - 1);
      assert StepsTo(run[n - 1], rounds, run[n]);
      var s := run[n - 1];
      var e :| Enabled(s, e) && run[n] == Next(s, rounds, e);
      if e.Run? {
        assert run[n].workers == s.workers[s.current := run[n].workers[s.current]];
        SameWorkers(s.workers, s.current, run[n].workers[s.current]);
      }
    }
  }

  /** With one permit, however the workers are interleaved, once they have all finished the counter is the
      number of workers times the number of rounds. */
  lemma CounterIsExact(run: seq<System>, rounds: nat, n: nat)
    requires IsRun(run, 1, rounds) && n < |run|
    requires forall i | 0 <= i < |run[n].workers| :: run[n].workers[i].place in {Gone, Outsider}
    ensures run[n].counter == WorkersIn(run[0].workers) * rounds
  {
    EveryRunIsExact(run, rounds, n);
    AllIncrements(run[n].workers, rounds);
    WorkersStay(run, 1, rounds, n);
  }

  // --- the mark a late sleeper carries ----------------------------------------------------------------

  function Lone(now: nat, count: nat, place: Place, deadline: nat, state: Status): System {
    System(now, count, 0, 0, [Worker(place, 0, 0, deadline)], [state])
  }

  /** `wait` can return to a task still marked asleep: one that was held up between working out its
      deadline and marking itself until the deadline had passed. */
  lemma LateSleeperIsMarked() returns (run: seq<System>)
    ensures IsRun(run, 1, 1)
    ensures var t := run[|run| - 1]; Shaped(t) && t.workers[t.current].place == Load && t.states[t.current] == Asleep(3)
  {
    run := [Lone(0, 1, Idle0, 0, Ready), Lone(0, 1, Idle1, 3, Ready), Lone(1, 1, Idle1, 3, Ready),
            Lone(2, 1, Idle1, 3, Ready), Lone(3, 1, Idle1, 3, Ready), Lone(3, 1, Idle2, 3, Asleep(3)),
            Lone(3, 1, Take, 3, Asleep(3)), Lone(3, 0, Load, 3, Asleep(3))];
    var events := [Run(3), Tick(0), Tick(0), Tick(0), Run(0), Run(0), Run(0)];
    forall n | 0 <= n < |run| - 1
      ensures StepsTo(run[n], 1, run[n + 1])
    {
      assert Enabled(run[n], events[n]) && run[n + 1] == Next(run[n], 1, events[n]);
    }
  }
}
