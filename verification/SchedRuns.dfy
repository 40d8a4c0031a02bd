/** Whole runs of the scheduler: timer ticks interleaved with everything a running task,
    an interrupt or the shell may do in between.  Safety is proved for every run from
    boot; the waiting bounds are proved for every window of every run. */
module SchedRuns {
  import opened Basics
  import opened SchedPolicies

  datatype Machine = Machine(sched: Sched, status: seq<Status>, priority: seq<nat>, current: nat, now: nat) {
    ghost predicate Shaped() {
      RunQueue(status, priority, current, now).Valid()
    }
  }

  type Board = m: Machine | m.Shaped()
    witness Machine(Boot(), EMPTY_QUEUE.status, EMPTY_QUEUE.priority, 0, 0)

  /** The shell is running and every other slot is free. */
  function Booted(now: nat): Board {
    Machine(Boot(), seq(MAX_TASKS, i => if i == 0 then Ready else Free),
            seq(MAX_TASKS, i => if i == 0 then 0 else 8), 0, now)
  }

  /** What can happen.  `Tick` carries the sleepers whose deadline passed; `killed` says that the
      chosen task had a fatal signal pending, and `freed` who was waiting for it. */
  datatype Step =
    | Tick(woken: set<nat>, killed: bool, freed: set<nat>)
    | Wake(id: nat)
    | Block
    | Finish
    | Create(id: nat, priority: nat)
    | Reap(id: nat)
    | Switch(index: nat)
    | ResetStats
    | SetWatchdog(on: bool)
    | TakeReport

  ghost predicate Enabled(m: Board, step: Step) {
    match step
    case Tick(_, _, _) => true
    case Wake(id) => id < MAX_TASKS && m.status[id].Blocked?
    case Block => m.status[m.current].Ready? || m.status[m.current].Blocked?
    case Finish => m.status[m.current].Ready? || m.status[m.current].Blocked?
    case Create(id, priority) => 1 <= id < MAX_TASKS && m.status[id].Free? && priority <= MAX_PRIORITY
    case Reap(id) => 1 <= id < MAX_TASKS && id != m.current && m.status[id].Finished?
    case Switch(_) => true
    case ResetStats => true
    case SetWatchdog(_) => true
    case TakeReport => true
  }

  function Awaken(status: seq<Status>, woken: set<nat>): (r: seq<Status>)
    ensures |r| == |status|
  {
    seq(|status|, i requires 0 <= i < |status| =>
      if i in woken && status[i].Blocked? then Ready else status[i])
  }

  /** What the policy is shown at this tick, after sleepers have been woken. */
  function QueueAt(m: Board, woken: set<nat>): Queue {
    RunQueue(Awaken(m.status, woken), m.priority, m.current, m.now + 1)
  }

  /** Who runs when the chosen task is killed instead of resumed: the next ready one, else slot 0. */
  ghost function Fallback(q: Queue): (r: nat)
    ensures r < MAX_TASKS
  {
    var f := Winner(q, Zeros());
    if f.Some? then f.value else 0
  }

  ghost function AfterTick(m: Board, step: Step): Board
    requires step.Tick?
  {
    var q := QueueAt(m, step.woken);
    var (sched, next) := Choose(m.sched, q);
    if step.killed then
      var status := Awaken(q.status[next := Finished], step.freed);
      Machine(sched, status, m.priority, Fallback(RunQueue(status, m.priority, next, q.now)), q.now)
    else
      Machine(sched, q.status, m.priority, next, q.now)
  }

  ghost function Apply(m: Board, step: Step): Board
    requires Enabled(m, step)
  {
    match step
    case Tick(_, _, _) => AfterTick(m, step)
    case Wake(id) => m.(status := m.status[id := Ready])
    case Block => m.(status := m.status[m.current := Blocked])
    case Finish => m.(status := m.status[m.current := Finished])
    case Create(id, priority) =>
      m.(status := m.status[id := Ready], priority := m.priority[id := priority],
         sched := OnReady(m.sched, m.sched.active, id))
    case Reap(id) =>
      m.(status := m.status[id := Free], priority := m.priority[id := 8],
         sched := OnExit(m.sched, m.sched.active, id))
    case Switch(index) =>
      m.(sched := Install(m.sched, index, RunQueue(m.status, m.priority, m.current, m.now)))
    case ResetStats => m.(sched := m.sched.(unpicked := Zeros()))
    case SetWatchdog(on) => m.(sched := m.sched.(watchdog := on))
    case TakeReport => m.(sched := m.sched.(report := None))
  }

  ghost predicate CanRun(m: Board, steps: seq<Step>)
    decreases |steps|
  {
    |steps| > 0 ==> Enabled(m, steps[0]) && CanRun(Apply(m, steps[0]), steps[1..])
  }

  ghost function After(m: Board, steps: seq<Step>): Board
    requires CanRun(m, steps)
    decreases |steps|
  {
    if |steps| == 0 then m else After(Apply(m, steps[0]), steps[1..])
  }

  function Ticks(steps: seq<Step>): nat {
    if |steps| == 0 then 0 else (if steps[0].Tick? then 1 else 0) + Ticks(steps[1..])
  }

  // --- the invariant ------------------------------------------------------

  ghost function Above(w: Slots, n: int): set<nat> {
    set i: nat | i < MAX_TASKS && w[i] > n
  }

  /** Slots other than `t` that have waited at least `n`. */
  ghost function Rivals(w: Slots, t: nat, n: int): set<nat> {
    set i: nat | i < MAX_TASKS && i != t && w[i] >= n
  }

  /** At most 7-m slots have waited longer than 16m rounds. */
  ghost predicate Layered(w: Slots) {
    forall m | 0 <= m <= 7 :: |Above(w, 16 * m)| <= 7 - m
  }

  /** `t` has been passed over `c` times in a row: it is at least that old, and past 15 rounds
      each further one has used up a rival who cannot come back in time. */
  ghost predicate Overdue(w: Slots, t: nat, c: nat)
    requires t < MAX_TASKS
  {
    && c <= w[t]
    && (c >= 15 ==> |Rivals(w, t, c - 15)| <= 22 - c)
  }

  ghost predicate AgingOk(m: Board) {
    && Layered(m.sched.waited)
    && (forall t | 0 <= t < MAX_TASKS :: Overdue(m.sched.waited, t, m.sched.unpicked[t]))
    && (forall t | 0 <= t < MAX_TASKS && m.status[t].Free? :: m.sched.unpicked[t] == 0)
    && (forall t | 0 <= t < MAX_TASKS && m.status[t].Finished? && t != m.current :: m.sched.unpicked[t] == 0)
  }

  /** What every decision keeps about the statics, whichever policy is installed. */
  ghost predicate Sound(s: Sched, now: nat) {
    && s.active < COUNT
    && (forall i | 0 <= i < MAX_TASKS :: s.level[i] < LEVELS)
    && s.remaining <= 16
    && (s.active != MLFQ ==> s.remaining <= 1)
    && s.boostAt <= now + BOOST
    && (s.report.Some? ==> s.report.value.policy != AGING && s.report.value.reverted)
  }

  ghost predicate Inv(m: Board) {
    && Sound(m.sched, m.now)
    && (m.sched.active == AGING ==> AgingOk(m))
  }

  // --- aging, one pick at a time ------------------------------------------

  lemma Within(a: set<nat>, b: set<nat>)
    requires a <= b
    ensures |a| <= |b|
  {
    assert b == a + (b - a);
  }

  lemma Without(a: set<nat>, b: set<nat>, x: nat)
    requires x in b && x !in a && a <= b
    ensures |a| <= |b| - 1
  {
    Within(a, b - {x});
  }

  lemma SlotCount(s: set<nat>)
    requires forall i | i in s :: i < MAX_TASKS
    ensures |s| <= MAX_TASKS
  {
    Within(s, {0, 1, 2, 3, 4, 5, 6, 7});
  }

  lemma SlotCountBut(s: set<nat>, t: nat)
    requires t < MAX_TASKS && t !in s
    requires forall i | i in s :: i < MAX_TASKS
    ensures |s| <= MAX_TASKS - 1
  {
    Without(s, s + {t}, t);
    SlotCount(s + {t});
  }

  /** Whoever beats a ready task has waited almost as long, whatever the priorities. */
  lemma WinnerWaited(q: Queue, w: Slots, t: nat)
    requires q.IsReady(t)
    ensures var r := Winner(q, AgedScores(q, w)); r.Some? && w[r.value] >= w[t] - MAX_PRIORITY
  {
    WinnerExists(q, AgedScores(q, w), t);
  }

  lemma LayeredPick(q: Queue, w: Slots, m: int)
    requires Layered(w) && 0 <= m <= 7
    ensures var r := Winner(q, AgedScores(q, w));
            |Above(AgeAll(q, w, if r.Some? then r.value else q.current), 16 * m)| <= 7 - m
  {
    var r := Winner(q, AgedScores(q, w));
    var winner := if r.Some? then r.value else q.current;
    var w' := AgeAll(q, w, winner);
    var after := Above(w', 16 * m);
    if m == 0 {
      SlotCountBut(after, winner);
    } else if x: nat :| x in after && w[x] == 16 * m {
      WinnerWaited(q, w, x);
      Without(after, Above(w, 16 * (m - 1)), winner);
    } else {
      assert after <= Above(w, 16 * m);
      Within(after, Above(w, 16 * m));
    }
  }

  lemma OverduePick(q: Queue, w: Slots, t: nat, c: nat)
    requires q.IsReady(t) && Overdue(w, t, c) && w[t] < U16_MAX
    requires Winner(q, AgedScores(q, w)) != Some(t)
    ensures c < 22 && Winner(q, AgedScores(q, w)).Some?
    ensures Overdue(AgeAll(q, w, Winner(q, AgedScores(q, w)).value), t, c + 1)
  {
    WinnerWaited(q, w, t);
    var winner := Winner(q, AgedScores(q, w)).value;
    var w' := AgeAll(q, w, winner);
    if c + 1 == 15 {
      SlotCountBut(Rivals(w', t, 0), t);
    } else if c >= 15 {
      assert winner in Rivals(w, t, c - 15);
      Without(Rivals(w', t, c - 14), Rivals(w, t, c - 15), winner);
    }
  }

  lemma LowerWaited(w: Slots, id: nat)
    requires id < MAX_TASKS
    ensures Layered(w) ==> Layered(w[id := 0])
    ensures forall t, c: nat | 0 <= t < MAX_TASKS && t != id :: Overdue(w, t, c) ==> Overdue(w[id := 0], t, c)
  {
    var w' := w[id := 0];
    forall m | 0 <= m <= 7 && Layered(w)
      ensures |Above(w', 16 * m)| <= 7 - m
    {
      Within(Above(w', 16 * m), Above(w, 16 * m));
    }
    forall t, c: nat | 0 <= t < MAX_TASKS && t != id && Overdue(w, t, c)
      ensures Overdue(w', t, c)
    {
      if c >= 15 {
        if c == 15 { SlotCountBut(Rivals(w', t, 0), t); }
        else { Within(Rivals(w', t, c - 15), Rivals(w, t, c - 15)); }
      }
    }
  }

  lemma WaitedIsBounded(w: Slots)
    requires Layered(w)
    ensures forall i | 0 <= i < MAX_TASKS :: w[i] <= 112
  {
    assert Above(w, 16 * 7) == {};
    assert forall i: nat | i < MAX_TASKS :: i in Above(w, 16 * 7) <==> w[i] > 112;
  }

  lemma FreshIsOk(w: Slots, u: Slots)
    requires w == Zeros() && u == Zeros()
    ensures Layered(w)
    ensures forall t | 0 <= t < MAX_TASKS :: Overdue(w, t, u[t])
  {
    forall m | 0 <= m <= 7
      ensures |Above(w, 16 * m)| <= 7 - m
    {
      assert Above(w, 16 * m) == {};
    }
  }

  // --- the invariant over every run ---------------------------------------

  lemma ReplayOnZeros(s: Sched, policy: nat, q: Queue, n: nat)
    requires n <= MAX_TASKS && policy != FIFO
    requires policy == MLFQ ==> s.level == Zeros()
    requires policy != MLFQ ==> s.waited == Zeros() || policy == RR || policy == PRIO
    ensures Replay(s, policy, q, n) == s
  {
    if n > 0 { ReplayOnZeros(s, policy, q, n - 1); }
  }

  lemma ReplayFifo(s: Sched, q: Queue, n: nat)
    requires n <= MAX_TASKS
    ensures var r := Replay(s, FIFO, q, n); r.(arrived := s.arrived, stamp := s.stamp) == s
  {
    if n > 0 { ReplayFifo(s, q, n - 1); }
  }

  /** Installing a policy touches only that policy's memory and the mechanism's counters. */
  lemma InstallShape(s: Sched, index: nat, q: Queue)
    requires index < COUNT
    ensures var r := Install(s, index, q);
            && r.active == index && r.remaining == 0 && r.unpicked == Zeros()
            && r.watchdog == s.watchdog && r.report == s.report
            && r.waited == (if index == AGING then Zeros() else s.waited)
            && r.level == (if index == MLFQ then Zeros() else s.level)
            && r.boostAt == (if index == MLFQ then 0 else s.boostAt)
  {
    if index == FIFO { ReplayFifo(Reset(s, FIFO), q, MAX_TASKS); }
    else { ReplayOnZeros(Reset(s, index), index, q, MAX_TASKS); }
  }

  lemma ShiftedIsSmall(level: nat)
    requires level < LEVELS
    ensures Shifted(level) == [2, 4, 8, 16][level]
  {
    assert Shifted(0) == 2;
    assert Shifted(1) == 4;
    assert Shifted(2) == 8;
    assert Shifted(3) == 16;
  }

  /** A decision by aging keeps its bookkeeping sound and gives the watchdog nothing to report. */
  lemma AgingTick(m: Board, woken: set<nat>)
    requires Inv(m) && m.sched.active == AGING
    ensures var q := QueueAt(m, woken);
            var w := Winner(q, AgedScores(q, m.sched.waited));
            var next := if w.Some? then w.value else q.current;
            && Choose(m.sched, q) == (m.sched.(
                 remaining := if w.Some? then 1 else 0,
                 waited := AgeAll(q, m.sched.waited, next),
                 unpicked := CountUnpicked(q, m.sched.unpicked, next)), next)
            && Layered(AgeAll(q, m.sched.waited, next))
            && forall t | 0 <= t < MAX_TASKS ::
                 Overdue(AgeAll(q, m.sched.waited, next), t, CountUnpicked(q, m.sched.unpicked, next)[t])
  {
    var q := QueueAt(m, woken);
    var w0, w := m.sched.waited, Winner(q, AgedScores(q, m.sched.waited));
    var next := if w.Some? then w.value else q.current;
    var waited, unpicked := AgeAll(q, w0, next), CountUnpicked(q, m.sched.unpicked, next);
    WaitedIsBounded(w0);
    forall k | 0 <= k <= 7
      ensures |Above(waited, 16 * k)| <= 7 - k
    {
      LayeredPick(q, w0, k);
    }
    forall t | 0 <= t < MAX_TASKS
      ensures Overdue(waited, t, unpicked[t]) && unpicked[t] <= 22
    {
      if t != next && q.IsReady(t) {
        OverduePick(q, w0, t, m.sched.unpicked[t]);
      }
    }
    var counted := m.sched.(remaining := if w.Some? then 1 else 0, waited := waited, unpicked := unpicked);
    assert unpicked[WorstWaiter(unpicked)] < STARVATION_TICKS;
    assert Watchdog(counted, q) == counted;
  }

  lemma PickIsSound(s: Sched, q: Queue)
    requires Sound(s, q.now) && s.active != AGING
    ensures var p := Pick(s, q).0; Sound(p, q.now) && p.active == s.active
  {
  }

  lemma SettleIsSound(s: Sched, q: Queue, chosen: Option<nat>)
    requires Sound(s, q.now) && s.active != AGING
    requires chosen.Some? ==> chosen.value < MAX_TASKS
    ensures var r := Settle(s, q, chosen).0;
            Sound(r, q.now) && (r.active == AGING ==> r.waited == Zeros() && r.unpicked == Zeros())
  {
    var next := if chosen.Some? then chosen.value else q.current;
    ShiftedIsSmall(s.level[next]);
    WatchdogShape(s.(remaining := if chosen.Some? then Quantum(s, next) else 0,
                     unpicked := CountUnpicked(q, s.unpicked, next)), q);
  }

  lemma TickShape(m: Board, woken: set<nat>)
    requires Inv(m) && m.sched.active != AGING
    ensures var s := Choose(m.sched, QueueAt(m, woken)).0;
            Sound(s, m.now + 1) && (s.active == AGING ==> s.waited == Zeros() && s.unpicked == Zeros())
  {
    var q := QueueAt(m, woken);
    var remaining := if m.sched.remaining == 0 then 0 else m.sched.remaining - 1;
    var s := m.sched.(remaining := remaining);
    assert Sound(s, q.now);
    if !(remaining > 0 && q.IsReady(q.current)) {
      var y := OnYield(s, q.current, remaining == 0);
      assert Sound(y, q.now);
      PickIsSound(y, q);
      SettleIsSound(Pick(y, q).0, q, Pick(y, q).1);
    }
  }

  lemma WatchdogShape(s: Sched, q: Queue)
    requires s.active != AGING
    ensures var r := Watchdog(s, q);
            || r == s
            || (&& r.active == AGING && r.remaining == 0 && r.waited == Zeros() && r.unpicked == Zeros()
                && r.level == s.level && r.boostAt == s.boostAt
                && r.report.Some? && r.report.value.policy == s.active && r.report.value.reverted)
  {
    var worst := WorstWaiter(s.unpicked);
    var filed := s.(report := Some(Starvation(worst, s.unpicked[worst], s.active, true)));
    InstallShape(filed, AGING, q);
  }

  lemma TickKeepsInv(m: Board, step: Step)
    requires Inv(m) && step.Tick?
    ensures Inv(AfterTick(m, step))
  {
    var q := QueueAt(m, step.woken);
    if m.sched.active == AGING {
      AgingTick(m, step.woken);
    } else {
      TickShape(m, step.woken);
      var s := Choose(m.sched, q).0;
      if s.active == AGING { FreshIsOk(s.waited, s.unpicked); }
    }
  }

  lemma SlotChangeKeepsInv(m: Board, step: Step)
    requires Inv(m) && Enabled(m, step) && (step.Create? || step.Reap?)
    ensures Inv(Apply(m, step))
  {
    LowerWaited(m.sched.waited, step.id);
  }

  lemma SwitchKeepsInv(m: Board, index: nat)
    requires Inv(m)
    ensures Inv(Apply(m, Switch(index)))
  {
    if index < COUNT {
      InstallShape(m.sched, index, RunQueue(m.status, m.priority, m.current, m.now));
      FreshIsOk(Zeros(), Zeros());
    }
  }

  lemma QuietKeepsInv(m: Board, step: Step)
    requires Inv(m) && Enabled(m, step) && !step.Tick? && !step.Create? && !step.Reap? && !step.Switch?
    ensures Inv(Apply(m, step))
  {
  }

  lemma StepKeepsInv(m: Board, step: Step)
    requires Inv(m) && Enabled(m, step)
    ensures Inv(Apply(m, step))
  {
    hide Inv;
    match step
    case Tick(_, _, _) => TickKeepsInv(m, step);
    case Create(_, _) => SlotChangeKeepsInv(m, step);
    case Reap(_) => SlotChangeKeepsInv(m, step);
    case Switch(index) => SwitchKeepsInv(m, index);
    case _ => QuietKeepsInv(m, step);
  }

  lemma {:induction false} RunKeepsInv(m: Board, steps: seq<Step>)
    requires Inv(m) && CanRun(m, steps)
    ensures Inv(After(m, steps))
    decreases |steps|
  {
    if |steps| > 0 {
      StepKeepsInv(m, steps[0]);
      RunKeepsInv(Apply(m, steps[0]), steps[1..]);
    }
  }

  lemma BootIsOk(now: nat)
    ensures Inv(Booted(now))
  {
    FreshIsOk(Zeros(), Zeros());
  }

  /** Over every run from boot, with any blocking, waking, exiting, killing, slot reuse and policy
      switching: while aging is installed no counter leaves its layer (so none exceeds 112 and the
      16-bit saturation is never reached), and no report ever blames aging. */
  lemma SafetyOfEveryRun(now: nat, steps: seq<Step>)
    requires CanRun(Booted(now), steps)
    ensures var s := After(Booted(now), steps).sched;
            && (s.active == AGING ==>
                  && Layered(s.waited)
                  && (forall i | 0 <= i < MAX_TASKS :: s.waited[i] <= 112 < U16_MAX)
                  && (forall i | 0 <= i < MAX_TASKS :: s.unpicked[i] <= 22 < STARVATION_TICKS))
            && (s.report.Some? ==> s.report.value.policy != AGING && s.report.value.reverted)
            && (forall i | 0 <= i < MAX_TASKS :: s.level[i] < LEVELS)
  {
    BootIsOk(now);
    RunKeepsInv(Booted(now), steps);
    var s := After(Booted(now), steps).sched;
    if s.active == AGING {
      WaitedIsBounded(s.waited);
      forall i | 0 <= i < MAX_TASKS
        ensures s.unpicked[i] <= 22
      {
        assert Overdue(s.waited, i, s.unpicked[i]);
      }
    }
  }
}
