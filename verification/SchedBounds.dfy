/** How long a task that stays Ready can be kept from running, for any window of any run. */
module SchedBounds {
  import opened Basics
  import opened SchedPolicies
  import opened SchedRuns

  /** `t` is Ready at the start and after every step, no tick gives it the processor, and the
      installed policy stays `policy`. */
  ghost predicate Neglected(m: Board, steps: seq<Step>, t: nat, policy: nat)
    requires t < MAX_TASKS
    requires CanRun(m, steps)
    decreases |steps|
  {
    && m.status[t].Ready?
    && m.sched.active == policy
    && (|steps| > 0 ==>
          && !steps[0].Switch?
          && (steps[0].Tick? ==>
                && Choose(m.sched, QueueAt(m, steps[0].woken)).1 != t
                && AfterTick(m, steps[0]).current != t)
          && Neglected(Apply(m, steps[0]), steps[1..], t, policy))
  }

  // --- aging --------------------------------------------------------------

  lemma AgingStep(m: Board, step: Step, t: nat, c: nat)
    requires t < MAX_TASKS && Inv(m) && m.sched.active == AGING && m.status[t].Ready?
    requires Enabled(m, step) && !step.Switch? && Apply(m, step).status[t].Ready?
    requires step.Tick? ==> Choose(m.sched, QueueAt(m, step.woken)).1 != t
    requires Overdue(m.sched.waited, t, c) && c <= 22
    ensures var c' := if step.Tick? then c + 1 else c;
            c' <= 22 && Overdue(Apply(m, step).sched.waited, t, c')
  {
    if step.Tick? {
      WaitedIsBounded(m.sched.waited);
      AgingTick(m, step.woken);
      OverduePick(QueueAt(m, step.woken), m.sched.waited, t, c);
    } else if step.Create? || step.Reap? {
      LowerWaited(m.sched.waited, step.id);
    }
  }

  lemma {:induction false} AgingWindow(m: Board, steps: seq<Step>, t: nat, c: nat)
    requires t < MAX_TASKS && Inv(m) && CanRun(m, steps) && Neglected(m, steps, t, AGING)
    requires Overdue(m.sched.waited, t, c) && c <= 22
    ensures c + Ticks(steps) <= 22
    decreases |steps|
  {
    if |steps| > 0 {
      var step := steps[0];
      StepKeepsInv(m, step);
      AgingStep(m, step, t, c);
      AgingWindow(Apply(m, step), steps[1..], t, if step.Tick? then c + 1 else c);
    }
  }

  /** Under aging a task that stays Ready is passed over at most 22 times in a row, whatever the
      other tasks do and whatever their priorities. */
  lemma AgingBound(now: nat, past: seq<Step>, steps: seq<Step>, t: nat)
    requires t < MAX_TASKS && CanRun(Booted(now), past)
    requires CanRun(After(Booted(now), past), steps)
    requires Neglected(After(Booted(now), past), steps, t, AGING)
    ensures Ticks(steps) <= MAX_PRIORITY + MAX_TASKS - 1
  {
    BootIsOk(now);
    RunKeepsInv(Booted(now), past);
    AgingWindow(After(Booted(now), past), steps, t, 0);
  }

  // --- the bound is reached -----------------------------------------------

  /** Rounds since slot `i` last ran, after `r` rounds of seven tasks taking turns. */
  function Turn(r: nat, i: nat): nat {
    if i == 7 || r < i then r else (r - i) % 7
  }

  function TurnSlots(r: nat): Slots {
    seq(MAX_TASKS, i requires 0 <= i < MAX_TASKS => Turn(r, i))
  }

  function CrowdedPriorities(): Slots {
    seq(MAX_TASKS, i => if i == 7 then 15 else 0)
  }

  /** Seven tasks of priority 0 and one of priority 15, all Ready, `r` ticks after they started. */
  function Crowded(now: nat, r: nat): Board {
    Machine(Boot().(waited := TurnSlots(r), remaining := if r == 0 then 0 else 1,
                    unpicked := TurnSlots(r)),
            seq(MAX_TASKS, _ => Ready), CrowdedPriorities(), r % 7, now + r)
  }

  const PLAIN_TICK := Tick({}, false, {})

  lemma TurnAdvances(r: nat, i: nat)
    requires i < MAX_TASKS
    ensures Turn(r + 1, i) == if i == (r + 1) % 7 && i != 7 then 0 else Turn(r, i) + 1
  {
  }

  /** Priority less waiting time of slot `i` after `r` rounds. */
  function TurnScore(r: nat, i: nat): int { (if i == 7 then 15 else 0) - Turn(r, i) }

  /** Nobody outranks whoever's turn it is, and only those behind in the scan come level. */
  lemma TurnLeads(r: nat, j: nat)
    requires r < 22 && j < MAX_TASKS
    ensures var next := (r + 1) % 7;
            || TurnScore(r, next) < TurnScore(r, j)
            || (TurnScore(r, next) == TurnScore(r, j) && Distance(r % 7, next) <= Distance(r % 7, j))
  {
    var next := (r + 1) % 7;
    TurnAdvances(r, next);
    TurnAdvances(r, j);
    assert Turn(r, next) == if r < 6 then r else 6;
  }

  /** Whoever's turn it is has waited longest, up to the 22nd tick. */
  lemma CrowdedWinner(now: nat, r: nat)
    requires r < 22
    ensures var m := Crowded(now, r); var q := QueueAt(m, {});
            Winner(q, AgedScores(q, m.sched.waited)) == Some((r + 1) % 7)
  {
    var m := Crowded(now, r);
    var q := QueueAt(m, {});
    var next := (r + 1) % 7;
    var score := AgedScores(q, m.sched.waited);
    forall j | 0 <= j < MAX_TASKS && q.IsReady(j)
      ensures || score[next] < score[j]
              || (score[next] == score[j] && Distance(q.current, next) <= Distance(q.current, j))
    {
      TurnLeads(r, j);
      assert score[j] == TurnScore(r, j) && score[next] == TurnScore(r, next);
      hide TurnScore, Turn, Distance;
    }
    hide TurnScore, Turn;
    assert Wins(q, score, next);
    WinnerIsUnique(q, score, next, Winner(q, score).value);
  }

  lemma CrowdedTick(now: nat, r: nat)
    requires r < 22
    ensures AfterTick(Crowded(now, r), PLAIN_TICK) == Crowded(now, r + 1)
    ensures Choose(Crowded(now, r).sched, QueueAt(Crowded(now, r), {})).1 != 7
  {
    var m := Crowded(now, r);
    var q := QueueAt(m, {});
    var next := (r + 1) % 7;
    CrowdedWinner(now, r);
    forall i | 0 <= i < MAX_TASKS
      ensures AgeAll(q, TurnSlots(r), next)[i] == Turn(r + 1, i) == CountUnpicked(q, TurnSlots(r), next)[i]
      ensures Turn(r + 1, i) < STARVATION_TICKS
    {
      TurnAdvances(r, i);
    }
    assert AgeAll(q, TurnSlots(r), next) == TurnSlots(r + 1);
    assert CountUnpicked(q, TurnSlots(r), next) == TurnSlots(r + 1);
    CalmTick(m.sched, q, next, TurnSlots(r + 1));
    assert q.status == m.status;
  }

  lemma CalmTick(s: Sched, q: Queue, next: nat, unpicked: Slots)
    requires s.active == AGING && s.remaining <= 1 && next < MAX_TASKS
    requires Winner(q, AgedScores(q, s.waited)) == Some(next)
    requires CountUnpicked(q, s.unpicked, next) == unpicked
    requires forall i | 0 <= i < MAX_TASKS :: unpicked[i] < STARVATION_TICKS
    ensures Choose(s, q) == (s.(remaining := 1, waited := AgeAll(q, s.waited, next), unpicked := unpicked), next)
  {
    assert unpicked[WorstWaiter(unpicked)] < STARVATION_TICKS;
  }

  function PlainTicks(n: nat): (r: seq<Step>)
    ensures |r| == n && forall i | 0 <= i < n :: r[i] == PLAIN_TICK
  {
    seq(n, _ => PLAIN_TICK)
  }

  lemma {:induction false} CrowdedWindow(now: nat, r: nat)
    requires r <= 22
    ensures CanRun(Crowded(now, r), PlainTicks(22 - r))
    ensures Neglected(Crowded(now, r), PlainTicks(22 - r), 7, AGING)
    ensures Ticks(PlainTicks(22 - r)) == 22 - r
    decreases 22 - r
  {
    if r < 22 {
      CrowdedTick(now, r);
      CrowdedWindow(now, r + 1);
      assert PlainTicks(22 - r)[1..] == PlainTicks(22 - (r + 1));
    }
  }

  function Newcomers(): seq<Step> {
    [Create(1, 0), Create(2, 0), Create(3, 0), Create(4, 0), Create(5, 0), Create(6, 0), Create(7, 15)]
  }

  /** The machine after the first `n` of the newcomers have been created. */
  function Filling(now: nat, n: nat): Board
    requires n <= 7
  {
    Machine(Boot(), seq(MAX_TASKS, i => if i <= n then Ready else Free),
            seq(MAX_TASKS, i requires 0 <= i < MAX_TASKS => if i > n then 8 else if i == 7 then 15 else 0), 0, now)
  }

  lemma {:induction false} FillingRuns(now: nat, n: nat)
    requires n <= 7
    ensures CanRun(Filling(now, n), Newcomers()[n..])
    ensures After(Filling(now, n), Newcomers()[n..]) == Crowded(now, 0)
    decreases 7 - n
  {
    var rest := Newcomers()[n..];
    if n < 7 {
      FillingRuns(now, n + 1);
      var m, m' := Filling(now, n), Filling(now, n + 1);
      assert rest[0] == Create(n + 1, CrowdedPriorities()[n + 1]);
      assert rest[1..] == Newcomers()[n + 1..];
      assert Zeros()[n + 1 := 0] == Zeros();
      assert Apply(m, rest[0]).status == m'.status;
      assert Apply(m, rest[0]).priority == m'.priority;
      assert Apply(m, rest[0]) == m';
    } else {
      assert Filling(now, 7).status == Crowded(now, 0).status;
      assert Filling(now, 7).priority == Crowded(now, 0).priority;
      assert TurnSlots(0) == Zeros();
    }
  }

  /** The bound is exact: from boot, seven tasks of priority 0 keep one of priority 15 waiting for 22
      consecutive ticks.  So being skipped MAX_PRIORITY + 1 times does not outrank everybody. */
  lemma AgingBoundIsReached(now: nat)
    ensures CanRun(Booted(now), Newcomers())
    ensures var m := After(Booted(now), Newcomers());
            && CanRun(m, PlainTicks(22))
            && Neglected(m, PlainTicks(22), 7, AGING)
            && Ticks(PlainTicks(22)) == 22 > MAX_PRIORITY + 1
  {
    assert Booted(now).status == Filling(now, 0).status;
    assert Booted(now).priority == Filling(now, 0).priority;
    assert Newcomers()[0..] == Newcomers();
    FillingRuns(now, 0);
    CrowdedWindow(now, 0);
  }

  // --- the multi-level feedback queue and round robin ----------------------

  /** Passing the processor to somebody met before `t` brings the scan closer to `t`. */
  lemma Closer(from: nat, next: nat, t: nat)
    requires from < MAX_TASKS && next < MAX_TASKS && t < MAX_TASKS && next != t
    requires Distance(from, next) <= Distance(from, t)
    ensures Distance(next, t) < Distance(from, t)
  {
  }

  function Max(a: nat, b: nat): nat { if a < b then b else a }

  /** Ticks before the first decision that boosts everybody, as seen before the next tick. */
  function UntilBoost(m: Board): nat {
    if m.sched.boostAt > m.now + 1 then m.sched.boostAt - (m.now + 1) else 0
  }

  /** How many more ticks can go by without `t`, when somebody else is running. */
  ghost function Patience(m: Board, t: nat): nat
    requires t < MAX_TASKS
  {
    if m.sched.active != MLFQ then Distance(m.current, t) - 1
    else if m.sched.level[t] == 0 then Max(m.sched.remaining, 1) - 1 + 2 * (Distance(m.current, t) - 1)
    else if UntilBoost(m) == 0 then Max(m.sched.remaining, 1) + 11
    else UntilBoost(m) + 27
  }

  lemma FallbackIsCloser(q: Queue, t: nat)
    requires q.IsReady(t) && Fallback(q) != t
    ensures Distance(Fallback(q), t) < Distance(q.current, t)
  {
    WinnerExists(q, Zeros(), t);
    Closer(q.current, Fallback(q), t);
  }

  /** The chosen task being killed instead of resumed never puts `t` further away. */
  lemma KillIsCloser(m: Board, step: Step, t: nat)
    requires step.Tick? && t < MAX_TASKS && m.status[t].Ready?
    requires var next := Choose(m.sched, QueueAt(m, step.woken)).1; next != t && AfterTick(m, step).current != t
    ensures Distance(AfterTick(m, step).current, t) <= Distance(Choose(m.sched, QueueAt(m, step.woken)).1, t)
  {
    if step.killed {
      var q := QueueAt(m, step.woken);
      var next := Choose(m.sched, q).1;
      var status := Awaken(q.status[next := Finished], step.freed);
      FallbackIsCloser(RunQueue(status, m.priority, next, q.now), t);
    }
  }

  lemma MlfqPick(s: Sched, q: Queue, t: nat)
    requires s.active == MLFQ && q.IsReady(t) && Pick(s, q).1 != Some(t)
    ensures var (p, chosen) := Pick(s, q);
            && p == Boosted(s, q.now)
            && chosen.Some?
            && (p.level[t] == 0 ==> p.level[chosen.value] == 0
                                    && Distance(chosen.value, t) < Distance(q.current, t))
  {
    var b := Boosted(s, q.now);
    WinnerExists(q, b.level, t);
    var next := Winner(q, b.level).value;
    if b.level[t] == 0 { Closer(q.current, next, t); }
  }

  lemma MlfqSettle(s: Sched, q: Queue, next: nat)
    requires s.active == MLFQ && next < MAX_TASKS && s.level[next] < LEVELS
    requires Settle(s, q, Some(next)).0.active == MLFQ
    ensures var r := Settle(s, q, Some(next)).0;
            && r.level == s.level && r.boostAt == s.boostAt
            && r.remaining == Shifted(s.level[next]) <= 16
            && (s.level[next] == 0 ==> r.remaining == 2)
  {
    ShiftedIsSmall(s.level[next]);
    WatchdogShape(s.(remaining := Quantum(s, next), unpicked := CountUnpicked(q, s.unpicked, next)), q);
  }

  /** A tick of the feedback queue that passes `t` over either runs the current quantum down, or
      makes a decision among better levels before the boost is due, or moves the scan towards `t`. */
  lemma MlfqDecision(m: Board, woken: set<nat>, t: nat)
    requires Inv(m) && m.sched.active == MLFQ && t < MAX_TASKS && m.status[t].Ready? && m.current != t
    requires var r := Choose(m.sched, QueueAt(m, woken)); r.1 != t && r.0.active == MLFQ
    ensures var (s, next) := Choose(m.sched, QueueAt(m, woken));
            || (&& next == m.current && m.sched.remaining == s.remaining + 1 > 1
                && s.level[t] == m.sched.level[t] && s.boostAt == m.sched.boostAt)
            || (&& m.now + 1 < m.sched.boostAt == s.boostAt
                && s.level[t] == m.sched.level[t] > 0 && s.remaining <= 16)
            || (&& Distance(next, t) < Distance(m.current, t) && s.level[t] == 0 && s.remaining == 2
                && (m.now + 1 < m.sched.boostAt ==> m.sched.level[t] == 0))
  {
    var q := QueueAt(m, woken);
    var remaining := if m.sched.remaining == 0 then 0 else m.sched.remaining - 1;
    if !(remaining > 0 && q.IsReady(q.current)) {
      var y := OnYield(m.sched.(remaining := remaining), q.current, remaining == 0);
      MlfqPick(y, q, t);
      var (p, chosen) := Pick(y, q);
      MlfqSettle(p, q, chosen.value);
    }
  }

  lemma MlfqTick(m: Board, step: Step, t: nat)
    requires step.Tick? && Inv(m) && m.sched.active == MLFQ && t < MAX_TASKS && m.status[t].Ready?
    requires Choose(m.sched, QueueAt(m, step.woken)).1 != t && AfterTick(m, step).current != t
    requires m.current != t && AfterTick(m, step).sched.active == MLFQ
    ensures Patience(AfterTick(m, step), t) < Patience(m, t)
  {
    MlfqDecision(m, step.woken, t);
    KillIsCloser(m, step, t);
  }

  lemma RrTick(m: Board, step: Step, t: nat)
    requires step.Tick? && Inv(m) && m.sched.active == RR && t < MAX_TASKS && m.status[t].Ready?
    requires Choose(m.sched, QueueAt(m, step.woken)).1 != t && AfterTick(m, step).current != t
    requires AfterTick(m, step).sched.active == RR
    ensures Patience(AfterTick(m, step), t) < Patience(m, t)
  {
    var q := QueueAt(m, step.woken);
    WinnerExists(q, Zeros(), t);
    Closer(q.current, Winner(q, Zeros()).value, t);
    KillIsCloser(m, step, t);
  }

  /** Anything but a tick leaves the patience of a task that stays Ready alone. */
  lemma QuietStep(m: Board, step: Step, t: nat)
    requires Enabled(m, step) && !step.Tick? && !step.Switch? && t < MAX_TASKS
    requires m.status[t].Ready? && Apply(m, step).status[t].Ready?
    ensures Apply(m, step).current == m.current && Apply(m, step).sched.active == m.sched.active
    ensures Patience(Apply(m, step), t) == Patience(m, t)
  {
  }

  lemma {:induction false} PatienceWindow(m: Board, steps: seq<Step>, t: nat, policy: nat)
    requires t < MAX_TASKS && Inv(m) && CanRun(m, steps) && Neglected(m, steps, t, policy)
    requires policy == RR || (policy == MLFQ && m.current != t)
    ensures Ticks(steps) <= Patience(m, t)
    decreases |steps|
  {
    if |steps| > 0 {
      var m' := Apply(m, steps[0]);
      StepKeepsInv(m, steps[0]);
      assert Neglected(m', steps[1..], t, policy);
      if steps[0].Tick? {
        if policy == RR { RrTick(m, steps[0], t); } else { MlfqTick(m, steps[0], t); }
      } else {
        QuietStep(m, steps[0], t);
      }
      PatienceWindow(m', steps[1..], t, policy);
    }
  }

  /** Round robin passes a Ready task over at most seven times. */
  lemma RrBound(now: nat, past: seq<Step>, steps: seq<Step>, t: nat)
    requires t < MAX_TASKS && CanRun(Booted(now), past)
    requires CanRun(After(Booted(now), past), steps)
    requires Neglected(After(Booted(now), past), steps, t, RR)
    ensures Ticks(steps) <= MAX_TASKS - 1
  {
    BootIsOk(now);
    RunKeepsInv(Booted(now), past);
    PatienceWindow(After(Booted(now), past), steps, t, RR);
  }

  lemma {:induction false} MlfqWindow(m: Board, steps: seq<Step>, t: nat)
    requires t < MAX_TASKS && Inv(m) && CanRun(m, steps) && Neglected(m, steps, t, MLFQ)
    ensures Ticks(steps) <= 52
    decreases |steps|
  {
    if m.current != t {
      PatienceWindow(m, steps, t, MLFQ);
    } else if |steps| > 0 {
      var m' := Apply(m, steps[0]);
      StepKeepsInv(m, steps[0]);
      assert Neglected(m', steps[1..], t, MLFQ);
      if steps[0].Tick? {
        PatienceWindow(m', steps[1..], t, MLFQ);
      } else {
        MlfqWindow(m', steps[1..], t);
      }
    }
  }

  /** Under the feedback queue a task that stays Ready runs again within 53 ticks, even with
      newcomers and early blockers always at the top level: well inside
      BOOST + 16 + 2 * (MAX_TASKS - 1). */
  lemma MlfqBound(now: nat, past: seq<Step>, steps: seq<Step>, t: nat)
    requires t < MAX_TASKS && CanRun(Booted(now), past)
    requires CanRun(After(Booted(now), past), steps)
    requires Neglected(After(Booted(now), past), steps, t, MLFQ)
    ensures Ticks(steps) <= 52 < BOOST + 16 + 2 * (MAX_TASKS - 1)
  {
    BootIsOk(now);
    RunKeepsInv(Booted(now), past);
    MlfqWindow(After(Booted(now), past), steps, t);
  }
}
