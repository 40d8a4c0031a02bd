/** The five scheduling policies and the mechanism that drives them, as values.

    Every operation is a function from the scheduler's statics to new statics.
    Decisions are stated declaratively: a policy's answer is the ready task with the
    best score, ties going to whoever comes first after the current task.  The
    imperative code that computes these answers is in `Scheduler`. */
module SchedPolicies {
  import opened Basics

  const MAX_TASKS: nat := 8
  const MAX_PRIORITY: nat := 15
  const LEVELS: nat := 4
  const BOOST: nat := 25
  const STARVATION_TICKS: nat := 100
  const U16_MAX: nat := 0xFFFF
  const U32_MAX: nat := 0xFFFF_FFFF

  const RR: nat := 0
  const FIFO: nat := 1
  const PRIO: nat := 2
  const AGING: nat := 3
  const MLFQ: nat := 4
  const COUNT: nat := 5

  datatype Status = Free | Ready | Blocked | Finished

  /** What a policy may see. */
  datatype RunQueue = RunQueue(status: seq<Status>, priority: seq<nat>, current: nat, now: nat) {
    predicate Valid() {
      && |status| == |priority| == MAX_TASKS
      && current < MAX_TASKS
      && forall i | 0 <= i < MAX_TASKS :: priority[i] <= MAX_PRIORITY
    }

    predicate IsReady(id: nat)
      requires Valid()
    {
      id < MAX_TASKS && status[id].Ready?
    }
  }

  const EMPTY_QUEUE := RunQueue(seq(MAX_TASKS, _ => Free), seq(MAX_TASKS, _ => 0), 0, 0)

  type Queue = q: RunQueue | q.Valid() witness EMPTY_QUEUE

  type Slots = s: seq<nat> | |s| == MAX_TASKS witness seq(MAX_TASKS, _ => 0)

  type Scores = s: seq<int> | |s| == MAX_TASKS witness seq(MAX_TASKS, _ => 0)

  function Zeros(): Slots { seq(MAX_TASKS, _ => 0) }

  /** How many steps after `from` the scan reaches `to`: 1 for the next slot, 8 for `from` itself. */
  function Distance(from: nat, to: nat): (d: nat)
    requires from < MAX_TASKS && to < MAX_TASKS
    ensures 1 <= d <= MAX_TASKS && (from + d) % MAX_TASKS == to
  {
    if to > from then to - from else to + MAX_TASKS - from
  }

  /** `w` is ready, nobody ready scores lower, and nobody scoring the same is met earlier. */
  ghost predicate Wins(q: Queue, score: Scores, w: nat) {
    && q.IsReady(w)
    && forall j | 0 <= j < MAX_TASKS && q.IsReady(j) ::
         || score[w] < score[j]
         || (score[w] == score[j] && Distance(q.current, w) <= Distance(q.current, j))
  }

  ghost function Winner(q: Queue, score: Scores): (r: Option<nat>)
    ensures r.Some? ==> r.value < MAX_TASKS && Wins(q, score, r.value)
  {
    if w: nat :| w < MAX_TASKS && Wins(q, score, w) then Some(w) else None
  }

  /** First come, first served among the ready: least arrival stamp, then least id. */
  ghost predicate ArrivedFirst(q: Queue, arrived: Slots, w: nat) {
    && q.IsReady(w)
    && forall j | 0 <= j < MAX_TASKS && q.IsReady(j) ::
         arrived[w] < arrived[j] || (arrived[w] == arrived[j] && w <= j)
  }

  ghost function Earliest(q: Queue, arrived: Slots): (r: Option<nat>)
    ensures r.Some? ==> r.value < MAX_TASKS && ArrivedFirst(q, arrived, r.value)
  {
    if w: nat :| w < MAX_TASKS && ArrivedFirst(q, arrived, w) then Some(w) else None
  }

  function PriorityScores(q: Queue): Scores {
    seq(MAX_TASKS, i requires 0 <= i < MAX_TASKS => q.priority[i])
  }

  /** Aging's score: priority minus rounds passed over. */
  function AgedScores(q: Queue, waited: Slots): Scores {
    seq(MAX_TASKS, i requires 0 <= i < MAX_TASKS => q.priority[i] as int - waited[i] as int)
  }

  function SaturatingInc(n: nat, max: nat): nat {
    if n < max then n + 1 else max
  }

  /** The winner starts again from zero; everybody else who was ready is one round older. */
  function AgeAll(q: Queue, waited: Slots, winner: nat): Slots {
    seq(MAX_TASKS, i requires 0 <= i < MAX_TASKS =>
      if i == winner then 0
      else if q.IsReady(i) then SaturatingInc(waited[i], U16_MAX)
      else waited[i])
  }

  /** The mechanism's own count of how long each ready task has gone unpicked. */
  function CountUnpicked(q: Queue, unpicked: Slots, next: nat): Slots {
    seq(MAX_TASKS, i requires 0 <= i < MAX_TASKS =>
      if i == next || !q.IsReady(i) then 0 else SaturatingInc(unpicked[i], U32_MAX))
  }

  datatype Starvation = Starvation(task: nat, ticks: nat, policy: nat, reverted: bool)

  /** All the statics of the scheduler that a decision reads or writes. */
  datatype Sched = Sched(
    active: nat, remaining: nat,
    arrived: Slots, stamp: nat,
    waited: Slots,
    level: Slots, boostAt: nat,
    unpicked: Slots, watchdog: bool, report: Option<Starvation>)

  function Boot(): Sched {
    Sched(AGING, 0, Zeros(), 0, Zeros(), Zeros(), 0, Zeros(), true, None)
  }

  function Boosted(s: Sched, now: nat): Sched {
    if now >= s.boostAt then s.(level := Zeros(), boostAt := now + BOOST) else s
  }

  ghost function Pick(s: Sched, q: Queue): (r: (Sched, Option<nat>))
    ensures r.1.Some? ==> r.1.value < MAX_TASKS && q.IsReady(r.1.value)
  {
    if s.active == RR then
      (s, Winner(q, Zeros()))
    else if s.active == FIFO then
      (s, if q.IsReady(q.current) then Some(q.current) else Earliest(q, s.arrived))
    else if s.active == PRIO then
      (s, Winner(q, PriorityScores(q)))
    else if s.active == MLFQ then
      var b := Boosted(s, q.now);
      (b, Winner(q, b.level))
    else
      var chosen := Winner(q, AgedScores(q, s.waited));
      var winner := if chosen.Some? then chosen.value else q.current;
      (s.(waited := AgeAll(q, s.waited, winner)), chosen)
  }

  /** 2 shifted left by the level. */
  function Shifted(level: nat): (r: nat)
    ensures r >= 2
  {
    if level == 0 then 2 else 2 * Shifted(level - 1)
  }

  function Quantum(s: Sched, id: nat): (r: nat)
    requires id < MAX_TASKS
    ensures r >= 1
  {
    if s.active == MLFQ then Shifted(s.level[id]) else 1
  }

  function OnYield(s: Sched, id: nat, usedFull: bool): Sched
    requires id < MAX_TASKS
  {
    if s.active == MLFQ && usedFull && s.level[id] + 1 < LEVELS
    then s.(level := s.level[id := s.level[id] + 1])
    else s
  }

  /** `on_ready` of the policy with this index. */
  function OnReady(s: Sched, policy: nat, id: nat): Sched
    requires id < MAX_TASKS
  {
    if policy == RR || policy == PRIO then s
    else if policy == FIFO then s.(stamp := s.stamp + 1, arrived := s.arrived[id := s.stamp + 1])
    else if policy == MLFQ then s.(level := s.level[id := 0])
    else s.(waited := s.waited[id := 0])
  }

  function OnExit(s: Sched, policy: nat, id: nat): Sched
    requires id < MAX_TASKS
  {
    if policy == RR || policy == PRIO then s
    else if policy == FIFO then s.(arrived := s.arrived[id := 0])
    else if policy == MLFQ then s.(level := s.level[id := 0])
    else s.(waited := s.waited[id := 0])
  }

  function Reset(s: Sched, policy: nat): Sched {
    if policy == RR || policy == PRIO then s
    else if policy == FIFO then s.(arrived := Zeros(), stamp := 0)
    else if policy == MLFQ then s.(level := Zeros(), boostAt := 0)
    else s.(waited := Zeros())
  }

  /** Replay `on_ready` for the ready tasks with ids below `n`, in id order. */
  function Replay(s: Sched, policy: nat, q: Queue, n: nat): Sched
    requires n <= MAX_TASKS
  {
    if n == 0 then s
    else
      var before := Replay(s, policy, q, n - 1);
      if q.IsReady(n - 1) then OnReady(before, policy, n - 1) else before
  }

  function Install(s: Sched, index: nat, q: Queue): Sched {
    if index >= COUNT then s
    else Replay(Reset(s, index), index, q, MAX_TASKS).(active := index, remaining := 0, unpicked := Zeros())
  }

  /** `id` has gone unpicked longest; the least id among equals. */
  ghost predicate IsWorst(unpicked: Slots, id: nat) {
    && id < MAX_TASKS
    && forall j | 0 <= j < MAX_TASKS :: unpicked[j] < unpicked[id] || (unpicked[j] == unpicked[id] && id <= j)
  }

  lemma WorstExists(unpicked: Slots)
    ensures exists id :: IsWorst(unpicked, id)
  {
    var id := WorstAmong(unpicked, MAX_TASKS);
    assert IsWorst(unpicked, id);
  }

  lemma WorstAmong(unpicked: Slots, n: nat) returns (id: nat)
    requires 1 <= n <= MAX_TASKS
    ensures id < n
    ensures forall j | 0 <= j < n :: unpicked[j] < unpicked[id] || (unpicked[j] == unpicked[id] && id <= j)
  {
    if n == 1 {
      id := 0;
    } else {
      id := WorstAmong(unpicked, n - 1);
      if unpicked[n - 1] > unpicked[id] { id := n - 1; }
    }
  }

  ghost function WorstWaiter(unpicked: Slots): (id: nat)
    ensures IsWorst(unpicked, id)
  {
    WorstExists(unpicked);
    var id :| IsWorst(unpicked, id);
    id
  }

  ghost function Watchdog(s: Sched, q: Queue): Sched {
    var worst := WorstWaiter(s.unpicked);
    var longest := s.unpicked[worst];
    if !s.watchdog || longest < STARVATION_TICKS || s.report.Some? then s
    else
      var reverted := s.active != AGING;
      var filed := s.(report := Some(Starvation(worst, longest, s.active, reverted)));
      if reverted then Install(filed, AGING, q) else filed
  }

  /** Charge the decision: set the quantum, count who was passed over, let the watchdog look. */
  ghost function Settle(s: Sched, q: Queue, chosen: Option<nat>): (r: (Sched, nat))
    requires chosen.Some? ==> chosen.value < MAX_TASKS
    ensures r.1 < MAX_TASKS
  {
    var next := if chosen.Some? then chosen.value else q.current;
    var counted := s.(remaining := if chosen.Some? then Quantum(s, next) else 0,
                      unpicked := CountUnpicked(q, s.unpicked, next));
    (Watchdog(counted, q), next)
  }

  /** One tick of the mechanism: the new statics and the task to run. */
  ghost function Choose(s: Sched, q: Queue): (r: (Sched, nat))
    ensures r.1 < MAX_TASKS
  {
    var remaining := if s.remaining == 0 then 0 else s.remaining - 1;
    var s0 := s.(remaining := remaining);
    if remaining > 0 && q.IsReady(q.current) then (s0, q.current)
    else
      var (s1, chosen) := Pick(OnYield(s0, q.current, remaining == 0), q);
      Settle(s1, q, chosen)
  }

  // --- facts about the declarative answers --------------------------------

  lemma WinnerIsUnique(q: Queue, score: Scores, a: nat, b: nat)
    requires a < MAX_TASKS && b < MAX_TASKS && Wins(q, score, a) && Wins(q, score, b)
    ensures a == b
  {
    assert Distance(q.current, a) == Distance(q.current, b);
  }

  /** Every policy answers exactly when somebody is ready. */
  lemma WinnerExists(q: Queue, score: Scores, t: nat)
    requires q.IsReady(t)
    ensures Winner(q, score).Some?
  {
    var w := BestAmong(q, score, t, MAX_TASKS);
    assert Wins(q, score, w);
  }

  lemma BestAmong(q: Queue, score: Scores, t: nat, n: nat) returns (w: nat)
    requires q.IsReady(t) && n <= MAX_TASKS
    ensures q.IsReady(w)
    ensures forall j | 0 <= j < MAX_TASKS && q.IsReady(j) && (j < n || j == t) ::
              || score[w] < score[j]
              || (score[w] == score[j] && Distance(q.current, w) <= Distance(q.current, j))
  {
    if n == 0 {
      w := t;
    } else {
      w := BestAmong(q, score, t, n - 1);
      var c := n - 1;
      if q.IsReady(c) && (score[c] < score[w]
        || (score[c] == score[w] && Distance(q.current, c) < Distance(q.current, w))) {
        w := c;
      }
    }
  }
}
