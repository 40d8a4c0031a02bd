/** The scheduler's statics and the code that updates them in place. */
module Scheduler {
  import opened Basics
  import opened SchedPolicies

  class Kernel {
    var active: nat
    var remaining: nat
    var arrived: Slots
    var stamp: nat
    var waited: Slots
    var level: Slots
    var boostAt: nat
    var unpicked: Slots
    var watchdog: bool
    var report: Option<Starvation>

    ghost function View(): Sched
      reads this
    {
      Sched(active, remaining, arrived, stamp, waited, level, boostAt, unpicked, watchdog, report)
    }

    constructor ()
      ensures View() == Boot()
    {
      active, remaining := AGING, 0;
      arrived, stamp := Zeros(), 0;
      waited := Zeros();
      level, boostAt := Zeros(), 0;
      unpicked, watchdog, report := Zeros(), true, None;
    }

    /** Take a candidate only on a strictly better score, starting just after the current task. */
    static method Scan(q: Queue, score: Scores, limit: int) returns (chosen: Option<nat>)
      requires forall i | 0 <= i < MAX_TASKS :: score[i] < limit
      ensures chosen == Winner(q, score)
    {
      chosen := None;
      var best := limit;
      for offset := 1 to MAX_TASKS + 1
        invariant chosen.None? ==> best == limit
        invariant chosen.Some? ==> q.IsReady(chosen.value) && best == score[chosen.value]
                                   && Distance(q.current, chosen.value) < offset
        invariant forall j | 0 <= j < MAX_TASKS && q.IsReady(j) && Distance(q.current, j) < offset ::
                    && chosen.Some?
                    && (|| best < score[j]
                        || (best == score[j] && Distance(q.current, chosen.value) <= Distance(q.current, j)))
      {
        var candidate := (q.current + offset) % MAX_TASKS;
        assert Distance(q.current, candidate) == offset;
        assert forall j | 0 <= j < MAX_TASKS && Distance(q.current, j) == offset :: j == candidate;
        if q.IsReady(candidate) && score[candidate] < best {
          best := score[candidate];
          chosen := Some(candidate);
        }
      }
      if chosen.Some? {
        assert Wins(q, score, chosen.value);
        WinnerIsUnique(q, score, chosen.value, Winner(q, score).value);
      }
    }

    /** Round robin: the first ready task after the current one. */
    static method PickRr(q: Queue) returns (chosen: Option<nat>)
      ensures chosen == Winner(q, Zeros())
    {
      for offset := 1 to MAX_TASKS + 1
        invariant forall j | 0 <= j < MAX_TASKS && q.IsReady(j) :: Distance(q.current, j) >= offset
      {
        var candidate := (q.current + offset) % MAX_TASKS;
        assert Distance(q.current, candidate) == offset;
        if q.IsReady(candidate) {
          assert Wins(q, Zeros(), candidate);
          WinnerIsUnique(q, Zeros(), candidate, Winner(q, Zeros()).value);
          return Some(candidate);
        }
        assert forall j | 0 <= j < MAX_TASKS && Distance(q.current, j) == offset :: j == candidate;
      }
      return None;
    }

    /** Non-preemptive: whoever still wants the processor keeps it. */
    method PickFifo(q: Queue) returns (chosen: Option<nat>)
      ensures chosen == if q.IsReady(q.current) then Some(q.current) else Earliest(q, arrived)
    {
      if q.IsReady(q.current) {
        return Some(q.current);
      }
      chosen := None;
      for id := 0 to MAX_TASKS
        invariant chosen.Some? ==> chosen.value < id && q.IsReady(chosen.value)
        invariant forall j | 0 <= j < id && q.IsReady(j) ::
                    && chosen.Some?
                    && (|| arrived[chosen.value] < arrived[j]
                        || (arrived[chosen.value] == arrived[j] && chosen.value <= j))
      {
        if q.IsReady(id) && (chosen.None? || arrived[id] < arrived[chosen.value]) {
          chosen := Some(id);
        }
      }
      if chosen.Some? {
        assert ArrivedFirst(q, arrived, chosen.value);
      }
    }

    method PickAging(q: Queue) returns (chosen: Option<nat>)
      modifies this`waited
      ensures chosen == Winner(q, AgedScores(q, old(waited)))
      ensures waited == AgeAll(q, old(waited), if chosen.Some? then chosen.value else q.current)
    {
      chosen := Scan(q, AgedScores(q, waited), 0x7FFF_FFFF);
      var winner := if chosen.Some? then chosen.value else q.current;
      for id := 0 to MAX_TASKS
        invariant forall j | 0 <= j < MAX_TASKS ::
                    waited[j] == if j < id && q.IsReady(j) && j != winner
                                 then SaturatingInc(old(waited)[j], U16_MAX) else old(waited)[j]
      {
        if q.IsReady(id) && id != winner {
          waited := waited[id := SaturatingInc(waited[id], U16_MAX)];
        }
      }
      waited := waited[winner := 0];
    }

    method PickMlfq(q: Queue) returns (chosen: Option<nat>)
      requires forall i | 0 <= i < MAX_TASKS :: level[i] < LEVELS
      modifies this`level, this`boostAt
      ensures (View(), chosen) == var b := Boosted(old(View()), q.now); (b, Winner(q, b.level))
    {
      if q.now >= boostAt {
        level := Zeros();
        boostAt := q.now + BOOST;
      }
      chosen := Scan(q, level, 0xFF);
    }

    method PickActive(q: Queue) returns (chosen: Option<nat>)
      requires forall i | 0 <= i < MAX_TASKS :: level[i] < LEVELS
      modifies this`waited, this`level, this`boostAt
      ensures (View(), chosen) == Pick(old(View()), q)
    {
      if active == RR {
        chosen := PickRr(q);
      } else if active == FIFO {
        chosen := PickFifo(q);
      } else if active == PRIO {
        chosen := Scan(q, PriorityScores(q), 0xFFFF);
      } else if active == MLFQ {
        chosen := PickMlfq(q);
      } else {
        chosen := PickAging(q);
      }
    }

    method Yielded(id: nat, usedFull: bool)
      requires id < MAX_TASKS
      modifies this`level
      ensures View() == OnYield(old(View()), id, usedFull)
    {
      if active == MLFQ && usedFull && level[id] + 1 < LEVELS {
        level := level[id := level[id] + 1];
      }
    }

    method CountAll(q: Queue, next: nat)
      modifies this`unpicked
      ensures unpicked == CountUnpicked(q, old(unpicked), next)
    {
      for id := 0 to MAX_TASKS
        invariant forall j | 0 <= j < MAX_TASKS ::
                    unpicked[j] == if j < id then CountUnpicked(q, old(unpicked), next)[j] else old(unpicked)[j]
      {
        if id == next || !q.IsReady(id) {
          unpicked := unpicked[id := 0];
        } else {
          unpicked := unpicked[id := SaturatingInc(unpicked[id], U32_MAX)];
        }
      }
    }

    method WorstWait() returns (worst: nat, longest: nat)
      ensures worst == WorstWaiter(unpicked) && longest == unpicked[worst]
    {
      worst, longest := 0, 0;
      for id := 0 to MAX_TASKS
        invariant worst < MAX_TASKS && (id == 0 ==> worst == 0) && (id > 0 ==> worst < id && longest == unpicked[worst])
        invariant id == 0 ==> longest == 0
        invariant forall j | 0 <= j < id ::
                    unpicked[j] < longest || (unpicked[j] == longest && worst <= j)
      {
        if unpicked[id] > longest {
          longest := unpicked[id];
          worst := id;
        }
      }
      assert IsWorst(unpicked, worst);
    }

    /** `on_ready` of one policy. */
    method Notify(policy: nat, id: nat)
      requires id < MAX_TASKS
      modifies this`arrived, this`stamp, this`waited, this`level
      ensures View() == OnReady(old(View()), policy, id)
    {
      if policy == FIFO {
        stamp := stamp + 1;
        arrived := arrived[id := stamp];
      } else if policy == MLFQ {
        level := level[id := 0];
      } else if policy != RR && policy != PRIO {
        waited := waited[id := 0];
      }
    }

    method TaskCreated(id: nat)
      requires id < MAX_TASKS
      modifies this`arrived, this`stamp, this`waited, this`level
      ensures View() == OnReady(old(View()), old(active), id)
    {
      Notify(active, id);
    }

    method TaskExited(id: nat)
      requires id < MAX_TASKS
      modifies this`arrived, this`waited, this`level
      ensures View() == OnExit(old(View()), old(active), id)
    {
      if active == FIFO {
        arrived := arrived[id := 0];
      } else if active == MLFQ {
        level := level[id := 0];
      } else if active != RR && active != PRIO {
        waited := waited[id := 0];
      }
    }

    /** Hand the runnable set over to another policy. */
    method InstallPolicy(index: nat, q: Queue) returns (ok: bool)
      modifies this
      ensures ok == (index < COUNT)
      ensures View() == Install(old(View()), index, q)
    {
      if index >= COUNT {
        return false;
      }
      if index == FIFO {
        arrived, stamp := Zeros(), 0;
      } else if index == MLFQ {
        level, boostAt := Zeros(), 0;
      } else if index == AGING {
        waited := Zeros();
      }
      ghost var start := View();
      for id := 0 to MAX_TASKS
        invariant View() == Replay(start, index, q, id)
      {
        if q.IsReady(id) {
          Notify(index, id);
        }
      }
      active := index;
      remaining := 0;
      unpicked := Zeros();
      ok := true;
    }

    method Guard(q: Queue)
      modifies this
      ensures View() == Watchdog(old(View()), q)
    {
      if !watchdog {
        return;
      }
      var worst, longest := WorstWait();
      if longest < STARVATION_TICKS || report.Some? {
        return;
      }
      var reverted := active != AGING;
      report := Some(Starvation(worst, longest, active, reverted));
      if reverted {
        var _ := InstallPolicy(AGING, q);
      }
    }

    method SettleOn(q: Queue, chosen: Option<nat>) returns (next: nat)
      requires chosen.Some? ==> chosen.value < MAX_TASKS
      modifies this
      ensures (View(), next) == Settle(old(View()), q, chosen)
    {
      if chosen.Some? {
        next := chosen.value;
        remaining := if active == MLFQ then Shifted(level[next]) else 1;
      } else {
        next := q.current;
        remaining := 0;
      }
      CountAll(q, next);
      Guard(q);
    }

    /** The mechanism's single call into policy, once per timer tick. */
    method ChooseNext(q: Queue) returns (next: nat)
      requires forall i | 0 <= i < MAX_TASKS :: level[i] < LEVELS
      modifies this
      ensures (View(), next) == Choose(old(View()), q)
    {
      remaining := if remaining == 0 then 0 else remaining - 1;
      if remaining > 0 && q.IsReady(q.current) {
        return q.current;
      }
      Yielded(q.current, remaining == 0);
      var chosen := PickActive(q);
      next := SettleOn(q, chosen);
    }
  }
}
