/** Task states, and the two places that make tasks runnable again: a wake on a channel and the timer. */
module Blocking {

  datatype Status = Free | Ready | Asleep(until: nat) | Waiting(channel: nat) | Finished

  /** Every task waiting on `channel` made runnable. */
  function Woken(states: seq<Status>, channel: nat): (r: seq<Status>)
    ensures |r| == |states|
    ensures forall i | 0 <= i < |r| :: r[i] == if states[i] == Waiting(channel) then Ready else states[i]
  {
    seq(|states|, i requires 0 <= i < |states| => if states[i] == Waiting(channel) then Ready else states[i])
  }

  /** Every sleeper whose deadline has passed made runnable. */
  function Roused(states: seq<Status>, now: nat): (r: seq<Status>)
    ensures |r| == |states|
    ensures forall i | 0 <= i < |r| :: r[i] == if states[i].Asleep? && states[i].until <= now then Ready else states[i]
  {
    seq(|states|, i requires 0 <= i < |states| => if states[i].Asleep? && states[i].until <= now then Ready
        else states[i])
  }

  /** What a timer tick may do: go on with any runnable task.  With none, the task that was running goes on,
      blocked as it is; when the tick also killed the task it had picked, slot 0 does instead. */
  predicate MayRun(states: seq<Status>, current: nat, next: nat) {
    && next < |states|
    && (states[next] == Ready || ((forall i | 0 <= i < |states| :: states[i] != Ready) && next in {current, 0}))
  }

  class TaskTable {
    var states: seq<Status>
    var current: nat

    method WakeAll(channel: nat) returns (woken: nat)
      modifies this`states
      ensures states == Woken(old(states), channel)
      ensures woken == |set i | 0 <= i < |old(states)| && old(states)[i] == Waiting(channel)|
    {
      ghost var before := states;
      ghost var who: set<int> := {};
      woken := 0;
      for id := 0 to |states|
        invariant |states| == |before| && woken == |who|
        invariant forall i | 0 <= i < |before| :: i in who <==> i < id && before[i] == Waiting(channel)
        invariant forall i | i in who :: 0 <= i < id
        invariant forall i | 0 <= i < |before| :: states[i] == if i < id && before[i] == Waiting(channel) then Ready
                                                  else before[i]
      {
        if states[id] == Waiting(channel) {
          states := states[id := Ready];
          woken := woken + 1;
          who := who + {id};
        }
      }
      assert who == set i | 0 <= i < |before| && before[i] == Waiting(channel);
    }

    method WakeSleepers(now: nat)
      modifies this`states
      ensures states == Roused(old(states), now)
    {
      ghost var before := states;
      for id := 0 to |states|
        invariant |states| == |before|
        invariant forall i | 0 <= i < |before| ::
                    states[i] == if i < id && before[i].Asleep? && before[i].until <= now then Ready else before[i]
      {
        if states[id].Asleep? && now >= states[id].until {
          states := states[id := Ready];
        }
      }
    }
  }
}
