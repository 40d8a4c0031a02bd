/** Readers and writers of one pipe, preempted between any two steps.

    A step is one uninterruptible piece of the code.  Going through the task table to wake sleepers is not
    one: each slot is looked at in one step and, if it was waiting, made runnable in another. */
module PipeProtocol {
  import opened Basics
  import opened Blocking
  import opened PipeRing

  const READABLE: nat := 0x9000_0000
  const WRITABLE: nat := 0x9100_0000

  /** What a writer does after waking the readers. */
  datatype After = Return | WaitForRoom(data: seq<Byte>, written: nat)

  datatype Place =
    | Away                                                          // not in the pipe's code
    | Reading(want: nat)                                            // about to take bytes
    | ReadWait(want: nat)                                           // about to test for bytes, or park
    | Writing(data: seq<Byte>, written: nat)                        // about to place bytes
    | WriteWait(data: seq<Byte>, written: nat)                      // about to test for room, or park
    | Waking(channel: nat, at: nat, armed: bool, after: After)       // looking at, or waking, slot `at`

  /** How many read and write ends a task holds. */
  datatype Ends = Ends(r: nat, w: nat)

  /** `accepted` is every byte a write has placed, `delivered` every byte a read has taken, in order. */
  datatype System = System(now: nat, current: nat, contents: seq<Byte>, readers: nat, writers: nat,
                           places: seq<Place>, ends: seq<Ends>, states: seq<Status>,
                           accepted: seq<Byte>, delivered: seq<Byte>)

  /** What happens next: the running task takes a step, calls `read` or `write`, closes an end, or hands a copy of
      an end to a task; or changes its own state; a tick picks who goes on; a signal makes a blocked task runnable. */
  datatype Event =
    | Run | Read(want: nat) | Write(data: seq<Byte>)
    | CloseRead | CloseWrite | ShareRead(to: nat) | ShareWrite(to: nat)
    | Elsewhere(state: Status) | Tick(next: nat) | Poke(who: nat)

  predicate Shaped(s: System) { |s.places| == |s.ends| == |s.states| && s.current < |s.states| }

  predicate Enabled(s: System, e: Event)
    requires Shaped(s)
  {
    var place, ends := s.places[s.current], s.ends[s.current];
    match e
    case Run => place != Away
    case Read(_) => place == Away && ends.r > 0
    case Write(_) => place == Away && ends.w > 0
    case CloseRead => place == Away && ends.r > 0
    case CloseWrite => place == Away && ends.w > 0
    case ShareRead(to) => place == Away && ends.r > 0 && to < |s.ends|
    case ShareWrite(to) => place == Away && ends.w > 0 && to < |s.ends|
    case Elsewhere(state) => place == Away && state != Waiting(READABLE) && state != Waiting(WRITABLE)
    case Tick(next) =>
      && MayRun(Roused(s.states, s.now + 1), s.current, next)
      && (next == s.current || Roused(s.states, s.now + 1)[next] == Ready || s.places[next] == Away)
    case Poke(who) => who < |s.states| && (s.states[who].Asleep? || s.states[who].Waiting?)
  }

  function At(s: System, place: Place): System
    requires Shaped(s)
  {
    s.(places := s.places[s.current := place])
  }

  function Parked(s: System, channel: nat): System
    requires Shaped(s)
  {
    s.(states := s.states[s.current := Waiting(channel)])
  }

  function ReadStep(s: System, want: nat): System
    requires Shaped(s)
  {
    if s.contents == [] then At(s, if s.writers == 0 then Away else ReadWait(want))
    else
      var count := Min(|s.contents|, want);
      At(s, if count > 0 then Waking(WRITABLE, 0, false, Return) else Away)
        .(contents := s.contents[count..], delivered := s.delivered + s.contents[..count])
  }

  function WriteStep(s: System, data: seq<Byte>, written: nat): System
    requires Shaped(s)
  {
    if written >= |data| || s.readers == 0 then At(s, if written > 0 then Waking(READABLE, 0, false, Return) else Away)
    else if |s.contents| >= CAPACITY then At(s, Waking(READABLE, 0, false, WaitForRoom(data, written)))
    else
      var count := Min(CAPACITY - |s.contents|, |data| - written);
      var bytes := data[written..written + count];
      At(s, Writing(data, written + count)).(contents := s.contents + bytes, accepted := s.accepted + bytes)
  }

  function WakeStep(s: System, channel: nat, at: nat, armed: bool, after: After): System
    requires Shaped(s)
  {
    if at >= |s.states| then
      At(s, match after case Return => Away case WaitForRoom(data, written) => WriteWait(data, written))
    else if armed then At(s, Waking(channel, at + 1, false, after)).(states := s.states[at := Ready])
    else if s.states[at] == Waiting(channel) then At(s, Waking(channel, at, true, after))
    else At(s, Waking(channel, at + 1, false, after))
  }

  /** One step of the running task. */
  function RunStep(s: System): System
    requires Shaped(s)
  {
    match s.places[s.current]
    case Away => s
    case Reading(want) => ReadStep(s, want)
    case ReadWait(want) => if s.contents != [] || s.writers == 0 then At(s, Reading(want)) else Parked(s, READABLE)
    case Writing(data, written) => WriteStep(s, data, written)
    case WriteWait(data, written) => if |s.contents| < CAPACITY || s.readers == 0 then At(s, Writing(data, written))
                                     else Parked(s, WRITABLE)
    case Waking(channel, at, armed, after) => WakeStep(s, channel, at, armed, after)
  }

  function WithEnds(s: System, i: nat, r: int, w: int): System
    requires Shaped(s) && i < |s.ends| && s.ends[i].r + r >= 0 && s.ends[i].w + w >= 0 && s.readers + r >= 0
             && s.writers + w >= 0
  {
    s.(ends := s.ends[i := Ends(s.ends[i].r + r, s.ends[i].w + w)], readers := s.readers + r, writers := s.writers + w)
  }

  /** A close takes one off the count.  The code's saturating subtraction comes to the same: whoever closes an end
      holds one. */
  function Next(s: System, e: Event): System
    requires Shaped(s) && Enabled(s, e) && Counted(s)
  {
    SumHolds(s.ends, s.current);
    match e
    case Run => RunStep(s)
    case Read(want) => At(s, Reading(want))
    case Write(data) => At(s, Writing(data, 0))
    case CloseRead => At(WithEnds(s, s.current, -1, 0), Waking(WRITABLE, 0, false, Return))
    case CloseWrite => At(WithEnds(s, s.current, 0, -1), Waking(READABLE, 0, false, Return))
    case ShareRead(to) => WithEnds(s, to, 1, 0)
    case ShareWrite(to) => WithEnds(s, to, 0, 1)
    case Elsewhere(state) => s.(states := s.states[s.current := state])
    case Tick(next) => s.(now := s.now + 1, states := Roused(s.states, s.now + 1), current := next)
    case Poke(who) => s.(states := s.states[who := Ready])
  }

  // --- ends -------------------------------------------------------------------------------

  function ReadEnds(ends: seq<Ends>): nat {
    if ends == [] then 0 else ReadEnds(ends[..|ends| - 1]) + ends[|ends| - 1].r
  }

  function WriteEnds(ends: seq<Ends>): nat {
    if ends == [] then 0 else WriteEnds(ends[..|ends| - 1]) + ends[|ends| - 1].w
  }

  predicate Counted(s: System) { s.readers == ReadEnds(s.ends) && s.writers == WriteEnds(s.ends) }

  lemma {:induction false} SumHolds(ends: seq<Ends>, i: nat)
    requires i < |ends|
    ensures ReadEnds(ends) >= ends[i].r && WriteEnds(ends) >= ends[i].w
  {
    if i < |ends| - 1 { SumHolds(ends[..|ends| - 1], i); }
  }

  lemma {:induction false} SumChanges(ends: seq<Ends>, i: nat, e: Ends)
    requires i < |ends|
    ensures ReadEnds(ends[i := e]) + ends[i].r == ReadEnds(ends) + e.r
    ensures WriteEnds(ends[i := e]) + ends[i].w == WriteEnds(ends) + e.w
  {
    var n := |ends| - 1;
    if i < n {
      SumChanges(ends[..n], i, e);
      assert ends[i := e][..n] == ends[..n][i := e];
    } else {
      assert ends[i := e][..n] == ends[..n];
    }
  }

  // --- the invariant -------------------------------------------------------------------------

  /** A FIFO queue of bounded size. */
  ghost predicate Queue(s: System) { s.delivered + s.contents == s.accepted && |s.contents| <= CAPACITY }

  /** Task `j` has a wake of `channel` ahead of it that has not yet passed slot `i`. */
  predicate WillWake(p: Place, channel: nat, i: nat) {
    || (p.Waking? && p.channel == channel && p.at <= i)
    || (p.Writing? && p.written > 0 && channel == READABLE)
  }

  ghost predicate WakeAhead(s: System, channel: nat, i: nat) {
    exists j {:trigger s.places[j]} :: 0 <= j < |s.places| && WillWake(s.places[j], channel, i)
  }

  ghost predicate TaskOk(s: System, i: nat)
    requires Shaped(s) && i < |s.states|
  {
    var p, st, ends := s.places[i], s.states[i], s.ends[i];
    && (p.Reading? || p.ReadWait? ==> ends.r > 0)
    && (p.Writing? || p.WriteWait? || (p.Waking? && p.after.WaitForRoom?) ==> ends.w > 0)
    && (st == Waiting(READABLE) ==> p.ReadWait? && (s.contents != [] || s.writers == 0 ==> WakeAhead(s, READABLE, i)))
    && (st == Waiting(WRITABLE) ==> p.WriteWait?
                                    && (|s.contents| < CAPACITY || s.readers == 0 ==> WakeAhead(s, WRITABLE, i)))
  }

  /** The running task is only marked as waiting while what it waits for is not there. */
  predicate CurrentOk(s: System)
    requires Shaped(s)
  {
    && (s.states[s.current] == Waiting(READABLE) ==> s.contents == [] && s.writers > 0)
    && (s.states[s.current] == Waiting(WRITABLE) ==> |s.contents| == CAPACITY && s.readers > 0)
  }

  ghost predicate Inv(s: System) {
    && Shaped(s) && Counted(s) && Queue(s) && CurrentOk(s)
    && forall i {:trigger TaskOk(s, i)} | 0 <= i < |s.states| :: TaskOk(s, i)
  }

  // --- every step keeps it ----------------------------------------------------------------------

  /** If the running task's step makes bytes or room appear it owes a wake, and it still owes what it owed. */
  predicate Owed(s: System, t: System, i: nat)
    requires Shaped(s) && Shaped(t) && |t.states| == |s.states| && i < |s.states|
  {
    var p := t.places[s.current];
    && (t.contents != [] || t.writers == 0 ==> s.contents != [] || s.writers == 0 || WillWake(p, READABLE, i))
    && (|t.contents| < CAPACITY || t.readers == 0 ==> |s.contents| < CAPACITY || s.readers == 0
                                                      || WillWake(p, WRITABLE, i))
    && (t.states[i] == Waiting(READABLE) && WillWake(s.places[s.current], READABLE, i) ==> WillWake(p, READABLE, i))
    && (t.states[i] == Waiting(WRITABLE) && WillWake(s.places[s.current], WRITABLE, i) ==> WillWake(p, WRITABLE, i))
  }

  /** A task other than the running one is as it was, and wakes owed to it are still owed. */
  lemma OtherOk(s: System, t: System, i: nat)
    requires Inv(s) && Shaped(t) && |t.states| == |s.states| && i < |s.states| && i != s.current
    requires t.places == s.places[s.current := t.places[s.current]]
    requires t.ends[i].r >= s.ends[i].r && t.ends[i].w >= s.ends[i].w
             && (t.states[i] == s.states[i] || t.states[i] == Ready)
    requires Owed(s, t, i)
    ensures TaskOk(t, i)
  {
    assert TaskOk(s, i);
    forall ch | ch in {READABLE, WRITABLE} && t.states[i] == Waiting(ch) && WakeAhead(s, ch, i)
      ensures WakeAhead(t, ch, i)
    {
      var j :| 0 <= j < |s.places| && WillWake(s.places[j], ch, i);
      assert WillWake(t.places[j], ch, i);
    }
    forall ch | WillWake(t.places[s.current], ch, i)
      ensures WakeAhead(t, ch, i)
    {
    }
    hide WakeAhead;
  }

  lemma OthersOk(s: System, t: System)
    requires Inv(s) && Shaped(t) && |t.states| == |s.states|
    requires t.places == s.places[s.current := t.places[s.current]]
    requires forall i | 0 <= i < |s.states| && i != s.current ::
               t.ends[i].r >= s.ends[i].r && t.ends[i].w >= s.ends[i].w
                 && (t.states[i] == s.states[i] || t.states[i] == Ready)
    requires forall i {:trigger Owed(s, t, i)} | 0 <= i < |s.states| && i != s.current :: Owed(s, t, i)
    requires TaskOk(t, s.current)
    ensures forall i {:trigger TaskOk(t, i)} | 0 <= i < |t.states| :: TaskOk(t, i)
  {
    forall i | 0 <= i < |t.states|
      ensures TaskOk(t, i)
    {
      if i != s.current { OtherOk(s, t, i); }
    }
  }

  lemma ReadKeepsInv(s: System)
    requires Inv(s) && s.places[s.current].Reading?
    ensures Inv(RunStep(s))
  {
    var t := RunStep(s);
    assert TaskOk(s, s.current);
    assert t.delivered + t.contents == s.delivered + s.contents;
    assert TaskOk(t, s.current);
    OthersOk(s, t);
  }

  lemma WriteKeepsInv(s: System)
    requires Inv(s) && s.places[s.current].Writing?
    ensures Inv(RunStep(s))
  {
    var t := RunStep(s);
    assert TaskOk(s, s.current);
    assert t.delivered + t.contents == t.accepted;
    assert TaskOk(t, s.current);
    OthersOk(s, t);
  }

  lemma TestKeepsInv(s: System)
    requires Inv(s) && (s.places[s.current].ReadWait? || s.places[s.current].WriteWait?)
    ensures Inv(RunStep(s))
  {
    var t := RunStep(s);
    assert TaskOk(s, s.current);
    assert TaskOk(t, s.current);
    OthersOk(s, t);
  }

  lemma WakingKeepsInv(s: System)
    requires Inv(s) && s.places[s.current].Waking?
    ensures Inv(RunStep(s))
  {
    var t := RunStep(s);
    assert TaskOk(s, s.current);
    assert TaskOk(t, s.current);
    OthersOk(s, t);
  }

  lemma CallKeepsInv(s: System, e: Event)
    requires Inv(s) && Enabled(s, e) && (e.Read? || e.Write?)
    ensures Inv(Next(s, e))
  {
    var t := Next(s, e);
    assert TaskOk(s, s.current);
    assert TaskOk(t, s.current);
    OthersOk(s, t);
  }

  lemma CloseKeepsInv(s: System, e: Event)
    requires Inv(s) && Enabled(s, e) && (e.CloseRead? || e.CloseWrite?)
    ensures Inv(Next(s, e))
  {
    var t, c := Next(s, e), s.current;
    SumChanges(s.ends, c, t.ends[c]);
    assert TaskOk(s, c);
    assert TaskOk(t, c);
    hide ReadEnds, WriteEnds;
    OthersOk(s, t);
  }

  lemma ShareKeepsInv(s: System, e: Event)
    requires Inv(s) && Enabled(s, e) && (e.ShareRead? || e.ShareWrite?)
    ensures Inv(Next(s, e))
  {
    var t := Next(s, e);
    SumChanges(s.ends, e.to, t.ends[e.to]);
    SumHolds(s.ends, s.current);
    assert TaskOk(s, s.current);
    assert t.places == s.places[s.current := t.places[s.current]];
    assert TaskOk(t, s.current);
    hide ReadEnds, WriteEnds;
    OthersOk(s, t);
  }

  /** Steps that change task states only, and make nobody wait. */
  lemma StatesKeepInv(s: System, e: Event)
    requires Inv(s) && Enabled(s, e) && (e.Elsewhere? || e.Tick? || e.Poke?)
    ensures Inv(Next(s, e))
  {
    var t := Next(s, e);
    forall i | 0 <= i < |t.states|
      ensures TaskOk(t, i)
    {
      assert TaskOk(s, i);
      assert forall ch :: WakeAhead(t, ch, i) == WakeAhead(s, ch, i);
      hide WakeAhead;
    }
    if e.Tick? { assert TaskOk(s, e.next); }
  }

  lemma StepKeepsInv(s: System, e: Event)
    requires Inv(s) && Enabled(s, e)
    ensures Inv(Next(s, e))
  {
    match e
    case Run =>
      match s.places[s.current] {
        case Reading(_) => ReadKeepsInv(s);
        case Writing(_, _) => WriteKeepsInv(s);
        case Waking(_, _, _, _) => WakingKeepsInv(s);
        case _ => TestKeepsInv(s);
      }
    case Read(_) => CallKeepsInv(s, e);
    case Write(_) => CallKeepsInv(s, e);
    case CloseRead => CloseKeepsInv(s, e);
    case CloseWrite => CloseKeepsInv(s, e);
    case ShareRead(_) => ShareKeepsInv(s, e);
    case ShareWrite(_) => ShareKeepsInv(s, e);
    case _ => StatesKeepInv(s, e);
  }

  // --- every run -----------------------------------------------------------------------------------

  /** A fresh pipe: empty, and nobody in its code; its ends are with whoever holds them. */
  predicate Initial(s: System) {
    && Shaped(s) && Counted(s) && s.contents == [] && s.accepted == [] && s.delivered == []
    && (forall i | 0 <= i < |s.places| :: s.places[i] == Away)
    && (forall i | 0 <= i < |s.states| :: s.states[i] != Waiting(READABLE) && s.states[i] != Waiting(WRITABLE))
  }

  ghost predicate StepsTo(s: System, t: System) {
    Shaped(s) && Counted(s) && exists e :: Enabled(s, e) && t == Next(s, e)
  }

  ghost predicate IsRun(run: seq<System>) {
    && |run| > 0 && Initial(run[0])
    && forall n | 0 <= n < |run| - 1 :: StepsTo(run[n], run[n + 1])
  }

  /** Whatever the interleaving: bytes come out in the order they went in, none lost and none made up; the counts are
      the ends in the tasks' hands; and nobody waits for bytes or room that are there unless a wake is on its way. */
  lemma {:induction false} EveryRunIsSafe(run: seq<System>, n: nat)
    requires IsRun(run) && n < |run|
    ensures Inv(run[n])
  {
    if n > 0 {
      EveryRunIsSafe(run, n - 1);
      assert StepsTo(run[n - 1], run[n]);
      var e :| Enabled(run[n - 1], e) && run[n] == Next(run[n - 1], e);
      StepKeepsInv(run[n - 1], e);
    } else {
      forall i | 0 <= i < |run[0].states|
        ensures TaskOk(run[0], i)
      {
      }
    }
  }

  lemma NoWriters(s: System, i: nat)
    requires Inv(s) && s.writers == 0 && i < |s.ends|
    ensures s.ends[i].w == 0 && !s.places[i].Writing? && !s.places[i].WriteWait?
  {
    SumHolds(s.ends, i);
    assert TaskOk(s, i);
  }

  lemma StepAfterEnd(s: System, t: System)
    requires Inv(s) && s.writers == 0 && StepsTo(s, t)
    ensures t.writers == 0 && t.accepted == s.accepted
  {
    var e :| Enabled(s, e) && t == Next(s, e);
    NoWriters(s, s.current);
    hide TaskOk, Queue, ReadEnds, WriteEnds;
  }

  /** Once the last write end is closed there will be no more bytes, ever. */
  lemma {:induction false} EndIsForever(run: seq<System>, n: nat, m: nat)
    requires IsRun(run) && n <= m < |run| && run[n].writers == 0
    ensures run[m].writers == 0 && run[m].accepted == run[n].accepted
  {
    hide Inv, StepsTo, Initial;
    if n < m {
      EndIsForever(run, n, m - 1);
      var s := run[m - 1];
      EveryRunIsSafe(run, m - 1);
      assert StepsTo(s, run[m]);
      StepAfterEnd(s, run[m]);
    }
  }

  /** A read that wanted something and comes back with nothing has seen the end: no writer is left, every byte
      ever accepted has been delivered, and none will be accepted after it. */
  lemma ZeroMeansEnd(run: seq<System>, n: nat, want: nat, m: nat)
    requires IsRun(run) && n < m < |run| && want > 0
    requires Shaped(run[n]) && run[n].places[run[n].current] == Reading(want) && run[n + 1] == RunStep(run[n])
    requires run[n + 1].places[run[n].current] == Away
    ensures run[n].writers == 0 && run[n].delivered == run[n].accepted && run[m].accepted == run[n].delivered
  {
    EveryRunIsSafe(run, n);
    EndIsForever(run, n, m);
  }

  /** A test that succeeds leaves the wait with the task not marked as waiting for it. */
  lemma WaitReturnsUnmarked(s: System)
    requires Inv(s) && (s.places[s.current].ReadWait? || s.places[s.current].WriteWait?)
    ensures var t := RunStep(s);
            t.places[s.current] != s.places[s.current] ==> t.states[s.current] != Waiting(READABLE)
                                                           && t.states[s.current] != Waiting(WRITABLE)
  {
    assert TaskOk(s, s.current);
  }

  /** A reader and a writer never wait for each other: at most one of the two has nothing to be woken for. */
  lemma NeverBothStuck(s: System, i: nat, j: nat)
    requires Inv(s) && i < |s.states| && j < |s.states| && s.states[i] == Waiting(READABLE)
             && s.states[j] == Waiting(WRITABLE)
    ensures WakeAhead(s, READABLE, i) || WakeAhead(s, WRITABLE, j)
  {
    assert TaskOk(s, i) && TaskOk(s, j);
  }
}
