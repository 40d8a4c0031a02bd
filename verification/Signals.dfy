/** Signal delivery: the interrupted frame is pushed onto the program's own stack and put back by `sigreturn`.

    User memory is a sequence of eight-byte words; an address is a number of bytes. */
module Signals {

  const RDI: nat := 8
  const RAX: nat := 14
  const RIP: nat := 15
  const CS: nat := 16
  const RSP: nat := 18
  const FRAME_WORDS: nat := 20
  const SIGKILL: nat := 9
  const MAX_SIGNALS: nat := 16

  type Frame = f: seq<nat> | |f| == FRAME_WORDS witness seq(FRAME_WORDS, _ => 0)

  type Memory = seq<nat>

  predicate InUserMode(f: Frame) { f[CS] % 4 == 3 }

  /** Where a frame is pushed: below the stack pointer, aligned down to sixteen bytes. */
  function SavedAt(rsp: nat): (at: nat)
    requires rsp >= 160
    ensures at % 16 == 0 && at % 8 == 0 && at + 160 <= rsp < at + 176
  {
    (rsp - 160) / 16 * 16
  }

  /** There is room on the stack for a frame and a return address. */
  predicate HasRoom(f: Frame, mem: Memory) { 176 <= f[RSP] <= 8 * |mem| }

  /** Memory with the frame pushed and the restorer's address below it. */
  function Pushed(mem: Memory, f: Frame, restorer: nat): (m: Memory)
    requires HasRoom(f, mem)
    ensures |m| == |mem|
  {
    var w := SavedAt(f[RSP]) / 8;
    mem[..w - 1] + [restorer] + f + mem[w + 20..]
  }

  /** The frame that enters the handler. */
  function Entering(f: Frame, handler: nat, signal: nat): Frame
    requires f[RSP] >= 176
  {
    f[RIP := handler][RDI := signal][RSP := SavedAt(f[RSP]) - 8]
  }

  /** The twenty words at an address. */
  function FrameAt(mem: Memory, at: nat): Frame
    requires at % 8 == 0 && at + 160 <= 8 * |mem|
  {
    Words(mem, at / 8)
  }

  function Words(mem: Memory, w: nat): Frame
    requires w + 20 <= |mem|
  {
    mem[w..w + 20]
  }

  lemma SameWords(mem: Memory, mem': Memory, w: nat)
    requires |mem'| == |mem| && w + 20 <= |mem| && forall i | w <= i < w + 20 :: mem'[i] == mem[i]
    ensures Words(mem', w) == Words(mem, w)
  {
  }

  /** What was pushed is there, the return address is below it, and nothing else has changed. */
  lemma PushedIs(mem: Memory, f: Frame, restorer: nat)
    requires HasRoom(f, mem)
    ensures var at, m := SavedAt(f[RSP]), Pushed(mem, f, restorer);
            && FrameAt(m, at) == f && m[at / 8 - 1] == restorer
            && (forall i | 0 <= i < at / 8 - 1 :: m[i] == mem[i])
            && (forall i | at / 8 + 20 <= i < |mem| :: m[i] == mem[i])
  {
  }

  function Lowest(pending: set<nat>, n: nat): (r: nat)
    requires n <= MAX_SIGNALS
    ensures n <= r <= MAX_SIGNALS && (r < MAX_SIGNALS ==> r in pending) && forall j | n <= j < r :: j !in pending
    decreases MAX_SIGNALS - n
  {
    if n == MAX_SIGNALS || n in pending then n else Lowest(pending, n + 1)
  }

  /** A signal is pending for a program in user mode that has a handler for it and a way back. */
  predicate Enters(pending: set<nat>, f: Frame, handlers: seq<nat>, restorer: nat)
    requires |handlers| == MAX_SIGNALS
  {
    && pending != {} && InUserMode(f) && restorer != 0
    && var signal := Lowest(pending, 0); signal < MAX_SIGNALS && handlers[signal] != 0 && signal != SIGKILL
  }

  class Task {
    var frame: Frame
    var mem: Memory
    var pending: set<nat>
    var handlers: seq<nat>
    var restorer: nat

    constructor (frame: Frame, mem: Memory, pending: set<nat>, handlers: seq<nat>, restorer: nat)
      ensures this.frame == frame && this.mem == mem && this.pending == pending
      ensures this.handlers == handlers && this.restorer == restorer
    {
      this.frame, this.mem, this.pending, this.handlers, this.restorer := frame, mem, pending, handlers, restorer;
    }

    ghost predicate Valid()
      reads this
    {
      |handlers| == MAX_SIGNALS && forall s | s in pending :: s < MAX_SIGNALS
    }

    method TakePending() returns (signal: nat)
      requires Valid()
      modifies this`pending
      ensures Valid() && signal == Lowest(old(pending), 0) && pending == old(pending) - {signal}
      ensures signal == MAX_SIGNALS <==> old(pending) == {}
    {
      signal := 0;
      while signal < MAX_SIGNALS && signal !in pending
        invariant signal <= MAX_SIGNALS && Lowest(pending, 0) == Lowest(pending, signal)
      {
        signal := signal + 1;
      }
      pending := pending - {signal};
    }

    /** Deliver at most one pending signal.  True if the task is to be terminated instead. */
    method Deliver() returns (kill: bool)
      requires Valid() && HasRoom(frame, mem)
      modifies this`frame, this`mem, this`pending
      ensures Valid()
      ensures var signal := Lowest(old(pending), 0);
              if old(pending) == {} || !InUserMode(old(frame)) then
                !kill && frame == old(frame) && mem == old(mem) && pending == old(pending)
              else if handlers[signal] == 0 || signal == SIGKILL || restorer == 0 then
                kill && frame == old(frame) && mem == old(mem) && pending == old(pending) - {signal}
              else
                !kill && pending == old(pending) - {signal} && mem == Pushed(old(mem), old(frame), restorer)
                && frame == Entering(old(frame), handlers[signal], signal)
    {
      hide Pushed, SavedAt;
      var signal := TakePending();
      if signal == MAX_SIGNALS {
        return false;
      }
      if !InUserMode(frame) {
        pending := pending + {signal};
        return false;
      }
      var handler := handlers[signal];
      if handler == 0 || signal == SIGKILL {
        return true;
      }
      if restorer == 0 {
        return true;
      }
      var entry := PushFrame();
      frame := frame[RIP := handler];
      frame := frame[RDI := signal];
      frame := frame[RSP := entry];
      return false;
    }

    /** Push the interrupted frame onto the program's own stack, and the restorer's address below it. */
    method PushFrame() returns (entry: nat)
      requires HasRoom(frame, mem)
      modifies this`mem
      ensures mem == Pushed(old(mem), frame, restorer) && entry == SavedAt(frame[RSP]) - 8
    {
      var saved := SavedAt(frame[RSP]);
      ghost var before := mem;
      for index := 0 to FRAME_WORDS
        invariant |mem| == |before|
        invariant mem == before[..saved / 8] + frame[..index] + before[saved / 8 + index..]
      {
        mem := mem[saved / 8 + index := frame[index]];
      }
      assert frame[..FRAME_WORDS] == frame;
      entry := saved - 8;
      mem := mem[entry / 8 := restorer];
    }

    /** Undo a delivery: copy the frame the handler was standing on back. */
    method Restore()
      requires frame[RSP] % 8 == 0 && frame[RSP] + 160 <= 8 * |mem|
      modifies this`frame
      ensures frame == FrameAt(mem, old(frame[RSP]))
    {
      var saved := frame[RSP];
      for index := 0 to FRAME_WORDS
        invariant forall i | 0 <= i < index :: frame[i] == mem[saved / 8 + i]
      {
        frame := frame[index := mem[saved / 8 + index]];
      }
    }

    /** The way out of a system call: a pending signal is delivered first, and only then is the result of the call
        put where RAX will be restored from. */
    method FinishCall(result: nat) returns (kill: bool)
      requires Valid() && HasRoom(frame, mem)
      modifies this`frame, this`mem, this`pending
      ensures Valid()
      ensures kill <==> old(pending) != {} && InUserMode(old(frame))
                        && !Enters(old(pending), old(frame), handlers, restorer)
      ensures kill ==> frame == old(frame) && mem == old(mem)
      ensures !kill ==> var signal := Lowest(old(pending), 0);
                        if Enters(old(pending), old(frame), handlers, restorer) then
                          && mem == Pushed(old(mem), old(frame), restorer) && pending == old(pending) - {signal}
                          && frame == Entering(old(frame), handlers[signal], signal)[RAX := result]
                        else frame == old(frame)[RAX := result] && mem == old(mem) && pending == old(pending)
    {
      hide Pushed, SavedAt, Entering;
      kill := false;
      if pending != {} {
        kill := Deliver();
      }
      if !kill {
        frame := frame[RAX := result];
      }
    }

    /** `sigreturn`: the frame comes back from the stack, and its RAX is the result of the call. */
    method Sigreturn() returns (kill: bool)
      requires Valid() && frame[RSP] % 8 == 0 && frame[RSP] + 160 <= 8 * |mem|
      requires HasRoom(FrameAt(mem, frame[RSP]), mem)
      modifies this`frame, this`mem, this`pending
      ensures Valid()
      ensures var back := FrameAt(old(mem), old(frame[RSP]));
              && (kill <==> old(pending) != {} && InUserMode(back) && !Enters(old(pending), back, handlers, restorer))
              && (!kill ==>
                    if Enters(old(pending), back, handlers, restorer) then mem == Pushed(old(mem), back, restorer)
                    else frame == back && mem == old(mem))
    {
      hide Pushed, SavedAt, Entering, FrameAt, Enters;
      Restore();
      ghost var back := frame;
      assert back[RAX := back[RAX]] == back;
      kill := FinishCall(frame[RAX]);
    }

    /** A whole call: its result, the handler a signal may enter on the way out, which comes back to the restorer with
        registers `after` and memory `memory`, and the return through `sigreturn`.  The program gets its result exactly
        when no handler was entered or RAX, the number of the call, already was the result. */
    method CallInterrupted(result: nat, after: Frame, memory: Memory) returns (kill: bool)
      requires Valid() && HasRoom(frame, mem) && ComesBack(frame, mem, restorer, after, memory)
      modifies this`frame, this`mem, this`pending
      ensures !kill ==> && (frame[RAX] == result <==>
                              !Enters(old(pending), old(frame), handlers, restorer) || old(frame)[RAX] == result)
                        && forall i | 0 <= i < FRAME_WORDS && i != RAX :: frame[i] == old(frame)[i]
    {
      hide Pushed, SavedAt, Entering, FrameAt, Enters, ComesBack;
      ghost var f, m := frame, mem;
      var entered := Enters(pending, frame, handlers, restorer);
      kill := FinishCall(result);
      if !kill && entered {
        BackAgain(f, m, restorer, after, memory);
        frame, mem := after, memory;
        Restore();
      }
    }
  }

  /** A handler entered from frame `f` has returned to the restorer: its `ret` has left the stack pointer at the saved
      frame, and that and all above is as it was. */
  ghost predicate ComesBack(f: Frame, mem: Memory, restorer: nat, after: Frame, memory: Memory)
    requires HasRoom(f, mem)
  {
    var at := SavedAt(f[RSP]);
    && after[RSP] == at && |memory| == |mem|
    && forall i | 0 <= i < |mem| && at <= 8 * i :: memory[i] == Pushed(mem, f, restorer)[i]
  }

  /** What `sigreturn` then finds is the frame that was pushed. */
  lemma BackAgain(f: Frame, mem: Memory, restorer: nat, after: Frame, memory: Memory)
    requires HasRoom(f, mem) && ComesBack(f, mem, restorer, after, memory)
    ensures after[RSP] % 8 == 0 && after[RSP] + 160 <= 8 * |memory| && FrameAt(memory, after[RSP]) == f
  {
    PushedIs(mem, f, restorer);
    hide Pushed, FrameAt, SavedAt;
    SameFrame(Pushed(mem, f, restorer), memory, SavedAt(f[RSP]), SavedAt(f[RSP]));
  }

  // --- nesting -------------------------------------------------------------------------------

  /** A program with handlers in progress: the frames it has yet to return to, innermost last, and where each is. */
  datatype Level = Level(at: nat, frame: Frame)
  datatype System = System(frame: Frame, mem: Memory, levels: seq<Level>)

  /** The program runs on; a signal enters a handler at a timer tick, or on the way out of a call whose result is stored
      afterwards; a handler returns through `sigreturn`. */
  datatype Event =
    | Run(frame: Frame, mem: Memory)
    | Signal(number: nat, handler: nat, restorer: nat)
    | CallSignal(result: nat, number: nat, handler: nat, restorer: nat)
    | Return

  /** The innermost handler's own ground: everything from its saved frame up belongs to those it interrupted. */
  function Limit(s: System): nat { if s.levels == [] then 8 * |s.mem| else s.levels[|s.levels| - 1].at }

  ghost predicate Enabled(s: System, e: Event) {
    match e
    case Run(frame, mem) =>
      // A handler keeps its stack pointer below the frame it must return through and leaves that and all above alone.
      && |mem| == |s.mem| && (s.levels != [] ==> frame[RSP] <= Limit(s))
      && forall i | 0 <= i < |mem| && Limit(s) <= 8 * i :: mem[i] == s.mem[i]
    case Signal(_, _, _) => HasRoom(s.frame, s.mem) && InUserMode(s.frame)
    case CallSignal(_, _, _, _) => HasRoom(s.frame, s.mem) && InUserMode(s.frame)
    case Return => s.levels != [] && s.frame[RSP] == Limit(s) && s.frame[RSP] + 160 <= 8 * |s.mem|
                   && s.frame[RSP] % 8 == 0
  }

  /** The frame pushed and the handler entered. */
  ghost function Interrupted(s: System, number: nat, handler: nat, restorer: nat): System
    requires HasRoom(s.frame, s.mem)
  {
    System(Entering(s.frame, handler, number), Pushed(s.mem, s.frame, restorer),
           s.levels + [Level(SavedAt(s.frame[RSP]), s.frame)])
  }

  ghost function Next(s: System, e: Event): System
    requires Enabled(s, e)
  {
    match e
    case Run(frame, mem) => System(frame, mem, s.levels)
    case Signal(number, handler, restorer) => Interrupted(s, number, handler, restorer)
    case CallSignal(result, number, handler, restorer) =>
      var t := Interrupted(s, number, handler, restorer);
      t.(frame := t.frame[RAX := result])
    case Return => System(FrameAt(s.mem, s.frame[RSP]), s.mem, s.levels[..|s.levels| - 1])
  }

  /** Level `i` is intact: its frame is in memory, clear of the stack it interrupted and of the level outside it. */
  ghost predicate LevelOk(s: System, i: nat)
    requires i < |s.levels|
  {
    var l := s.levels[i];
    && l.at % 16 == 0 && l.at % 8 == 0 && 16 <= l.at && l.at + 160 <= l.frame[RSP] <= 8 * |s.mem|
    && FrameAt(s.mem, l.at) == l.frame
    && (i > 0 ==> l.frame[RSP] <= s.levels[i - 1].at)
  }

  ghost predicate Inv(s: System) {
    && (forall i {:trigger LevelOk(s, i)} | 0 <= i < |s.levels| :: LevelOk(s, i))
    && (s.levels != [] ==> s.frame[RSP] <= Limit(s))
  }

  lemma RunKeepsInv(s: System, frame: Frame, mem: Memory)
    requires Inv(s) && Enabled(s, Run(frame, mem))
    ensures Inv(Next(s, Run(frame, mem)))
  {
    var t := Next(s, Run(frame, mem));
    forall i | 0 <= i < |t.levels|
      ensures LevelOk(t, i)
    {
      assert LevelOk(s, i);
      Above(s, i);
      SameFrame(s.mem, mem, Limit(s), s.levels[i].at);
      hide FrameAt;
    }
  }

  lemma SameFrame(mem: Memory, mem': Memory, limit: nat, at: nat)
    requires |mem'| == |mem| && limit <= at && at % 8 == 0 && at + 160 <= 8 * |mem|
    requires forall i | 0 <= i < |mem| && limit <= 8 * i :: mem'[i] == mem[i]
    ensures FrameAt(mem', at) == FrameAt(mem, at)
  {
    hide Words;
    var w := at / 8;
    assert at == 8 * w && w + 20 <= |mem|;
    forall i | w <= i < w + 20
      ensures mem'[i] == mem[i]
    {
      assert limit <= 8 * i;
    }
    SameWords(mem, mem', w);
  }

  /** Outer levels lie above inner ones. */
  lemma {:induction false} Outside(s: System, i: nat, j: nat)
    requires Inv(s) && i < j < |s.levels|
    ensures s.levels[j].at + 160 <= s.levels[j].frame[RSP] <= s.levels[i].at
    decreases j - i
  {
    assert LevelOk(s, j);
    if i < j - 1 {
      Outside(s, i, j - 1);
      assert LevelOk(s, j - 1);
    }
  }

  lemma Above(s: System, i: nat)
    requires Inv(s) && i < |s.levels|
    ensures Limit(s) <= s.levels[i].at
  {
    if i < |s.levels| - 1 { Outside(s, i, |s.levels| - 1); }
  }

  lemma PushedBelow(mem: Memory, f: Frame, restorer: nat)
    requires HasRoom(f, mem)
    ensures forall i | 0 <= i < |mem| && SavedAt(f[RSP]) + 160 <= 8 * i :: Pushed(mem, f, restorer)[i] == mem[i]
  {
    PushedIs(mem, f, restorer);
    hide Pushed, FrameAt, SavedAt;
  }

  lemma EnteringIs(f: Frame, handler: nat, number: nat)
    requires f[RSP] >= 176
    ensures var e := Entering(f, handler, number);
            e[RSP] == SavedAt(f[RSP]) - 8 && e[RIP] == handler && e[RDI] == number
  {
  }

  lemma SignalKeepsInv(s: System, number: nat, handler: nat, restorer: nat)
    requires Inv(s) && Enabled(s, Signal(number, handler, restorer))
    ensures Inv(Next(s, Signal(number, handler, restorer)))
  {
    var t, n := Next(s, Signal(number, handler, restorer)), |s.levels|;
    PushedIs(s.mem, s.frame, restorer);
    PushedBelow(s.mem, s.frame, restorer);
    hide Pushed, FrameAt, SavedAt, Entering;
    assert t.frame[RSP] == SavedAt(s.frame[RSP]) - 8 by { EnteringIs(s.frame, handler, number); }
    forall i | 0 <= i < |t.levels|
      ensures LevelOk(t, i)
    {
      if i < n {
        assert LevelOk(s, i);
        Above(s, i);
        SameFrame(s.mem, t.mem, SavedAt(s.frame[RSP]) + 160, s.levels[i].at);
      }
    }
  }

  lemma ResultKeepsInv(s: System, result: nat)
    requires Inv(s)
    ensures Inv(s.(frame := s.frame[RAX := result]))
  {
    var t := s.(frame := s.frame[RAX := result]);
    forall i | 0 <= i < |t.levels|
      ensures LevelOk(t, i)
    {
      assert LevelOk(s, i);
    }
  }

  lemma ReturnKeepsInv(s: System)
    requires Inv(s) && Enabled(s, Return)
    ensures Inv(Next(s, Return)) && Next(s, Return).frame == s.levels[|s.levels| - 1].frame
  {
    var t, n := Next(s, Return), |s.levels| - 1;
    assert LevelOk(s, n);
    forall i | 0 <= i < |t.levels|
      ensures LevelOk(t, i)
    {
      assert LevelOk(s, i);
    }
  }

  lemma StepKeepsInv(s: System, e: Event)
    requires Inv(s) && Enabled(s, e)
    ensures Inv(Next(s, e))
  {
    match e
    case Run(frame, mem) => RunKeepsInv(s, frame, mem);
    case Signal(number, handler, restorer) => SignalKeepsInv(s, number, handler, restorer);
    case CallSignal(result, number, handler, restorer) =>
      SignalKeepsInv(s, number, handler, restorer);
      ResultKeepsInv(Interrupted(s, number, handler, restorer), result);
    case Return => ReturnKeepsInv(s);
  }

  // --- every run ----------------------------------------------------------------------------------

  ghost predicate StepsTo(s: System, t: System) { exists e :: Enabled(s, e) && t == Next(s, e) }

  ghost predicate IsRun(run: seq<System>) {
    |run| > 0 && run[0].levels == [] && forall n | 0 <= n < |run| - 1 :: StepsTo(run[n], run[n + 1])
  }

  lemma {:induction false} EveryRunIsSafe(run: seq<System>, n: nat)
    requires IsRun(run) && n < |run|
    ensures Inv(run[n])
  {
    if n > 0 {
      EveryRunIsSafe(run, n - 1);
      assert StepsTo(run[n - 1], run[n]);
      var e :| Enabled(run[n - 1], e) && run[n] == Next(run[n - 1], e);
      StepKeepsInv(run[n - 1], e);
    }
  }

  /** In every run, no saved frame overlaps another, nor the stack of the code it interrupted. */
  lemma FramesDoNotOverlap(run: seq<System>, n: nat, i: nat, j: nat)
    requires IsRun(run) && n < |run| && i < j < |run[n].levels|
    ensures run[n].levels[j].at + 160 <= run[n].levels[i].at
    ensures run[n].levels[i].at + 160 <= run[n].levels[i].frame[RSP]
  {
    EveryRunIsSafe(run, n);
    Outside(run[n], i, j);
    assert LevelOk(run[n], i);
  }

  /** Every handler starts with its stack pointer eight past a multiple of sixteen, as after a call, and finds the
      restorer's address there. */
  lemma HandlerIsCalled(s: System, number: nat, handler: nat, restorer: nat)
    requires Enabled(s, Signal(number, handler, restorer))
    ensures var t := Next(s, Signal(number, handler, restorer));
            && t.frame[RSP] % 16 == 8 && t.frame[RIP] == handler && t.frame[RDI] == number
            && t.frame[RSP] / 8 < |t.mem| && t.mem[t.frame[RSP] / 8] == restorer
            && t.frame[RSP] + 8 == Limit(t)
  {
    PushedIs(s.mem, s.frame, restorer);
    EnteringIs(s.frame, handler, number);
    hide Pushed, FrameAt, SavedAt, Entering;
  }

  /** Between a delivery (`m`) and the return from that very handler (`n`), at any depth and whatever other signals
      come and go meanwhile, ... */
  ghost predicate Within(run: seq<System>, m: nat, n: nat, depth: nat) {
    && m < n < |run| && |run[m].levels| == depth && |run[n].levels| == depth
    && forall k | m < k < n :: |run[k].levels| > depth
  }

  lemma {:induction false} LevelStays(run: seq<System>, m: nat, n: nat, depth: nat, k: nat)
    requires IsRun(run) && Within(run, m, n, depth) && m + 1 < n && m < k < n
    ensures |run[k].levels| > depth && run[k].levels[depth] == run[m + 1].levels[depth]
  {
    if m + 1 < k {
      LevelStays(run, m, n, depth, k - 1);
      assert StepsTo(run[k - 1], run[k]);
    }
  }

  /** Only a delivery goes a level deeper. */
  lemma DeliverySaves(s: System, t: System)
    requires StepsTo(s, t) && |t.levels| > |s.levels|
    ensures |t.levels| == |s.levels| + 1 && t.levels[|s.levels|].frame == s.frame
  {
    var e :| Enabled(s, e) && t == Next(s, e);
    hide Pushed, Entering, SavedAt, FrameAt, Enabled;
  }

  /** Only a return comes a level up, to the frame saved there. */
  lemma ReturnRestores(s: System, t: System)
    requires Inv(s) && StepsTo(s, t) && |t.levels| < |s.levels|
    ensures |t.levels| == |s.levels| - 1 && t.frame == s.levels[|t.levels|].frame
  {
    var e :| Enabled(s, e) && t == Next(s, e);
    assert e.Return?;
    ReturnKeepsInv(s);
  }

  /** ... the return restores all twenty words of the interrupted frame. */
  lemma ReturnsUndoDeliveries(run: seq<System>, m: nat, n: nat, depth: nat)
    requires IsRun(run) && Within(run, m, n, depth) && m + 1 < n
    ensures run[n].frame == run[m].frame
  {
    LevelStays(run, m, n, depth, n - 1);
    EveryRunIsSafe(run, n - 1);
    assert StepsTo(run[n - 1], run[n]) && StepsTo(run[m], run[m + 1]);
    assert |run[m + 1].levels| > depth;
    hide StepsTo, Inv, IsRun;
    DeliverySaves(run[m], run[m + 1]);
    ReturnRestores(run[n - 1], run[n]);
  }

  // --- delivery on the way out of a system call --------------------------------------------------------

  /** In every run, at any depth: a call interrupted on its way out gives the program back what RAX held on the way in,
      whatever its result. */
  lemma ResultIsLost(run: seq<System>, m: nat, n: nat, depth: nat, result: nat, number: nat, handler: nat,
                     restorer: nat)
    requires IsRun(run) && Within(run, m, n, depth) && m + 1 < n
    requires Enabled(run[m], CallSignal(result, number, handler, restorer))
    requires run[m + 1] == Next(run[m], CallSignal(result, number, handler, restorer))
    ensures run[m + 1].frame[RAX] == result && run[n].frame[RAX] == run[m].frame[RAX]
    ensures run[n].frame[RAX] == result <==> run[m].frame[RAX] == result
  {
    ReturnsUndoDeliveries(run, m, n, depth);
  }

  const SYS_READ: nat := 7
  const SIGINT: nat := 2

  /** A `read` that has taken five bytes, with SIGINT pending on its way out, returns 7 to its caller. */
  lemma ReadResultIsLost() returns (run: seq<System>)
    ensures IsRun(run) && |run| == 4 && run[0].frame[RAX] == SYS_READ
    ensures Enabled(run[0], CallSignal(5, SIGINT, 0x1000, 0x2000))
            && run[1] == Next(run[0], CallSignal(5, SIGINT, 0x1000, 0x2000))
    ensures run[3].levels == [] && run[3].frame[RAX] == SYS_READ != 5
  {
    var f: Frame := seq(FRAME_WORDS, i => if i == RAX then SYS_READ else if i == CS then 3 else if i == RSP then 320
                        else 0);
    var s0 := System(f, seq(64, _ => 0), []);
    var e := CallSignal(5, SIGINT, 0x1000, 0x2000);
    var s1 := Next(s0, e);
    PushedIs(s0.mem, f, 0x2000);
    EnteringIs(f, 0x1000, SIGINT);
    hide Pushed, FrameAt, Entering;
    var ret := Run(s1.frame[RSP := SavedAt(320)], s1.mem);
    var s2 := Next(s1, ret);
    var s3 := Next(s2, Return);
    run := [s0, s1, s2, s3];
    assert StepsTo(s0, s1) && StepsTo(s1, s2) && StepsTo(s2, s3);
  }
}
