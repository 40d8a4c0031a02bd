/** Descriptor tables and the end counts of pipes, with tasks preempted between any two steps. */
module Descriptors {

  const MAX_FILES: nat := 8

  datatype Descriptor = Free | Console | PipeRead(pipe: nat) | PipeWrite(pipe: nat)

  datatype Pipe = Pipe(used: bool, readers: nat, writers: nat)

  predicate IsEnd(d: Descriptor) { d.PipeRead? || d.PipeWrite? }

  /** What a task does once it has told a pipe about a closed end. */
  datatype After = Done | ThenDrop(d: Descriptor) | ThenAdd(source: Descriptor, from: nat, to: nat) | ThenExit(fd: nat)

  /** Where a task is in the kernel's descriptor code. */
  datatype Place =
    | Away
    | Dropping(d: Descriptor, after: After)              // out of the table, the pipe not told yet
    | Adding(source: Descriptor, from: nat, to: nat)     // dup2: the target closed, the pipe not told yet
    | Storing(source: Descriptor, to: nat)               // dup2: the pipe told, the table not written yet
    | Opened(pipe: nat)                                  // pipe: made, neither end in the table yet
    | HalfOpen(pipe: nat, fd: nat)                       // pipe: the read end is in the table at `fd`
    | Exiting(fd: nat)                                   // exit: descriptors below `fd` are closed
    | Finished
    | Vacant                                             // no task in this slot

  datatype Task = Task(place: Place, files: seq<Descriptor>)

  /** `leaked` are ends whose holder was killed: counted by their pipe, but in nobody's hands. */
  datatype System = System(tasks: seq<Task>, pipes: seq<Pipe>, leaked: Descriptor -> nat)

  datatype Event =
    | Close(fd: nat) | Dup(from: nat, to: nat) | MakePipe | Fork(child: nat) | Exit
    | Spawn                 // a new task in a vacant slot
    | Go                    // the next step of whatever the task is doing
    | Reap                  // a finished task's slot is cleared
    | Kill                  // a signal finishes the task without closing anything

  function NoFiles(): seq<Descriptor> { seq(MAX_FILES, _ => Free) }

  /** The three standard descriptors. */
  function Standard(): seq<Descriptor> { seq(MAX_FILES, i => if i < 3 then Console else Free) }

  predicate Shaped(s: System) { forall i | 0 <= i < |s.tasks| :: |s.tasks[i].files| == MAX_FILES }

  // --- single steps -----------------------------------------------------------------------

  function Set(s: System, i: nat, t: Task): System
    requires i < |s.tasks|
  {
    s.(tasks := s.tasks[i := t])
  }

  function Less(n: nat): nat { if n == 0 then 0 else n - 1 }

  /** A pipe told that an end is gone. */
  function Dropped(pipes: seq<Pipe>, d: Descriptor): seq<Pipe> {
    if !IsEnd(d) || d.pipe >= |pipes| then pipes else
    var p := pipes[d.pipe];
    var q := if d.PipeRead? then p.(readers := Less(p.readers)) else p.(writers := Less(p.writers));
    pipes[d.pipe := if q.readers == 0 && q.writers == 0 then q.(used := false) else q]
  }

  /** A pipe told that there is one more end. */
  function Added(pipes: seq<Pipe>, d: Descriptor): seq<Pipe> {
    if !IsEnd(d) || d.pipe >= |pipes| then pipes else
    var p := pipes[d.pipe];
    pipes[d.pipe := if d.PipeRead? then p.(readers := p.readers + 1) else p.(writers := p.writers + 1)]
  }

  function AddedAll(pipes: seq<Pipe>, files: seq<Descriptor>): seq<Pipe> {
    if files == [] then pipes else Added(AddedAll(pipes, files[..|files| - 1]), files[|files| - 1])
  }

  function FirstUnused(pipes: seq<Pipe>, k: nat): (r: nat)
    requires k <= |pipes|
    ensures k <= r <= |pipes| && (r < |pipes| ==> !pipes[r].used) && forall j | k <= j < r :: pipes[j].used
    decreases |pipes| - k
  {
    if k == |pipes| || !pipes[k].used then k else FirstUnused(pipes, k + 1)
  }

  function LowestFree(files: seq<Descriptor>, k: nat): (r: nat)
    requires k <= |files|
    ensures k <= r <= |files| && (r < |files| ==> files[r] == Free) && forall j | k <= j < r :: files[j] != Free
    decreases |files| - k
  {
    if k == |files| || files[k] == Free then k else LowestFree(files, k + 1)
  }

  function Resume(after: After): Place {
    match after
    case Done => Away
    case ThenDrop(d) => Dropping(d, Done)
    case ThenAdd(source, from, to) => Adding(source, from, to)
    case ThenExit(fd) => Exiting(fd)
  }

  /** Take `fd` out of the table and, if it was an end of a pipe, go and tell the pipe. */
  function TakeOut(t: Task, fd: nat, after: After): Task
    requires fd < |t.files|
  {
    Task(if IsEnd(t.files[fd]) then Dropping(t.files[fd], after) else Resume(after), t.files[fd := Free])
  }

  predicate Enabled(s: System, i: nat, e: Event)
    requires Shaped(s)
  {
    && i < |s.tasks|
    && match e
       case Go => s.tasks[i].place !in {Away, Finished, Vacant}
       case Spawn => s.tasks[i].place == Vacant
       case Reap => s.tasks[i].place == Finished
       case Kill => s.tasks[i].place !in {Finished, Vacant}
       case Fork(child) => s.tasks[i].place == Away && child < |s.tasks| && s.tasks[child].place == Vacant
       case _ => s.tasks[i].place == Away
  }

  function GoStep(s: System, i: nat): System
    requires Shaped(s) && i < |s.tasks|
  {
    var t := s.tasks[i];
    match t.place
    case Dropping(d, after) => Set(s, i, t.(place := Resume(after))).(pipes := Dropped(s.pipes, d))
    case Adding(source, _, to) => Set(s, i, t.(place := Storing(source, to))).(pipes := Added(s.pipes, source))
    case Storing(source, to) => Set(s, i, Task(Away, if to < |t.files| then t.files[to := source] else t.files))
    case Opened(p) =>
      var fd := LowestFree(t.files, 0);
      if fd == |t.files| then Set(s, i, t.(place := Dropping(PipeRead(p), ThenDrop(PipeWrite(p)))))
      else Set(s, i, Task(HalfOpen(p, fd), t.files[fd := PipeRead(p)]))
    case HalfOpen(p, read) =>
      var fd := LowestFree(t.files, 0);
      if fd < |t.files| then Set(s, i, Task(Away, t.files[fd := PipeWrite(p)]))
      else if read < |t.files| then Set(s, i, TakeOut(t, read, ThenDrop(PipeWrite(p))))
      else s
    case Exiting(fd) => Set(s, i, if fd < |t.files| then TakeOut(t, fd, ThenExit(fd + 1)) else t.(place := Finished))
    case Away => s
    case Finished => s
    case Vacant => s
  }

  function Next(s: System, i: nat, e: Event): System
    requires Shaped(s) && Enabled(s, i, e)
  {
    var t := s.tasks[i];
    match e
    case Close(fd) => if fd < |t.files| then Set(s, i, TakeOut(t, fd, Done)) else s
    case Dup(from, to) =>
      if from >= |t.files| || to >= |t.files| || t.files[from] == Free || from == to then s
      else Set(s, i, TakeOut(t, to, ThenAdd(t.files[from], from, to)))
    case MakePipe =>
      var p := FirstUnused(s.pipes, 0);
      if p == |s.pipes| then s else Set(s, i, t.(place := Opened(p))).(pipes := s.pipes[p := Pipe(true, 1, 1)])
    case Fork(child) => Set(s, child, Task(Away, t.files)).(pipes := AddedAll(s.pipes, t.files))
    case Exit => Set(s, i, t.(place := Exiting(0)))
    case Spawn => Set(s, i, Task(Away, Standard()))
    case Go => GoStep(s, i)
    case Reap => Set(s, i, Task(Vacant, NoFiles())).(leaked := d => s.leaked(d) + Count(t.files, d))
    case Kill => Set(s, i, t.(place := Finished)).(leaked := d => s.leaked(d) + InHand(t.place, d))
  }

  // --- references --------------------------------------------------------------------------

  function One(b: bool): nat { if b then 1 else 0 }

  function Count(files: seq<Descriptor>, d: Descriptor): nat {
    if files == [] then 0 else Count(files[..|files| - 1], d) + One(files[|files| - 1] == d)
  }

  /** How often end `d` is counted by its pipe but in the middle of being moved, not in the table. */
  function InHand(p: Place, d: Descriptor): nat {
    match p
    case Dropping(x, after) => One(x == d) + One(after.ThenDrop? && after.d == d)
    case Storing(source, _) => One(source == d)
    case Opened(pipe) => One(d == PipeRead(pipe)) + One(d == PipeWrite(pipe))
    case HalfOpen(pipe, _) => One(d == PipeWrite(pipe))
    case _ => 0
  }

  function Held(t: Task, d: Descriptor): nat { Count(t.files, d) + InHand(t.place, d) }

  /** How often all the tasks together hold end `d`. */
  function AllHeld(tasks: seq<Task>, d: Descriptor): nat {
    if tasks == [] then 0 else AllHeld(tasks[..|tasks| - 1], d) + Held(tasks[|tasks| - 1], d)
  }

  function References(s: System, d: Descriptor): nat { AllHeld(s.tasks, d) + s.leaked(d) }

  lemma {:induction false} CountSet(files: seq<Descriptor>, i: nat, x: Descriptor, d: Descriptor)
    requires i < |files|
    ensures Count(files[i := x], d) + One(files[i] == d) == Count(files, d) + One(x == d)
  {
    var n := |files| - 1;
    if i < n {
      CountSet(files[..n], i, x, d);
      assert files[i := x][..n] == files[..n][i := x];
    } else {
      assert files[i := x][..n] == files[..n];
    }
  }

  lemma {:induction false} CountAt(files: seq<Descriptor>, i: nat)
    requires i < |files|
    ensures Count(files, files[i]) > 0
  {
    if i < |files| - 1 { CountAt(files[..|files| - 1], i); }
  }

  lemma {:induction false} CountNone(files: seq<Descriptor>, d: Descriptor)
    requires forall i | 0 <= i < |files| :: files[i] != d
    ensures Count(files, d) == 0
  {
    if files != [] { CountNone(files[..|files| - 1], d); }
  }

  lemma {:induction false} HeldChanges(tasks: seq<Task>, i: nat, t: Task, d: Descriptor)
    requires i < |tasks|
    ensures AllHeld(tasks[i := t], d) + Held(tasks[i], d) == AllHeld(tasks, d) + Held(t, d)
  {
    var n := |tasks| - 1;
    if i < n {
      HeldChanges(tasks[..n], i, t, d);
      assert tasks[i := t][..n] == tasks[..n][i := t];
    } else {
      assert tasks[i := t][..n] == tasks[..n];
    }
  }

  lemma {:induction false} HeldIsThere(tasks: seq<Task>, i: nat, d: Descriptor)
    requires i < |tasks|
    ensures Held(tasks[i], d) <= AllHeld(tasks, d)
  {
    if i < |tasks| - 1 { HeldIsThere(tasks[..|tasks| - 1], i, d); }
  }

  // --- the invariant --------------------------------------------------------------------------

  /** The counts of pipe `p` are its ends, wherever they are, and the slot is in use while it has any. */
  ghost predicate PipeOk(pipes: seq<Pipe>, refs: Descriptor -> nat, p: nat)
    requires p < |pipes|
  {
    && pipes[p].readers == refs(PipeRead(p)) && pipes[p].writers == refs(PipeWrite(p))
    && (pipes[p].used <==> pipes[p].readers > 0 || pipes[p].writers > 0)
  }

  ghost predicate PipesOk(pipes: seq<Pipe>, refs: Descriptor -> nat) {
    && (forall p {:trigger PipeOk(pipes, refs, p)} | 0 <= p < |pipes| :: PipeOk(pipes, refs, p))
    && (forall d | IsEnd(d) && refs(d) > 0 :: d.pipe < |pipes|)
  }

  ghost predicate PlaceOk(t: Task) {
    && |t.files| == MAX_FILES
    && match t.place
       case Dropping(d, after) => IsEnd(d) && (after.ThenDrop? ==> IsEnd(after.d)) && AfterOk(t, after)
       case Adding(source, from, to) => AddOk(t, source, from, to)
       case Storing(source, to) => to < MAX_FILES && t.files[to] == Free && source != Free
       case HalfOpen(pipe, fd) => fd < MAX_FILES && t.files[fd] == PipeRead(pipe)
       case Vacant => t.files == NoFiles()
       case _ => true
  }

  /** The descriptor being duplicated is still there, and the slot for the copy is free. */
  ghost predicate AddOk(t: Task, source: Descriptor, from: nat, to: nat)
    requires |t.files| == MAX_FILES
  {
    from < MAX_FILES && to < MAX_FILES && from != to && t.files[from] == source != Free && t.files[to] == Free
  }

  ghost predicate AfterOk(t: Task, after: After)
    requires |t.files| == MAX_FILES
  {
    after.ThenAdd? ==> AddOk(t, after.source, after.from, after.to)
  }

  ghost function Refs(s: System): Descriptor -> nat { d => References(s, d) }

  ghost predicate TasksOk(tasks: seq<Task>) { forall i | 0 <= i < |tasks| :: PlaceOk(tasks[i]) }

  ghost predicate Inv(s: System) { TasksOk(s.tasks) && PipesOk(s.pipes, Refs(s)) }

  // --- counts follow references ------------------------------------------------------------------

  lemma SameRefs(pipes: seq<Pipe>, refs: Descriptor -> nat, refs': Descriptor -> nat)
    requires PipesOk(pipes, refs) && forall d | IsEnd(d) :: refs'(d) == refs(d)
    ensures PipesOk(pipes, refs')
  {
    forall p | 0 <= p < |pipes|
      ensures PipeOk(pipes, refs', p)
    {
      assert PipeOk(pipes, refs, p);
    }
  }

  /** Telling a pipe that an end is gone never takes a count below zero: the end was counted. */
  lemma DropFollows(pipes: seq<Pipe>, refs: Descriptor -> nat, refs': Descriptor -> nat, x: Descriptor)
    requires PipesOk(pipes, refs) && IsEnd(x) && refs(x) > 0
    requires forall d | IsEnd(d) :: refs'(d) == refs(d) - One(d == x)
    ensures PipesOk(Dropped(pipes, x), refs')
    ensures x.pipe < |pipes| && (if x.PipeRead? then pipes[x.pipe].readers > 0 else pipes[x.pipe].writers > 0)
  {
    var after := Dropped(pipes, x);
    assert PipeOk(pipes, refs, x.pipe);
    forall p | 0 <= p < |after|
      ensures PipeOk(after, refs', p)
    {
      assert PipeOk(pipes, refs, p);
    }
  }

  lemma AddFollows(pipes: seq<Pipe>, refs: Descriptor -> nat, refs': Descriptor -> nat, x: Descriptor)
    requires PipesOk(pipes, refs) && (IsEnd(x) ==> refs(x) > 0)
    requires forall d | IsEnd(d) :: refs'(d) == refs(d) + One(d == x)
    ensures PipesOk(Added(pipes, x), refs')
  {
    var after := Added(pipes, x);
    forall p | 0 <= p < |after|
      ensures PipeOk(after, refs', p)
    {
      assert PipeOk(pipes, refs, p);
    }
  }

  lemma {:induction false} AddAllFollows(pipes: seq<Pipe>, refs: Descriptor -> nat, refs': Descriptor -> nat,
                                         files: seq<Descriptor>)
    requires PipesOk(pipes, refs) && forall i | 0 <= i < |files| && IsEnd(files[i]) :: refs(files[i]) > 0
    requires forall d | IsEnd(d) :: refs'(d) == refs(d) + Count(files, d)
    ensures PipesOk(AddedAll(pipes, files), refs')
  {
    if files == [] {
      SameRefs(pipes, refs, refs');
    } else {
      var n := |files| - 1;
      var mid := d => refs(d) + Count(files[..n], d);
      AddAllFollows(pipes, refs, mid, files[..n]);
      AddFollows(AddedAll(pipes, files[..n]), mid, refs', files[n]);
    }
  }

  /** A slot that is not in use has no end anywhere. */
  lemma UnusedIsUnnamed(pipes: seq<Pipe>, refs: Descriptor -> nat, p: nat)
    requires PipesOk(pipes, refs) && p < |pipes| && !pipes[p].used
    ensures refs(PipeRead(p)) == 0 && refs(PipeWrite(p)) == 0
  {
    assert PipeOk(pipes, refs, p);
  }

  lemma MakeFollows(pipes: seq<Pipe>, refs: Descriptor -> nat, refs': Descriptor -> nat, p: nat)
    requires PipesOk(pipes, refs) && p < |pipes| && !pipes[p].used
    requires forall d | IsEnd(d) :: refs'(d) == refs(d) + One(d.pipe == p)
    ensures PipesOk(pipes[p := Pipe(true, 1, 1)], refs')
  {
    UnusedIsUnnamed(pipes, refs, p);
    var after := pipes[p := Pipe(true, 1, 1)];
    forall q | 0 <= q < |after|
      ensures PipeOk(after, refs', q)
    {
      assert PipeOk(pipes, refs, q);
    }
  }

  // --- every step keeps the invariant -----------------------------------------------------------------

  /** What one task's change does to the references. */
  lemma RefsChange(s: System, i: nat, t: Task, d: Descriptor)
    requires i < |s.tasks|
    ensures References(Set(s, i, t), d) + Held(s.tasks[i], d) == References(s, d) + Held(t, d)
  {
    HeldChanges(s.tasks, i, t, d);
  }

  /** A task that holds the same ends, elsewhere. */
  lemma MoveKeepsInv(s: System, i: nat, t: Task)
    requires Inv(s) && i < |s.tasks| && PlaceOk(t) && forall d | IsEnd(d) :: Held(t, d) == Held(s.tasks[i], d)
    ensures Inv(Set(s, i, t))
  {
    forall d | IsEnd(d)
      ensures References(Set(s, i, t), d) == References(s, d)
    {
      RefsChange(s, i, t, d);
    }
    SameRefs(s.pipes, Refs(s), Refs(Set(s, i, t)));
  }

  lemma TakeOutHolds(t: Task, fd: nat, after: After, d: Descriptor)
    requires fd < |t.files| && IsEnd(d) && (IsEnd(t.files[fd]) || !after.ThenDrop?)
    ensures Held(TakeOut(t, fd, after), d) == Count(t.files, d) + One(after.ThenDrop? && after.d == d)
  {
    CountSet(t.files, fd, Free, d);
    hide Count;
  }

  lemma TakeOutKeepsInv(s: System, i: nat, fd: nat, after: After)
    requires Inv(s) && i < |s.tasks| && fd < MAX_FILES && PlaceOk(TakeOut(s.tasks[i], fd, after))
    requires IsEnd(s.tasks[i].files[fd]) || !after.ThenDrop?
    requires forall d | IsEnd(d) :: InHand(s.tasks[i].place, d) == One(after.ThenDrop? && after.d == d)
    ensures Inv(Set(s, i, TakeOut(s.tasks[i], fd, after)))
  {
    forall d | IsEnd(d)
      ensures Held(TakeOut(s.tasks[i], fd, after), d) == Held(s.tasks[i], d)
    {
      TakeOutHolds(s.tasks[i], fd, after, d);
    }
    MoveKeepsInv(s, i, TakeOut(s.tasks[i], fd, after));
  }

  lemma DropKeepsInv(s: System, i: nat)
    requires Inv(s) && i < |s.tasks| && s.tasks[i].place.Dropping?
    ensures Inv(GoStep(s, i))
    ensures var x := s.tasks[i].place.d;
            x.pipe < |s.pipes| && (if x.PipeRead? then s.pipes[x.pipe].readers > 0 else s.pipes[x.pipe].writers > 0)
  {
    var t := s.tasks[i];
    var x, t' := t.place.d, t.(place := Resume(t.place.after));
    HeldIsThere(s.tasks, i, x);
    forall d | IsEnd(d)
      ensures References(Set(s, i, t'), d) == References(s, d) - One(d == x)
    {
      RefsChange(s, i, t', d);
    }
    assert PlaceOk(t');
    DropFollows(s.pipes, Refs(s), Refs(Set(s, i, t')), x);
    SameRefs(Dropped(s.pipes, x), Refs(Set(s, i, t')), Refs(GoStep(s, i)));
  }

  lemma AddKeepsInv(s: System, i: nat)
    requires Inv(s) && i < |s.tasks| && s.tasks[i].place.Adding?
    ensures Inv(GoStep(s, i))
  {
    var t := s.tasks[i];
    var x, t' := t.place.source, t.(place := Storing(t.place.source, t.place.to));
    HeldIsThere(s.tasks, i, x);
    CountAt(t.files, t.place.from);
    forall d | IsEnd(d)
      ensures References(Set(s, i, t'), d) == References(s, d) + One(d == x)
    {
      RefsChange(s, i, t', d);
    }
    AddFollows(s.pipes, Refs(s), Refs(Set(s, i, t')), x);
    SameRefs(Added(s.pipes, x), Refs(Set(s, i, t')), Refs(GoStep(s, i)));
  }

  lemma StoreKeepsInv(s: System, i: nat)
    requires Inv(s) && i < |s.tasks| && s.tasks[i].place.Storing?
    ensures Inv(GoStep(s, i))
  {
    var t := s.tasks[i];
    var t' := Task(Away, t.files[t.place.to := t.place.source]);
    forall d | IsEnd(d)
      ensures Held(t', d) == Held(t, d)
    {
      CountSet(t.files, t.place.to, t.place.source, d);
    }
    MoveKeepsInv(s, i, t');
  }

  lemma OpenKeepsInv(s: System, i: nat)
    requires Inv(s) && i < |s.tasks| && (s.tasks[i].place.Opened? || s.tasks[i].place.HalfOpen?)
    ensures Inv(GoStep(s, i))
  {
    var t := s.tasks[i];
    var p, fd := t.place.pipe, LowestFree(t.files, 0);
    if fd < |t.files| {
      var x := if t.place.Opened? then PipeRead(p) else PipeWrite(p);
      var t' := Task(if t.place.Opened? then HalfOpen(p, fd) else Away, t.files[fd := x]);
      forall d | IsEnd(d)
        ensures Held(t', d) == Held(t, d)
      {
        CountSet(t.files, fd, x, d);
      }
      MoveKeepsInv(s, i, t');
    } else if t.place.Opened? {
      MoveKeepsInv(s, i, t.(place := Dropping(PipeRead(p), ThenDrop(PipeWrite(p)))));
    } else {
      TakeOutKeepsInv(s, i, t.place.fd, ThenDrop(PipeWrite(p)));
    }
  }

  lemma ExitKeepsInv(s: System, i: nat)
    requires Inv(s) && i < |s.tasks| && s.tasks[i].place.Exiting?
    ensures Inv(GoStep(s, i))
  {
    var t := s.tasks[i];
    if t.place.fd < MAX_FILES {
      TakeOutKeepsInv(s, i, t.place.fd, ThenExit(t.place.fd + 1));
    } else {
      MoveKeepsInv(s, i, t.(place := Finished));
    }
  }

  lemma MakeKeepsInv(s: System, i: nat)
    requires Inv(s) && Shaped(s) && Enabled(s, i, MakePipe)
    ensures Inv(Next(s, i, MakePipe))
  {
    var p := FirstUnused(s.pipes, 0);
    if p < |s.pipes| {
      var t' := s.tasks[i].(place := Opened(p));
      forall d | IsEnd(d)
        ensures References(Set(s, i, t'), d) == References(s, d) + One(d.pipe == p)
      {
        RefsChange(s, i, t', d);
      }
      MakeFollows(s.pipes, Refs(s), Refs(Set(s, i, t')), p);
      SameRefs(s.pipes[p := Pipe(true, 1, 1)], Refs(Set(s, i, t')), Refs(Next(s, i, MakePipe)));
    }
  }

  lemma ForkKeepsInv(s: System, i: nat, child: nat)
    requires Inv(s) && Shaped(s) && Enabled(s, i, Fork(child))
    ensures Inv(Next(s, i, Fork(child)))
  {
    var t := s.tasks[i];
    var t' := Task(Away, t.files);
    forall d | IsEnd(d)
      ensures References(Set(s, child, t'), d) == References(s, d) + Count(t.files, d)
    {
      RefsChange(s, child, t', d);
      CountNone(NoFiles(), d);
    }
    forall k | 0 <= k < |t.files| && IsEnd(t.files[k])
      ensures References(s, t.files[k]) > 0
    {
      CountAt(t.files, k);
      HeldIsThere(s.tasks, i, t.files[k]);
    }
    AddAllFollows(s.pipes, Refs(s), Refs(Set(s, child, t')), t.files);
    SameRefs(AddedAll(s.pipes, t.files), Refs(Set(s, child, t')), Refs(Next(s, i, Fork(child))));
  }

  lemma LeakKeepsInv(s: System, i: nat, e: Event)
    requires Inv(s) && Shaped(s) && Enabled(s, i, e) && (e.Reap? || e.Kill?)
    ensures Inv(Next(s, i, e))
  {
    var s' := Next(s, i, e);
    forall d | IsEnd(d)
      ensures References(s', d) == References(s, d)
    {
      RefsChange(s, i, s'.tasks[i], d);
      CountNone(NoFiles(), d);
    }
    SameRefs(s.pipes, Refs(s), Refs(s'));
  }

  lemma SpawnKeepsInv(s: System, i: nat)
    requires Inv(s) && i < |s.tasks| && s.tasks[i].place == Vacant
    ensures Inv(Set(s, i, Task(Away, Standard())))
  {
    forall d | IsEnd(d)
      ensures Held(Task(Away, Standard()), d) == Held(s.tasks[i], d)
    {
      CountNone(Standard(), d);
      CountNone(NoFiles(), d);
    }
    MoveKeepsInv(s, i, Task(Away, Standard()));
  }

  lemma GoKeepsInv(s: System, i: nat)
    requires Inv(s) && Shaped(s) && Enabled(s, i, Go)
    ensures Inv(GoStep(s, i))
  {
    match s.tasks[i].place
    case Dropping(_, _) => DropKeepsInv(s, i);
    case Adding(_, _, _) => AddKeepsInv(s, i);
    case Storing(_, _) => StoreKeepsInv(s, i);
    case Opened(_) => OpenKeepsInv(s, i);
    case HalfOpen(_, _) => OpenKeepsInv(s, i);
    case Exiting(_) => ExitKeepsInv(s, i);
  }

  lemma StepKeepsInv(s: System, i: nat, e: Event)
    requires Inv(s) && Shaped(s) && Enabled(s, i, e)
    ensures Inv(Next(s, i, e)) && Shaped(Next(s, i, e))
  {
    match e
    case Close(fd) => if fd < MAX_FILES { TakeOutKeepsInv(s, i, fd, Done); }
    case Dup(from, to) =>
      var t := s.tasks[i];
      if from < MAX_FILES && to < MAX_FILES && t.files[from] != Free && from != to {
        TakeOutKeepsInv(s, i, to, ThenAdd(t.files[from], from, to));
      }
    case MakePipe => MakeKeepsInv(s, i);
    case Fork(child) => ForkKeepsInv(s, i, child);
    case Exit => MoveKeepsInv(s, i, s.tasks[i].(place := Exiting(0)));
    case Spawn => SpawnKeepsInv(s, i);
    case Go => GoKeepsInv(s, i);
    case Reap => LeakKeepsInv(s, i, e);
    case Kill => LeakKeepsInv(s, i, e);
  }

  // --- every run ------------------------------------------------------------------------------------------

  /** No pipes, and task tables with nothing but the console in them. */
  predicate Initial(s: System) {
    && Shaped(s)
    && (forall i | 0 <= i < |s.tasks| :: s.tasks[i] == Task(Vacant, NoFiles()) || s.tasks[i].place == Away)
    && (forall i, fd | 0 <= i < |s.tasks| && 0 <= fd < |s.tasks[i].files| :: !IsEnd(s.tasks[i].files[fd]))
    && (forall p | 0 <= p < |s.pipes| :: s.pipes[p] == Pipe(false, 0, 0))
  }

  ghost predicate StepsTo(s: System, kills: bool, t: System) {
    Shaped(s) && exists i, e :: Enabled(s, i, e) && (e.Kill? ==> kills) && t == Next(s, i, e)
  }

  /** A run; with `kills` false, one in which no signal finishes a task in the scheduler. */
  ghost predicate IsRun(run: seq<System>, kills: bool) {
    && |run| > 0 && Initial(run[0]) && (forall d | IsEnd(d) :: run[0].leaked(d) == 0)
    && forall n | 0 <= n < |run| - 1 :: StepsTo(run[n], kills, run[n + 1])
  }

  lemma {:induction false} NoneHeld(tasks: seq<Task>, d: Descriptor)
    requires IsEnd(d) && forall i | 0 <= i < |tasks| :: Held(tasks[i], d) == 0
    ensures AllHeld(tasks, d) == 0
  {
    if tasks != [] { NoneHeld(tasks[..|tasks| - 1], d); }
  }

  lemma InitialInv(s: System)
    requires Initial(s) && forall d | IsEnd(d) :: s.leaked(d) == 0
    ensures Inv(s)
  {
    forall d | IsEnd(d)
      ensures References(s, d) == 0
    {
      forall i | 0 <= i < |s.tasks|
        ensures Held(s.tasks[i], d) == 0
      {
        CountNone(s.tasks[i].files, d);
      }
      NoneHeld(s.tasks, d);
    }
    forall p | 0 <= p < |s.pipes|
      ensures PipeOk(s.pipes, Refs(s), p)
    {
    }
  }

  /** In every state of every run each pipe's counts are exactly its ends: in tables, on their way, or left behind
      by a killed task. */
  lemma {:induction false} EveryRunCounts(run: seq<System>, kills: bool, n: nat)
    requires IsRun(run, kills) && n < |run|
    ensures Inv(run[n]) && Shaped(run[n])
  {
    if n == 0 {
      InitialInv(run[0]);
    } else {
      EveryRunCounts(run, kills, n - 1);
      assert StepsTo(run[n - 1], kills, run[n]);
      var i, e :| Enabled(run[n - 1], i, e) && (e.Kill? ==> kills) && run[n] == Next(run[n - 1], i, e);
      StepKeepsInv(run[n - 1], i, e);
    }
  }

  /** A slot that `pipe` may hand out is in nobody's table. */
  lemma ReuseIsSafe(s: System, p: nat, i: nat, fd: nat)
    requires Inv(s) && p < |s.pipes| && !s.pipes[p].used && i < |s.tasks| && fd < |s.tasks[i].files|
    ensures s.tasks[i].files[fd] != PipeRead(p) && s.tasks[i].files[fd] != PipeWrite(p)
  {
    UnusedIsUnnamed(s.pipes, Refs(s), p);
    CountAt(s.tasks[i].files, fd);
    HeldIsThere(s.tasks, i, s.tasks[i].files[fd]);
  }

  // --- runs without kills -----------------------------------------------------------------------------------

  ghost predicate NoEndBelow(files: seq<Descriptor>, n: nat) {
    forall fd | 0 <= fd < n && fd < |files| :: !IsEnd(files[fd])
  }

  /** A task that is exiting has closed what it has passed. */
  ghost predicate ExitOk(t: Task) {
    match t.place
    case Exiting(fd) => NoEndBelow(t.files, fd)
    case Dropping(_, after) => after.ThenExit? ==> NoEndBelow(t.files, after.fd)
    case Finished => NoEndBelow(t.files, |t.files|)
    case _ => true
  }

  ghost predicate Clean(s: System) {
    && (forall d | IsEnd(d) :: s.leaked(d) == 0)
    && (forall i | 0 <= i < |s.tasks| :: ExitOk(s.tasks[i]))
  }

  lemma StepKeepsClean(s: System, i: nat, e: Event)
    requires Inv(s) && Shaped(s) && Clean(s) && Enabled(s, i, e) && !e.Kill?
    ensures Clean(Next(s, i, e))
  {
    var t := s.tasks[i];
    assert PlaceOk(t) && ExitOk(t);
    if e.Reap? {
      forall d | IsEnd(d)
        ensures Count(t.files, d) == 0
      {
        CountNone(t.files, d);
      }
    }
  }

  lemma {:induction false} NothingLeaks(run: seq<System>, n: nat)
    requires IsRun(run, false) && n < |run|
    ensures Clean(run[n])
  {
    if n > 0 {
      NothingLeaks(run, n - 1);
      EveryRunCounts(run, false, n - 1);
      assert StepsTo(run[n - 1], false, run[n]);
      var i, e :| Enabled(run[n - 1], i, e) && (e.Kill? ==> false) && run[n] == Next(run[n - 1], i, e);
      StepKeepsClean(run[n - 1], i, e);
    }
  }

  /** How many entries of all the tables name end `d`. */
  function Entries(tasks: seq<Task>, d: Descriptor): nat {
    if tasks == [] then 0 else Entries(tasks[..|tasks| - 1], d) + Count(tasks[|tasks| - 1].files, d)
  }

  lemma {:induction false} AtRest(tasks: seq<Task>, d: Descriptor)
    requires forall i | 0 <= i < |tasks| :: InHand(tasks[i].place, d) == 0
    ensures AllHeld(tasks, d) == Entries(tasks, d)
  {
    if tasks != [] { AtRest(tasks[..|tasks| - 1], d); }
  }

  /** Without kills, whenever nobody is in the middle of moving an end of a pipe, its counts are the entries in all
      the tables that name it. */
  lemma CountsAreEntries(run: seq<System>, n: nat, p: nat)
    requires IsRun(run, false) && n < |run| && p < |run[n].pipes|
    requires forall i | 0 <= i < |run[n].tasks| ::
               InHand(run[n].tasks[i].place, PipeRead(p)) == 0 && InHand(run[n].tasks[i].place, PipeWrite(p)) == 0
    ensures run[n].pipes[p].readers == Entries(run[n].tasks, PipeRead(p))
    ensures run[n].pipes[p].writers == Entries(run[n].tasks, PipeWrite(p))
  {
    EveryRunCounts(run, false, n);
    NothingLeaks(run, n);
    assert PipeOk(run[n].pipes, Refs(run[n]), p);
    AtRest(run[n].tasks, PipeRead(p));
    AtRest(run[n].tasks, PipeWrite(p));
  }
}
