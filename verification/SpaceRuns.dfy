/** Whole runs: what the programs of a system that shares pages on fork see is what they would see
    if fork copied every page. */
module SpaceRuns {
  import opened Basics
  import opened Frames
  import opened PageWalk
  import opened Spaces
  import opened PageLists
  import opened CopyOnWrite
  import opened FrameBalance
  import opened BootFrames
  import opened ForkTables
  import opened Sharing
  import opened ShareTable
  import opened Teardown
  import opened VirtualMemory

  /** What can happen to address spaces: one forks, a program stores a word, a program touches a page
      it was promised, one is torn down. */
  datatype Op = Forks(parent: nat) | Writes(page: Leaf, at: Idx, word: Word) | Touches(page: Leaf) | Destroys(root: nat)

  // --- the simple machine: every space owns its pages outright -------------------------

  ghost predicate EagerStep(v: View, roots: set<nat>, op: Op, v': View, roots': set<nat>) {
    match op
    case Forks(parent) =>
      if parent in roots then exists child :: child !in roots && EagerFork(v, parent, child, v')
                                              && roots' == roots + {child}
      else v' == v && roots' == roots
    case Writes(l, i, w) =>
      && roots' == roots
      && v' == if l.root in roots && l in v && v[l].mayWrite then EagerWrite(v, l, i, w) else v
    case Touches(l) =>
      && roots' == roots
      && v' == if l.root in roots && l !in v then v[l := Seen(Blank(), true, true, false)] else v
    case Destroys(root) =>
      && roots' == roots - {root}
      && v' == if root in roots then EagerDestroy(v, root) else v
  }

  /** The states of an eager run, one per operation and one at the start. */
  ghost predicate EagerRun(ops: seq<Op>, vs: seq<View>, rs: seq<set<nat>>) {
    && |vs| == |rs| == |ops| + 1
    && forall n {:trigger ops[n]} | 0 <= n < |ops| :: EagerStep(vs[n], rs[n], ops[n], vs[n + 1], rs[n + 1])
  }

  lemma EagerRunGrows(ops: seq<Op>, vs: seq<View>, rs: seq<set<nat>>, op: Op, v: View, r: set<nat>)
    requires EagerRun(ops, vs, rs) && EagerStep(vs[|ops|], rs[|ops|], op, v, r)
    ensures EagerRun(ops + [op], vs + [v], rs + [r])
  {
    var ops', vs', rs' := ops + [op], vs + [v], rs + [r];
    forall n {:trigger ops'[n]} | 0 <= n < |ops'|
      ensures EagerStep(vs'[n], rs'[n], ops'[n], vs'[n + 1], rs'[n + 1])
    {
      assert n < |ops| ==> ops'[n] == ops[n];
    }
  }

  ghost predicate Rooted(v: View, roots: set<nat>) { forall l | l in v :: l.root in roots }

  lemma {:induction false} RootedStays(ops: seq<Op>, vs: seq<View>, rs: seq<set<nat>>, n: nat)
    requires EagerRun(ops, vs, rs) && Rooted(vs[0], rs[0]) && n <= |ops|
    ensures Rooted(vs[n], rs[n])
  {
    if n > 0 {
      RootedStays(ops, vs, rs, n - 1);
      assert EagerStep(vs[n - 1], rs[n - 1], ops[n - 1], vs[n], rs[n]);
    }
  }

  /** A page that may not be written keeps its bytes and stays read-only for as long as its space lives,
      whatever is forked and written meanwhile. */
  lemma {:induction false} ReadOnlyForever(ops: seq<Op>, vs: seq<View>, rs: seq<set<nat>>, l: Leaf, n: nat)
    requires EagerRun(ops, vs, rs) && Rooted(vs[0], rs[0]) && n <= |ops|
    requires l in vs[0] && !vs[0][l].mayWrite && forall j | 0 <= j < n :: ops[j] != Destroys(l.root)
    ensures l in vs[n] && vs[n][l] == vs[0][l]
  {
    if n > 0 {
      ReadOnlyForever(ops, vs, rs, l, n - 1);
      RootedStays(ops, vs, rs, n - 1);
      assert ops[n - 1] != Destroys(l.root);
      assert EagerStep(vs[n - 1], rs[n - 1], ops[n - 1], vs[n], rs[n]);
    }
  }

  // --- the kernel ------------------------------------------------------------------------

  ghost function Roots(g: Shape): set<nat> { set k | k in g.node && k.L4? :: k.root }

  lemma RootsAre(g: Shape, r: nat)
    ensures r in Roots(g) <==> L4(r) in g.node
  {
  }

  lemma RootsKept(g0: Shape, g: Shape)
    requires Kept(g0, g)
    ensures Roots(g) == Roots(g0)
  {
    forall r
      ensures r in Roots(g) <==> r in Roots(g0)
    {
      RootsAre(g, r);
      RootsAre(g0, r);
    }
  }

  lemma RootsForked(g0: Shape, g: Shape, child: nat)
    requires L4(child) !in g0.node && L4(child) in g.node && Kept(g0, g.(node := g.node - {L4(child)}))
    ensures Roots(g) == Roots(g0) + {child} && child !in Roots(g0)
  {
    forall r
      ensures r in Roots(g) <==> r in Roots(g0) || r == child
    {
      RootsAre(g, r);
      RootsAre(g0, r);
    }
  }

  lemma RootsDestroyed(g0: Shape, g: Shape, root: nat)
    requires forall k :: k in g.node <==> k in g0.node && k.root != root
    ensures Roots(g) == Roots(g0) - {root}
  {
    forall r
      ensures r in Roots(g) <==> r in Roots(g0) && r != root
    {
      RootsAre(g, r);
      RootsAre(g0, r);
    }
  }

  /** What every operation that succeeds does; one that fails does so for want of a frame. */
  twostate predicate Stepped(k: Kernel, op: Op, roots: set<nat>, ok: bool)
    requires old(k.Valid()) && k.Valid()
    reads k
  {
    && (ok ==> EagerStep(old(k.Sees()), old(Roots(k.g)), op, k.Sees(), roots) && roots == Roots(k.g))
    && (ok ==> HeldFrames(k.g) == HeldFrames(old(k.g)) && k.g.role.Keys == old(k.g.role).Keys)
    && (!ok ==> |k.g.free| == 0)
  }

  lemma HeldReleased(mem0: Memory, g0: Shape, mem: Memory, g: Shape)
    requires Released(mem0, g0, mem, g)
    ensures HeldFrames(g) == HeldFrames(g0) && g.role.Keys == g0.role.Keys
  {
  }

  /** A process forks; it is the one running. */
  method PerformFork(k: Kernel, roots: set<nat>, parent: nat) returns (ok: bool, roots': set<nat>)
    requires k.Valid() && roots == Roots(k.g) && parent in roots
    modifies k
    ensures k.Valid() && Stepped(k, Forks(parent), roots', ok)
  {
    hide Ok, Counted, Private, AsMap, Distinct, ViewOf, Readable, Forked, EagerFork, Kept, HeldKept, Roots, HeldFrames;
    RootsAre(k.g, parent);
    k.cr3 := parent;
    ghost var mem0, g0 := k.mem, k.g;
    var r, child, pages, done := k.Fork(parent);
    if r.None? {
      return false, roots;
    }
    RootsForked(g0, k.g, child);
    HeldSame(mem0, g0, k.mem, k.g);
    HeldSameFrames(mem0, g0, k.mem, k.g);
    ok, roots' := true, roots + {r.value};
  }

  lemma HeldSameFrames(mem0: Memory, g0: Shape, mem: Memory, g: Shape)
    requires HeldKept(mem0, g0, mem, g)
    ensures g.role.Keys == g0.role.Keys
  {
  }

  /** The program of a space stores a word. */
  method PerformWrite(k: Kernel, roots: set<nat>, l: Leaf, i: Idx, w: Word) returns (ok: bool, roots': set<nat>)
    requires k.Valid() && roots == Roots(k.g) && l.root in roots
    modifies k
    ensures k.Valid() && Stepped(k, Writes(l, i, w), roots', ok)
  {
    hide Ok, Counted, Private, AsMap, Distinct, ViewOf, Readable, Kept, HeldKept, HeldFrames;
    RootsAre(k.g, l.root);
    if k.free == 0 {
      return false, roots;
    }
    ghost var mem0, g0 := k.mem, k.g;
    var written := k.UserWrite(l, i, w);
    HeldSame(mem0, g0, k.mem, k.g);
    HeldSameFrames(mem0, g0, k.mem, k.g);
    ok, roots' := true, roots;
  }

  /** The program of a space touches a page it was promised. */
  method PerformTouch(k: Kernel, roots: set<nat>, l: Leaf) returns (ok: bool, roots': set<nat>)
    requires k.Valid() && roots == Roots(k.g) && l.root in roots
    modifies k
    ensures k.Valid() && Stepped(k, Touches(l), roots', ok)
  {
    hide Ok, Counted, Private, AsMap, Distinct, ViewOf, Readable, Kept, HeldKept, HeldFrames, Roots;
    RootsAre(k.g, l.root);
    k.cr3 := l.root;
    ghost var mem0, head0, g0 := k.mem, k.head, k.g;
    SeesKeys(mem0, head0, g0);
    var mapped := k.TranslateIn(l);
    if mapped.Some? {
      return true, roots;
    }
    if k.free == 0 {
      return false, roots;
    }
    ok := k.DemandFault(l);
    roots' := roots;
    RootsKept(g0, k.g);
    if ok {
      HeldSame(mem0, g0, k.mem, k.g);
      HeldSameFrames(mem0, g0, k.mem, k.g);
    }
  }

  /** A space is torn down. */
  method PerformDestroy(k: Kernel, roots: set<nat>, root: nat) returns (ok: bool, roots': set<nat>)
    requires k.Valid() && roots == Roots(k.g) && root in roots
    modifies k
    ensures k.Valid() && Stepped(k, Destroys(root), roots', ok) && ok
  {
    hide Ok, Counted, Private, AsMap, Distinct, ViewOf, Readable, Released, HeldFrames, Roots;
    RootsAre(k.g, root);
    ghost var mem0, g0 := k.mem, k.g;
    var freed := k.Destroy(root);
    HeldReleased(mem0, g0, k.mem, k.g);
    RootsDestroyed(g0, k.g, root);
    ok, roots' := true, roots - {root};
  }

  function Target(op: Op): nat {
    match op
    case Forks(parent) => parent
    case Writes(l, _, _) => l.root
    case Touches(l) => l.root
    case Destroys(root) => root
  }

  /** One operation on the kernel; nothing happens to a space that does not exist. */
  method Perform(k: Kernel, roots: set<nat>, op: Op) returns (ok: bool, roots': set<nat>)
    requires k.Valid() && roots == Roots(k.g)
    modifies k
    ensures k.Valid() && Stepped(k, op, roots', ok)
  {
    hide Ok, Counted, Private, AsMap, Distinct, ViewOf, Readable, HeldFrames, Roots;
    if Target(op) !in roots {
      return true, roots;
    }
    match op
    case Forks(parent) => ok, roots' := PerformFork(k, roots, parent);
    case Writes(l, i, w) => ok, roots' := PerformWrite(k, roots, l, i, w);
    case Touches(l) => ok, roots' := PerformTouch(k, roots, l);
    case Destroys(root) => ok, roots' := PerformDestroy(k, roots, root);
  }

  /** Any sequence of forks, stores, demand faults and teardowns, until it is over or no frame is left:
      the programs see an eager run, and once every space is gone every frame that was not in hand at
      the start is back on the free list, once. */
  method Run(k: Kernel, roots: set<nat>, ops: seq<Op>) returns (done: nat, roots': set<nat>, ghost vs: seq<View>,
                                                                ghost rs: seq<set<nat>>)
    requires k.Valid() && roots == Roots(k.g)
    modifies k
    ensures k.Valid() && done <= |ops|
    ensures EagerRun(ops[..done], vs, rs) && vs[0] == old(k.Sees()) && rs[0] == roots
    ensures done == |ops| ==> vs[done] == k.Sees() && rs[done] == roots' == Roots(k.g)
    ensures done < |ops| ==> |k.g.free| == 0
    ensures done == |ops| && roots' == {} ==> multiset(k.g.free) == multiset(old(k.g.role).Keys - HeldFrames(old(k.g)))
  {
    hide Ok, Counted, Private, AsMap, Distinct, ViewOf, Readable, HeldFrames, Roots, EagerStep, EagerRun;
    roots' := roots;
    vs, rs := [k.Sees()], [roots];
    EagerRunStarts(k.Sees(), roots);
    done := 0;
    while done < |ops|
      invariant k.Valid() && 0 <= done <= |ops| && |vs| == |rs| == done + 1
      invariant EagerRun(ops[..done], vs, rs) && vs[0] == old(k.Sees()) && rs[0] == roots
      invariant vs[done] == k.Sees() && rs[done] == roots' == Roots(k.g)
      invariant HeldFrames(k.g) == HeldFrames(old(k.g)) && k.g.role.Keys == old(k.g.role).Keys
    {
      var ok, after := Perform(k, roots', ops[done]);
      if !ok {
        return;
      }
      EagerRunGrows(ops[..done], vs, rs, ops[done], k.Sees(), after);
      assert ops[..done + 1] == ops[..done] + [ops[done]];
      vs, rs, roots' := vs + [k.Sees()], rs + [after], after;
      done := done + 1;
    }
    assert ops[..done] == ops;
    if roots' == {} {
      NoRoots(k.mem, k.head, k.g);
    }
  }

  /** The same from the moment the machine starts: nothing is mapped, the only space is the one it starts in, and every
      usable frame is on the free list. */
  method BootAndRun(regions: seq<Region>, ram: Memory, boot: nat, ops: seq<Op>)
    returns (k: Kernel, done: nat, ghost vs: seq<View>, ghost rs: seq<set<nat>>)
    requires MapOk(regions, ram, boot)
    ensures k.Valid() && done <= |ops| && EagerRun(ops[..done], vs, rs) && vs[0] == map[] && rs[0] == {boot}
    ensures done == |ops| ==> vs[done] == k.Sees() && rs[done] == Roots(k.g)
    ensures done < |ops| ==> |k.g.free| == 0
    ensures done == |ops| && rs[done] == {} ==>
              multiset(k.g.free) == multiset(UsableFrames(regions, |regions|) + [boot])
  {
    hide Ok, Counted, Private, AsMap, Distinct, ViewOf, Readable, HeldFrames, Roots, EagerRun, MapOk;
    MapHasRoot(regions, ram, boot);
    k := new Kernel(ram, boot);
    k.Init(regions, ram, boot);
    ghost var g0 := k.g;
    OneRoot(k.mem, k.head, g0, boot);
    var roots;
    done, roots, vs, rs := Run(k, {boot}, ops);
  }

  lemma MapHasRoot(regions: seq<Region>, ram: Memory, boot: nat)
    requires MapOk(regions, ram, boot)
    ensures boot > 0 && boot in ram && !ram[boot][0].present
  {
  }

  lemma OneRoot(mem: Memory, head: nat, g: Shape, boot: nat)
    requires Ok(mem, head, g) && g.node == map[L4(boot) := boot] && g.leaves == map[] && HeldFrames(g) == {}
    ensures Roots(g) == {boot}
    ensures multiset(g.free + [boot]) == multiset(g.role.Keys)
  {
    hide Tree, Leaves, FreeList, Backed;
    var list := g.free + [boot];
    assert forall f | f in g.role && g.role[f].FreeAt? :: g.free[g.role[f].at] == f;
    assert forall f | f in g.role :: f in list by {
      forall f | f in g.role
        ensures f in list
      {
        assert f !in HeldFrames(g);
        assert list[|g.free|] == boot;
        if g.role[f].FreeAt? { assert list[g.role[f].at] == f; }
      }
    }
    ListIsSet(list, g.role.Keys);
  }

  lemma EagerRunStarts(v: View, roots: set<nat>)
    ensures EagerRun([], [v], [roots])
  {
  }

  lemma NoRoots(mem: Memory, head: nat, g: Shape)
    requires Ok(mem, head, g) && Roots(g) == {}
    ensures multiset(g.free) == multiset(g.role.Keys - HeldFrames(g))
  {
    hide Ok;
    forall r
      ensures L4(r) !in g.node
    {
      RootsAre(g, r);
    }
    NoSpacesNoFramesInUse(mem, head, g);
  }
}
