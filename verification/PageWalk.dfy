/** Walking a page-table tree to a page, and what a creating walk leaves behind. */
module PageWalk {
  import opened Frames
  import opened FrameTables
  import opened Sharing

  datatype MapResult = Done | AlreadyMapped | OutOfMemory

  /** The tables on the way to a page: the root at 0, the last-level table at 3. */
  function PathId(l: Leaf, level: nat): TableId
    requires level <= 3
  {
    match level
    case 0 => L4(l.root)
    case 1 => L3(l.root)
    case 2 => L2(l.root, l.i3)
    case 3 => L1(l.root, l.i3, l.i2)
  }

  function PathIndex(l: Leaf, level: nat): Idx
    requires level <= 3
  {
    match level
    case 0 => 0
    case 1 => l.i3
    case 2 => l.i2
    case 3 => l.i1
  }

  lemma PathStep(l: Leaf, level: nat)
    requires level < 3
    ensures var k, c := PathId(l, level), PathId(l, level + 1);
            !k.L1? && !c.L4? && Parent(c) == k && Index(c) == PathIndex(l, level) && UserSlot(k, PathIndex(l, level))
            && Child(k, PathIndex(l, level)) == c
  {
  }

  /** How many tables a mapping of `l` would have to create. */
  ghost function Missing(g: Shape, l: Leaf): nat {
    if L3(l.root) !in g.node then 3
    else if L2(l.root, l.i3) !in g.node then 2
    else if Home(l) !in g.node then 1
    else 0
  }

  /** Contents of data frames and of frames in hand are untouched. */
  ghost predicate Untouched(mem: Memory, g: Shape, mem': Memory) {
    forall f | f in g.role && f in mem && (g.role[f].Data? || g.role[f].Held?) :: f in mem' && mem'[f] == mem[f]
  }

  /** Tables may have been added out of free frames; nothing else has changed role. */
  ghost predicate Grew(g: Shape, g': Shape) {
    && g'.leaves == g.leaves && g'.cut == g.cut
    && g'.role.Keys == g.role.Keys
    && (forall k | k in g.node :: k in g'.node && g'.node[k] == g.node[k])
    && (forall f | f in g.role && !g.role[f].FreeAt? :: g'.role[f] == g.role[f])
    && (forall f | f in g.role && g.role[f].FreeAt? :: g'.role[f].FreeAt? || g'.role[f].TableOf?)
  }

  lemma GrewTwice(g: Shape, g1: Shape, g2: Shape)
    requires Grew(g, g1) && Grew(g1, g2)
    ensures Grew(g, g2)
  {
  }

  lemma UntouchedTwice(mem: Memory, g: Shape, mem1: Memory, g1: Shape, mem2: Memory)
    requires Untouched(mem, g, mem1) && Grew(g, g1) && Untouched(mem1, g1, mem2)
    ensures Untouched(mem, g, mem2)
  {
  }

  lemma GraftGrew(g: Shape, c: TableId)
    requires FreeRoles(g) && |g.free| > 0 && c !in g.node
    ensures Grew(g, Grafted(Popped(g), c, g.free[|g.free| - 1]))
  {
    assert g.role[g.free[|g.free| - 1]] == FreeAt(|g.free| - 1);
  }

  lemma FreshUntouched(mem: Memory, g: Shape, f: nat, blank: Page, k: TableId, i: Idx, w: Word)
    requires f in g.role && g.role[f].FreeAt? && k in g.node && TableRoles(g) && Backed(mem, g)
    ensures Untouched(mem, g, Store(mem[f := blank], g.node[k], i, w))
  {
    assert g.role[g.node[k]] == TableOf(k);
  }

  /** Tables exist along a path without gaps. */
  lemma PathMissing(mem: Memory, head: nat, g: Shape, l: Leaf)
    requires Ok(mem, head, g)
    ensures Home(l) in g.node ==> L2(l.root, l.i3) in g.node
    ensures L2(l.root, l.i3) in g.node ==> L3(l.root) in g.node
    ensures L3(l.root) in g.node ==> L4(l.root) in g.node
  {
    assert Home(l) in g.node ==> Hangs(mem, g, Home(l));
    assert L2(l.root, l.i3) in g.node ==> Hangs(mem, g, L2(l.root, l.i3));
    assert L3(l.root) in g.node ==> Hangs(mem, g, L3(l.root));
  }

  lemma MissingStep(g: Shape, g': Shape, l: Leaf, level: nat)
    requires level < 3 && g'.node.Keys == g.node.Keys + {PathId(l, level + 1)}
    requires forall j | 0 <= j <= level :: PathId(l, j) in g.node
    requires forall j | level < j < 3 && PathId(l, j) !in g.node :: PathId(l, j + 1) !in g.node
    ensures Missing(g', l) == Missing(g, l) - (if PathId(l, level + 1) in g.node then 0 else 1)
  {
    if PathId(l, level + 1) in g.node {
      assert g'.node.Keys == g.node.Keys;
    }
    assert forall k :: k in g'.node <==> k in g.node || k == PathId(l, level + 1);
    assert PathId(l, 0) == L4(l.root) && PathId(l, 1) == L3(l.root) && PathId(l, 2) == L2(l.root, l.i3)
           && PathId(l, 3) == Home(l);
  }

  /** How far a creating walk has got: everything it made is on the path to `l`. */
  ghost predicate Walked(mem0: Memory, g0: Shape, mem: Memory, g: Shape, l: Leaf, level: nat) {
    && level <= 3 && g.cut == g0.cut && Extended(mem0, g0, mem, g, l)
    && (forall j | 0 <= j <= level :: PathId(l, j) in g.node)
    && |g.free| + Missing(g0, l) == |g0.free| + Missing(g, l)
  }

  /** Only tables on the path to `l` have been added. */
  ghost predicate Extended(mem0: Memory, g0: Shape, mem: Memory, g: Shape, l: Leaf) {
    && Grew(g0, g) && Untouched(mem0, g0, mem)
    && (forall k | k in g.node && k !in g0.node :: OnPath(l, k))
  }

  /** What mapping `l` to the word `w` does and when it is refused. */
  ghost predicate MapOutcome(mem0: Memory, g0: Shape, mem: Memory, g: Shape, l: Leaf, w: Word, r: MapResult) {
    && (r == AlreadyMapped <==> l in g0.leaves)
    && (r == OutOfMemory <==> Missing(g0, l) > |g0.free|)
    && (r == OutOfMemory ==> |g.free| == 0)
    && (r != Done ==> Extended(mem0, g0, mem, g, l))
    && (r == Done ==> exists mid :: MapDone(mem0, g0, mem, g, l, w, mid))
  }

  ghost predicate MapDone(mem0: Memory, g0: Shape, mem: Memory, g: Shape, l: Leaf, w: Word, mid: Shape) {
    && Extended(mem0, g0, mem, mid, l) && g == WithLeaf(mid, l, w)
    && |g.free| == |g0.free| - Missing(g0, l)
  }

  /** Mapping a page changes what resolves at that page and nowhere else, and only if it is not mapped yet. */
  lemma MapChangesOnePage(mem0: Memory, g0: Shape, mem: Memory, g: Shape, l: Leaf, w: Word, r: MapResult)
    requires MapOutcome(mem0, g0, mem, g, l, w, r)
    ensures g.leaves == if l !in g0.leaves && Missing(g0, l) <= |g0.free| then g0.leaves[l := w] else g0.leaves
    ensures |g0.free| >= 3 && l !in g0.leaves ==> r == Done
  {
    hide Untouched;
    if r == Done {
      var mid :| MapDone(mem0, g0, mem, g, l, w, mid);
    }
  }

  predicate OnPath(l: Leaf, k: TableId) { k == L3(l.root) || k == L2(l.root, l.i3) || k == Home(l) }

  lemma WalkStarts(mem: Memory, head: nat, g: Shape, l: Leaf)
    requires L4(l.root) in g.node && Ok(mem, head, g)
    ensures Walked(mem, g, mem, g, l, 0) && g.node[L4(l.root)] == l.root
  {
  }

  lemma WalkContinues(mem0: Memory, g0: Shape, mem: Memory, head: nat, g: Shape, mem': Memory, g': Shape,
                      l: Leaf, level: nat)
    requires Walked(mem0, g0, mem, g, l, level) && level < 3 && Ok(mem, head, g)
    requires Grew(g, g') && Untouched(mem, g, mem') && g'.node.Keys == g.node.Keys + {PathId(l, level + 1)}
    requires |g'.free| == |g.free| - (if PathId(l, level + 1) in g.node then 0 else 1)
    ensures Walked(mem0, g0, mem', g', l, level + 1)
  {
    hide Ok, Extended, Grew, Untouched;
    ExtendedFurther(mem0, g0, mem, g, mem', g', l, level);
    PathMissing(mem, head, g, l);
    NoGaps(g, l);
    MissingStep(g, g', l, level);
    GrewFacts(g, g');
  }

  lemma GrewFacts(g: Shape, g': Shape)
    requires Grew(g, g')
    ensures g'.cut == g.cut && forall k | k in g.node :: k in g'.node
  {
  }

  lemma ExtendedFurther(mem0: Memory, g0: Shape, mem: Memory, g: Shape, mem': Memory, g': Shape, l: Leaf, level: nat)
    requires Extended(mem0, g0, mem, g, l) && Grew(g, g') && Untouched(mem, g, mem') && level < 3
    requires g'.node.Keys == g.node.Keys + {PathId(l, level + 1)}
    ensures Extended(mem0, g0, mem', g', l)
  {
    GrewTwice(g0, g, g');
    UntouchedTwice(mem0, g0, mem, g, mem');
    hide Grew, Untouched;
    assert OnPath(l, PathId(l, level + 1));
    assert forall k | k in g'.node :: k in g.node || k == PathId(l, level + 1);
  }

  lemma WalkEnds(mem0: Memory, g0: Shape, mem: Memory, head: nat, g: Shape, l: Leaf)
    requires Walked(mem0, g0, mem, g, l, 3) && Ok(mem, head, g)
    ensures Extended(mem0, g0, mem, g, l) && Home(l) in g.node && |g.free| == |g0.free| - Missing(g0, l)
  {
    assert PathId(l, 3) == Home(l);
    PathMissing(mem, head, g, l);
  }

  /** A walk that cannot go on had too few frames from the start. */
  lemma WalkFails(mem0: Memory, g0: Shape, mem: Memory, g: Shape, l: Leaf, level: nat)
    requires Walked(mem0, g0, mem, g, l, level) && level < 3 && PathId(l, level + 1) !in g.node && |g.free| == 0
    ensures Missing(g0, l) > |g0.free| && Extended(mem0, g0, mem, g, l)
  {
    assert Missing(g, l) > 0 by {
      assert PathId(l, 1) == L3(l.root) && PathId(l, 2) == L2(l.root, l.i3) && PathId(l, 3) == Home(l);
    }
  }

  lemma ExtendedKeeps(mem0: Memory, g0: Shape, mem: Memory, g: Shape, l: Leaf, f: nat)
    requires Extended(mem0, g0, mem, g, l) && f in g0.role
    ensures g.leaves == g0.leaves && g.cut == g0.cut && g.role.Keys == g0.role.Keys
    ensures !g0.role[f].FreeAt? ==> g.role[f] == g0.role[f]
  {
  }

  lemma SetExtends(mem0: Memory, g0: Shape, mem: Memory, head: nat, g: Shape, l: Leaf, w: Word)
    requires Ok(mem, head, g) && Extended(mem0, g0, mem, g, l) && Home(l) in g.node && g.cut == map[]
    requires l !in g.leaves && w.present && w.frame in g.role && (g.role[w.frame].Held? || g.role[w.frame].Data?)
    ensures g.node[Home(l)] in mem && Extended(mem0, g0, Store(mem, g.node[Home(l)], l.i1, w), g, l)
    ensures Ok(Store(mem, g.node[Home(l)], l.i1, w), head, WithLeaf(g, l, w))
  {
    assert g.role[g.node[Home(l)]] == TableOf(Home(l));
    hide FreeRoles, DataRoles, Tree, Leaves, FreeList;
    SetKeepsOk(mem, head, g, l, w);
  }

  lemma NoGaps(g: Shape, l: Leaf)
    requires Home(l) in g.node ==> L2(l.root, l.i3) in g.node
    requires L2(l.root, l.i3) in g.node ==> L3(l.root) in g.node
    ensures forall j | 0 < j < 3 && PathId(l, j) !in g.node :: PathId(l, j + 1) !in g.node
  {
    assert PathId(l, 1) == L3(l.root) && PathId(l, 2) == L2(l.root, l.i3) && PathId(l, 3) == Home(l);
  }

  lemma LeafHasHome(mem: Memory, head: nat, g: Shape, l: Leaf)
    requires Ok(mem, head, g)
    ensures l in g.leaves ==> Home(l) in g.node && Missing(g, l) == 0
  {
    assert l in g.leaves ==> LeafOk(mem, g, l);
    PathMissing(mem, head, g, l);
  }

  lemma LeafIsEntry(mem: Memory, head: nat, g: Shape, l: Leaf)
    requires Ok(mem, head, g) && Home(l) in g.node && g.cut == map[]
    ensures g.node[Home(l)] in mem
    ensures l in g.leaves <==> mem[g.node[Home(l)]][l.i1].present
    ensures l in g.leaves ==> mem[g.node[Home(l)]][l.i1] == g.leaves[l]
  {
    assert Tracked(mem, g, l);
    assert l in g.leaves ==> LeafOk(mem, g, l);
  }
}
