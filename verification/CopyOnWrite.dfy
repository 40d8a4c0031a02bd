/** Why copy-on-write cannot be told from copying: writes and faults on one page. */
module CopyOnWrite {
  import opened Frames
  import opened FrameTables
  import opened Sharing
  import opened Spaces
  import opened PageWalk
  import opened PageLists
  import opened Teardown

  /** The entry a resolved fault leaves behind. */
  function PrivateWord(w: Word, frame: nat): Word { w.(frame := frame, writable := true, cow := false) }

  lemma FreshHasNoOwner(mem: Memory, head: nat, g: Shape, f: nat)
    requires Ok(mem, head, g) && f in g.role && g.role[f] == Held
    ensures Owners(g.leaves, f) == {}
  {
    hide Tree, Leaves, FreeList, FreeRoles, TableRoles;
  }

  /** Moving one owner of a shared frame to a frame of its own. */
  lemma MoveToFresh(table: map<nat, nat>, leaves: map<Leaf, Word>, l: Leaf, f: nat)
    requires Counted(table, leaves) && Private(leaves) && l in leaves
    requires CountOf(table, leaves[l].frame) > 1 && Owners(leaves, f) == {}
    ensures Counted(OneFewer(table, leaves[l].frame), leaves[l := PrivateWord(leaves[l], f)])
    ensures Private(leaves[l := PrivateWord(leaves[l], f)])
  {
    var rest := leaves - {l};
    DropShared(table, leaves, l);
    OwnersAfterDrop(leaves, l, f);
    AddFresh(OneFewer(table, leaves[l].frame), rest, l, PrivateWord(leaves[l], f));
    assert rest[l := PrivateWord(leaves[l], f)] == leaves[l := PrivateWord(leaves[l], f)];
  }

  /** The last owner just gets the permission back. */
  lemma ReclaimSole(table: map<nat, nat>, leaves: map<Leaf, Word>, l: Leaf)
    requires Counted(table, leaves) && Private(leaves) && l in leaves && CountOf(table, leaves[l].frame) <= 1
    ensures Counted(table, leaves[l := PrivateWord(leaves[l], leaves[l].frame)])
    ensures Private(leaves[l := PrivateWord(leaves[l], leaves[l].frame)])
  {
    CountIsOwners(table, leaves, l);
    SoleOwner(leaves, l);
    SetFlags(table, leaves, l, PrivateWord(leaves[l], leaves[l].frame));
  }

  /** Replacing one page's frame by a copy of it is invisible. */
  lemma MoveSeen(mem: Memory, head: nat, g: Shape, l: Leaf, f: nat, mem': Memory)
    requires Ok(mem, head, g) && l in g.leaves && g.leaves[l].cow && f in mem'
    requires forall x | x in g.leaves :: g.leaves[x].frame in mem && g.leaves[x].frame in mem'
                                         && mem'[g.leaves[x].frame] == mem[g.leaves[x].frame]
    requires mem'[f] == mem[g.leaves[l].frame]
    ensures Readable(mem, g.leaves) && Readable(mem', g.leaves[l := PrivateWord(g.leaves[l], f)])
    ensures ViewOf(mem', g.leaves[l := PrivateWord(g.leaves[l], f)]) == ViewOf(mem, g.leaves)
  {
    hide Ok;
    SameView(mem, g.leaves, mem', g.leaves[l := PrivateWord(g.leaves[l], f)]);
  }

  /** A store through a writable entry is seen by that page alone. */
  lemma StoreSeen(mem: Memory, leaves: map<Leaf, Word>, l: Leaf, i: Idx, w: Word)
    requires Readable(mem, leaves) && Private(leaves) && l in leaves && leaves[l].writable
    ensures var mem' := Store(mem, leaves[l].frame, i, w);
            Readable(mem', leaves) && ViewOf(mem', leaves) == EagerWrite(ViewOf(mem, leaves), l, i, w)
  {
    var f := leaves[l].frame;
    forall m | m in leaves && m != l
      ensures leaves[m].frame != f
    {
      assert m !in Owners(leaves, f);
    }
  }

  /** What is still mapped after a teardown reads as it did. */
  lemma ReleasedLeaves(mem0: Memory, head0: nat, g0: Shape, mem: Memory, head: nat, g: Shape)
    requires Ok(mem0, head0, g0) && Ok(mem, head, g) && Released(mem0, g0, mem, g)
    ensures forall l | l in g.leaves ::
              && l in g0.leaves && g.leaves[l] == g0.leaves[l]
              && g.leaves[l].frame in mem0 && g.leaves[l].frame in mem
              && mem[g.leaves[l].frame] == mem0[g.leaves[l].frame]
  {
    assert Backed(mem0, g0) && DataRoles(g) && Backed(mem, g);
    hide Ok;
  }

  lemma RestrictedView(mem0: Memory, leaves0: map<Leaf, Word>, mem: Memory, leaves: map<Leaf, Word>, root: nat)
    requires Readable(mem0, leaves0) && Readable(mem, leaves)
    requires forall l :: l in leaves <==> l in leaves0 && l.root != root
    requires forall l | l in leaves :: SeenAs(mem, leaves[l]) == SeenAs(mem0, leaves0[l])
    ensures ViewOf(mem, leaves) == EagerDestroy(ViewOf(mem0, leaves0), root)
  {
    hide SeenAs;
  }

  /** After a teardown the surviving spaces see what they saw. */
  lemma ReleasedSeen(mem0: Memory, head0: nat, g0: Shape, mem: Memory, head: nat, g: Shape, root: nat)
    requires Ok(mem0, head0, g0) && Ok(mem, head, g) && Released(mem0, g0, mem, g)
    requires forall l :: l in g.leaves <==> l in g0.leaves && l.root != root
    ensures Readable(mem0, g0.leaves) && Readable(mem, g.leaves)
    ensures ViewOf(mem, g.leaves) == EagerDestroy(ViewOf(mem0, g0.leaves), root)
  {
    hide Ok, Released, ViewOf;
    OkIsReadable(mem0, head0, g0);
    OkIsReadable(mem, head, g);
    ReleasedLeaves(mem0, head0, g0, mem, head, g);
    RestrictedView(mem0, g0.leaves, mem, g.leaves, root);
  }

  // --- lemmas the code leans on -----------------------------------------------------

  lemma PathCut(g: Shape, l: Leaf, level: nat)
    requires level < 3 && PathId(l, level + 1) !in g.node
    requires Home(l) in g.node ==> L2(l.root, l.i3) in g.node
    requires L2(l.root, l.i3) in g.node ==> L3(l.root) in g.node
    ensures Home(l) !in g.node
  {
    assert PathId(l, 1) == L3(l.root) && PathId(l, 2) == L2(l.root, l.i3) && PathId(l, 3) == Home(l);
  }

  /** Memory with the shared frame copied into `f` and the entry pointing at the copy. */
  ghost function CopiedMem(mem: Memory, g: Shape, l: Leaf, f: nat): Memory
    requires l in g.leaves && Home(l) in g.node && g.node[Home(l)] in mem && g.leaves[l].frame in mem
  {
    Store(mem[f := mem[g.leaves[l].frame]], g.node[Home(l)], l.i1, PrivateWord(g.leaves[l], f))
  }

  lemma CopiedElsewhere(mem: Memory, g: Shape, l: Leaf, f: nat)
    requires l in g.leaves && Home(l) in g.node && g.node[Home(l)] in mem && g.leaves[l].frame in mem
    ensures forall x | x in mem && x != f && x != g.node[Home(l)] ::
              x in CopiedMem(mem, g, l, f) && CopiedMem(mem, g, l, f)[x] == mem[x]
    ensures f != g.node[Home(l)] ==> f in CopiedMem(mem, g, l, f)
                                     && CopiedMem(mem, g, l, f)[f] == mem[g.leaves[l].frame]
  {
  }

  lemma CopyKeepsOk(mem: Memory, head0: nat, g0: Shape, head: nat, f: nat, l: Leaf)
    requires Ok(mem, head0, g0) && |g0.free| > 0 && Ok(mem, head, Popped(g0)) && f == g0.free[|g0.free| - 1]
    requires l in g0.leaves && g0.cut == map[] && g0.leaves[l].cow && OwnedElsewhere(g0, l, g0.leaves[l].frame)
    ensures Home(l) in g0.node && g0.leaves[l].frame in mem && f in mem && g0.node[Home(l)] in mem
    ensures f != g0.leaves[l].frame
    ensures Ok(CopiedMem(mem, g0, l, f), head, WithLeaf(Popped(g0), l, PrivateWord(g0.leaves[l], f)))
  {
    LeafFacts(mem, head0, g0, l);
    FreeIsFree(mem, head0, g0);
    hide Ok;
    PoppedElsewhere(g0, l);
    hide OwnedElsewhere;
    ContentKeepsOk(mem, head, Popped(g0), f, mem[g0.leaves[l].frame]);
    SetFresh(mem[f := mem[g0.leaves[l].frame]], head, Popped(g0), l, PrivateWord(g0.leaves[l], f));
  }

  lemma CopySeen(mem: Memory, head0: nat, g0: Shape, f: nat, l: Leaf)
    requires Ok(mem, head0, g0) && |g0.free| > 0 && f == g0.free[|g0.free| - 1]
    requires l in g0.leaves && g0.leaves[l].cow
    requires Home(l) in g0.node && g0.leaves[l].frame in mem && f in mem && g0.node[Home(l)] in mem
    ensures var mem' := CopiedMem(mem, g0, l, f);
            var g := WithLeaf(Popped(g0), l, PrivateWord(g0.leaves[l], f));
            && Readable(mem, g0.leaves) && Readable(mem', g.leaves) && ViewOf(mem', g.leaves) == ViewOf(mem, g0.leaves)
            && HeldKept(mem, g0, mem', g)
  {
    FreeIsFree(mem, head0, g0);
    HomeIsTable(mem, head0, g0, l);
    hide Ok, ViewOf, Readable, HeldKept;
    CopiedElsewhere(mem, g0, l, f);
    var mem' := CopiedMem(mem, g0, l, f);
    hide CopiedMem;
    LeavesReadSame(mem, head0, g0, mem', f, g0.node[Home(l)]);
    MoveSeen(mem, head0, g0, l, f, mem');
    HeldCopy(mem, head0, g0, mem', l, PrivateWord(g0.leaves[l], f), f);
  }

  lemma SetFresh(mem: Memory, head: nat, g: Shape, l: Leaf, w: Word)
    requires Ok(mem, head, g) && l in g.leaves && Home(l) in g.node && g.cut == map[] && w.present
    requires w.frame in g.role && g.role[w.frame] == Held && OwnedElsewhere(g, l, g.leaves[l].frame)
    ensures g.node[Home(l)] in mem && Ok(Store(mem, g.node[Home(l)], l.i1, w), head, WithLeaf(g, l, w))
  {
    hide TableRoles, FreeRoles, DataRoles, Tree, Leaves, FreeList, Backed, OwnedElsewhere;
    SetKeepsOk(mem, head, g, l, w);
  }

  lemma FreeIsFree(mem: Memory, head: nat, g: Shape)
    requires Ok(mem, head, g) && |g.free| > 0
    ensures g.free[|g.free| - 1] in g.role && g.role[g.free[|g.free| - 1]] == FreeAt(|g.free| - 1)
    ensures g.free[|g.free| - 1] in mem
  {
    hide Tree, Leaves, FreeList, DataRoles, TableRoles;
  }

  lemma PoppedElsewhere(g: Shape, l: Leaf)
    requires |g.free| > 0 && l in g.leaves && OwnedElsewhere(g, l, g.leaves[l].frame)
    ensures OwnedElsewhere(Popped(g), l, g.leaves[l].frame)
  {
  }

  lemma LeavesReadSame(mem: Memory, head: nat, g: Shape, mem': Memory, f: nat, t: nat)
    requires Ok(mem, head, g) && f in g.role && g.role[f].FreeAt? && t in g.role && g.role[t].TableOf?
    requires forall x | x in mem && x != f && x != t :: x in mem' && mem'[x] == mem[x]
    ensures forall x | x in g.leaves :: g.leaves[x].frame in mem && g.leaves[x].frame in mem'
                                        && mem'[g.leaves[x].frame] == mem[g.leaves[x].frame]
  {
    assert Backed(mem, g) && DataRoles(g);
    hide Ok;
  }

  lemma HeldCopy(mem: Memory, head: nat, g0: Shape, mem': Memory, l: Leaf, w: Word, f: nat)
    requires Ok(mem, head, g0) && |g0.free| > 0 && f == g0.free[|g0.free| - 1] && w.frame == f
    requires f in g0.role && g0.role[f].FreeAt? && Home(l) in g0.node && g0.node[Home(l)] in g0.role
    requires g0.role[g0.node[Home(l)]].TableOf?
    requires forall x | x in mem && x != f && x != g0.node[Home(l)] :: x in mem' && mem'[x] == mem[x]
    ensures HeldKept(mem, g0, mem', WithLeaf(Popped(g0), l, w))
  {
    assert Backed(mem, g0);
    hide Ok;
    var role := WithLeaf(Popped(g0), l, w).role;
    assert role == g0.role[f := Data];
    hide WithLeaf, Popped;
    HeldElsewhere(mem, g0, mem', role, f, g0.node[Home(l)]);
  }

  lemma HeldElsewhere(mem: Memory, g0: Shape, mem': Memory, role: map<nat, Role>, f: nat, t: nat)
    requires Backed(mem, g0) && f in g0.role && t in g0.role && g0.role[f].FreeAt? && g0.role[t].TableOf?
    requires role == g0.role[f := Data]
    requires forall x | x in mem && x != f && x != t :: x in mem' && mem'[x] == mem[x]
    ensures HeldKept(mem, g0, mem', g0.(role := role))
  {
  }

  /** The sole owner getting its permission back. */
  lemma ReclaimKeepsOk(mem: Memory, head: nat, g: Shape, l: Leaf)
    requires Ok(mem, head, g) && l in g.leaves && g.cut == map[] && g.leaves[l].cow
    ensures Home(l) in g.node && g.node[Home(l)] in mem
    ensures var w := PrivateWord(g.leaves[l], g.leaves[l].frame);
            var mem' := Store(mem, g.node[Home(l)], l.i1, w);
            && Ok(mem', head, WithLeaf(g, l, w)) && HeldKept(mem, g, mem', WithLeaf(g, l, w))
            && Readable(mem, g.leaves) && Readable(mem', g.leaves[l := w])
            && ViewOf(mem', g.leaves[l := w]) == ViewOf(mem, g.leaves)
  {
    var w := PrivateWord(g.leaves[l], g.leaves[l].frame);
    LeafFacts(mem, head, g, l);
    hide Ok, ViewOf, Readable, HeldKept, Untouched;
    SetUntouched(mem, head, g, l, w);
    var mem' := Store(mem, g.node[Home(l)], l.i1, w);
    hide Store;
    UntouchedView(mem, head, g, mem');
    ReclaimSeen(mem', g.leaves, l);
    HeldUntouched(mem, head, g, mem', WithLeaf(g, l, w));
  }

  lemma ReclaimSeen(mem: Memory, leaves: map<Leaf, Word>, l: Leaf)
    requires Readable(mem, leaves) && l in leaves && leaves[l].cow
    ensures var w := PrivateWord(leaves[l], leaves[l].frame);
            Readable(mem, leaves[l := w]) && ViewOf(mem, leaves[l := w]) == ViewOf(mem, leaves)
  {
  }

  lemma HeldUntouched(mem: Memory, head: nat, g: Shape, mem': Memory, g': Shape)
    requires Ok(mem, head, g) && Untouched(mem, g, mem') && g'.role == g.role
    ensures HeldKept(mem, g, mem', g')
  {
    assert Backed(mem, g);
    hide Ok;
  }

  lemma SeesLeaf(mem: Memory, head: nat, g: Shape, l: Leaf)
    requires Ok(mem, head, g)
    ensures Readable(mem, g.leaves) && ViewOf(mem, g.leaves).Keys == g.leaves.Keys
    ensures l in g.leaves ==> ViewOf(mem, g.leaves)[l].mayWrite == (g.leaves[l].writable || g.leaves[l].cow)
  {
    OkIsReadable(mem, head, g);
    hide Ok;
  }

  lemma HeldStore(mem0: Memory, g0: Shape, mem: Memory, g: Shape, f: nat, content: Page)
    requires HeldKept(mem0, g0, mem, g) && f in g.role && g.role[f] == Data && f in mem
    ensures HeldKept(mem0, g0, mem[f := content], g)
  {
  }

  // --- uprooting ----------------------------------------------------------------------

  lemma ReleasedSelf(mem: Memory, head: nat, g: Shape)
    requires Ok(mem, head, g)
    ensures Released(mem, g, mem, g)
  {
    assert Backed(mem, g);
    hide Ok;
  }

  lemma NoCutAtRest(g: Shape, k: TableId)
    requires g.cut == map[]
    ensures NoCut(g, k)
  {
  }

  lemma UserHalfOnly(mem: Memory, head: nat, g: Shape, k: TableId)
    requires Ok(mem, head, g) && k in g.node
    ensures !k.L4? ==> L3(k.root) in g.node
  {
    hide Leaves, FreeList, FreeRoles, DataRoles;
    assert k.L1? ==> Hangs(mem, g, k);
    assert k.L1? ==> Hangs(mem, g, Parent(k));
    assert k.L2? ==> Hangs(mem, g, k);
  }

  lemma NothingBelow(mem: Memory, head: nat, g: Shape, root: nat)
    requires Ok(mem, head, g) && L4(root) in g.node && g.cut == map[] && L3(root) !in g.node
    ensures forall l | l in g.leaves :: l.root != root
    ensures forall k | k in g.node && k.root == root :: k == L4(root)
  {
    forall l | l in g.leaves
      ensures l.root != root
    {
      LeafHasHome(mem, head, g, l);
      PathMissing(mem, head, g, l);
    }
    forall k | k in g.node && k.root == root
      ensures k == L4(root)
    {
      UserHalfOnly(mem, head, g, k);
    }
  }

  lemma GoneFacts(mem0: Memory, head0: nat, g0: Shape, mem: Memory, head: nat, g: Shape, root: nat)
    requires Ok(mem0, head0, g0) && Gone(g0, g, L3(root)) && L4(root) in g0.node && g0.cut == map[]
    ensures g.cut == map[L4(root) := 1] && L4(root) in g.node
    ensures forall l :: l in g.leaves <==> l in g0.leaves && l.root != root
    ensures forall k :: k in g.node <==> k in g0.node && (k.root != root || k == L4(root))
  {
    hide Ok;
    assert forall l :: Under(L3(root), l) <==> l.root == root;
    assert forall k :: Within(L3(root), k) <==> k.root == root && !k.L4?;
  }

  lemma UprootSteps(mem: Memory, head: nat, g: Shape, root: nat)
    requires Ok(mem, head, g) && L4(root) in g.node && (g.cut == map[L4(root) := 1] || g.cut == map[])
    requires g.cut == map[] ==> L3(root) !in g.node
    ensures g.node[L4(root)] == root && root in mem && root in g.role
    ensures forall w :: Ok(Store(mem, root, 0, w), head, Pruned(g, L4(root), g.cut))
    ensures Pruned(g, L4(root), g.cut).cut == map[] && Pruned(g, L4(root), g.cut).role[root] == Held
  {
    RootFacts(mem, head, g, root);
    assert Sprouts(mem, g, L4(root), 0);
    UprootKeepsOk(mem, head, g, root);
    hide Ok;
    forall w
      ensures Ok(Store(mem, root, 0, w), head, Pruned(g, L4(root), g.cut))
    {
      ContentKeepsOk(mem, head, Pruned(g, L4(root), g.cut), root, mem[root][0 := w]);
    }
  }

  lemma UprootReleased(mem: Memory, head: nat, g: Shape, mem': Memory, root: nat)
    requires Ok(mem, head, g) && L4(root) in g.node && g.node[L4(root)] == root
    requires forall f | f in mem && f != root :: f in mem' && mem'[f] == mem[f]
    ensures Released(mem, g, mem', Pushed(Pruned(g, L4(root), g.cut), root))
  {
    RootFacts(mem, head, g, root);
    hide Ok;
    assert Pushed(Pruned(g, L4(root), g.cut), root).role.Keys == g.role.Keys;
  }

  lemma UprootReleases(mem0: Memory, g0: Shape, mem1: Memory, head1: nat, g1: Shape, mem: Memory, g: Shape, root: nat)
    requires Ok(mem1, head1, g1) && Released(mem0, g0, mem1, g1) && L4(root) in g1.node && g1.node[L4(root)] == root
    requires g == Pushed(Pruned(g1, L4(root), g1.cut), root)
    requires forall f | f in mem1 && f != root :: f in mem && mem[f] == mem1[f]
    ensures Released(mem0, g0, mem, g)
  {
    hide Ok, Released;
    UprootReleased(mem1, head1, g1, mem, root);
    ReleasedTwice(mem0, g0, mem1, g1, mem, g);
  }

  // --- unmapping ------------------------------------------------------------------------

  /** Only tables on the path to `l` have been given up; nothing else has changed role. */
  ghost predicate Trimmed(mem0: Memory, g0: Shape, mem: Memory, g: Shape, l: Leaf) {
    && g.leaves == g0.leaves && g.cut == g0.cut && g.role.Keys == g0.role.Keys
    && (forall k | k in g.node :: k in g0.node && g.node[k] == g0.node[k])
    && (forall k | k in g0.node && k !in g.node :: OnPath(l, k))
    && (forall f | f in g0.role && (g0.role[f] == Data || g0.role[f] == Held) ::
          g.role[f] == g0.role[f] && f in mem0 && f in mem && mem[f] == mem0[f])
    && |g.free| + |g.node| == |g0.free| + |g0.node|
  }

  lemma TrimmedSelf(mem: Memory, head: nat, g: Shape, l: Leaf)
    requires Ok(mem, head, g)
    ensures Trimmed(mem, g, mem, g, l)
  {
    assert Backed(mem, g);
    hide Ok;
  }

  lemma TrimTwice(mem0: Memory, g0: Shape, mem1: Memory, g1: Shape, mem2: Memory, g2: Shape, l: Leaf)
    requires Trimmed(mem0, g0, mem1, g1, l) && Trimmed(mem1, g1, mem2, g2, l)
    ensures Trimmed(mem0, g0, mem2, g2, l)
  {
  }

  lemma TrimmedFacts(mem0: Memory, g0: Shape, mem1: Memory, mem: Memory, g: Shape, l: Leaf)
    requires l in g0.leaves && Trimmed(mem1, WithoutLeaf(g0, l, g0.cut), mem, g, l)
    ensures g.leaves == g0.leaves - {l} && |g.free| + |g.node| == |g0.free| + |g0.node|
  {
  }

  lemma TrimRoles(mem: Memory, g: Shape, k: TableId, mem': Memory)
    requires Backed(mem, g) && k in g.node && !k.L4? && Parent(k) in g.node
    requires g.node[k] in g.role && g.role[g.node[k]] == TableOf(k)
    requires g.node[Parent(k)] in g.role && g.role[g.node[Parent(k)]] == TableOf(Parent(k))
    requires forall f | f in mem && f != g.node[k] && f != g.node[Parent(k)] :: f in mem' && mem'[f] == mem[f]
    ensures var g' := Pushed(Pruned(g, k, g.cut), g.node[k]);
            forall f | f in g.role && (g.role[f] == Data || g.role[f] == Held) ::
              f in g'.role && g'.role[f] == g.role[f] && f in mem && f in mem' && mem'[f] == mem[f]
  {
  }

  lemma OneTableLess(node: map<TableId, nat>, k: TableId)
    requires k in node
    ensures |node - {k}| == |node| - 1
  {
    var rest := node - {k};
    assert rest.Keys == node.Keys - {k};
  }

  lemma TrimSizes(g: Shape, k: TableId)
    requires g.cut == map[] && k in g.node && g.node[k] in g.role
    ensures var g' := Pushed(Pruned(g, k, g.cut), g.node[k]);
            g'.role.Keys == g.role.Keys && g'.node == g.node - {k} && |g'.node| == |g.node| - 1
            && |g'.free| == |g.free| + 1 && g'.leaves == g.leaves && g'.cut == g.cut
  {
    OneTableLess(g.node, k);
  }

  lemma TrimOne(mem: Memory, head: nat, g: Shape, k: TableId, mem': Memory, l: Leaf)
    requires Ok(mem, head, g) && k in g.node && !k.L4? && OnPath(l, k) && g.cut == map[] && Parent(k) in g.node
    requires forall f | f in mem && f != g.node[k] && f != g.node[Parent(k)] :: f in mem' && mem'[f] == mem[f]
    ensures Trimmed(mem, g, mem', Pushed(Pruned(g, k, g.cut), g.node[k]), l)
  {
    assert Backed(mem, g);
    TableIsTable(mem, head, g, k);
    TableIsTable(mem, head, g, Parent(k));
    hide Ok;
    TrimRoles(mem, g, k, mem');
    TrimSizes(g, k);
    hide Pushed, Pruned, Backed;
  }

  lemma TableIsTable(mem: Memory, head: nat, g: Shape, k: TableId)
    requires Ok(mem, head, g) && k in g.node
    ensures g.node[k] in mem && g.node[k] in g.role && g.role[g.node[k]] == TableOf(k)
  {
    hide Tree, Leaves, FreeList, FreeRoles, DataRoles;
  }

  /** Clearing a leaf keeps everything but the leaf and perhaps the role of its frame. */
  lemma ClearUntouched(mem: Memory, head: nat, g: Shape, l: Leaf)
    requires Ok(mem, head, g) && l in g.leaves
    ensures Home(l) in g.node && g.node[Home(l)] in mem
    ensures Untouched(mem, g, Store(mem, g.node[Home(l)], l.i1, ZERO))
    ensures WithoutLeaf(g, l, g.cut).role.Keys == g.role.Keys
  {
    LeafFacts(mem, head, g, l);
    HomeIsTable(mem, head, g, l);
    StoreUntouched(mem, g, g.node[Home(l)], l.i1, ZERO);
  }

  lemma EmptyIsBarren(mem: Memory, head: nat, g: Shape, k: TableId)
    requires Ok(mem, head, g) && k in g.node && g.cut == map[] && !k.L4?
    ensures g.node[k] in mem
    ensures Barren(mem, g, k) <==> forall i: Idx :: !mem[g.node[k]][i].present
  {
    hide Tree, Leaves, FreeList, FreeRoles, DataRoles;
  }

  lemma BarrenPrunes(mem: Memory, head: nat, g: Shape, k: TableId)
    requires Ok(mem, head, g) && k in g.node && !k.L4? && g.cut == map[]
    requires g.node[k] in mem && forall i: Idx :: !mem[g.node[k]][i].present
    ensures Parent(k) in g.node && g.node[Parent(k)] in mem && g.node[Parent(k)] != g.node[k]
    ensures Ok(Store(mem, g.node[Parent(k)], Index(k), ZERO), head, Pruned(g, k, g.cut))
    ensures Pruned(g, k, g.cut).role[g.node[k]] == Held && Pruned(g, k, g.cut).cut == map[]
  {
    EmptyIsBarren(mem, head, g, k);
    PruneByClearing(mem, head, g, k);
    TableIsTable(mem, head, g, k);
    TableIsTable(mem, head, g, Parent(k));
    hide Ok, Barren;
  }

  lemma WithoutFacts(g: Shape, l: Leaf)
    requires l in g.leaves
    ensures var g' := WithoutLeaf(g, l, g.cut); g'.node == g.node && g'.cut == g.cut && g'.free == g.free
  {
  }

  /** A table that was kept names something, and so do the tables above it. */
  lemma PathNotEmpty(mem: Memory, head: nat, g: Shape, l: Leaf, level: nat)
    requires Ok(mem, head, g) && level <= 3 && g.cut == map[]
    requires forall j | 0 <= j <= level :: PathId(l, j) in g.node
    requires forall j | level < j <= 3 :: PathId(l, j) !in g.node
    requires level > 0 ==> g.node[PathId(l, level)] in mem
                           && !forall i: Idx :: !mem[g.node[PathId(l, level)]][i].present
    ensures forall j | 1 <= j <= 3 && PathId(l, j) in g.node ::
              g.node[PathId(l, j)] in mem && !forall i: Idx :: !mem[g.node[PathId(l, j)]][i].present
  {
    forall j | 1 <= j <= 3 && PathId(l, j) in g.node
      ensures g.node[PathId(l, j)] in mem && !forall i: Idx :: !mem[g.node[PathId(l, j)]][i].present
    {
      assert j <= level;
      if j < level {
        PathStep(l, j);
        GatherEntry(mem, head, g, PathId(l, j), PathIndex(l, j));
      }
    }
  }

  // --- demand paging -----------------------------------------------------------------------

  function DemandWord(f: nat): Word { ZERO.(frame := f, present := true, user := true, writable := true) }

  /** What backing a promised page with frame `f` leaves behind, mapped or not. */
  ghost predicate Backing(mem0: Memory, g0: Shape, mem: Memory, g: Shape, l: Leaf, f: nat, ok: bool) {
    && Kept(g0, g) && (ok ==> HeldKept(mem0, g0, mem, g)) && (!ok ==> |g.free| == 0)
    && g.leaves == (if ok then g0.leaves[l := DemandWord(f)] else g0.leaves)
    && Readable(mem0, g0.leaves) && Readable(mem, g.leaves)
    && ViewOf(mem, g.leaves) == (if ok then ViewOf(mem0, g0.leaves)[l := Seen(Blank(), true, true, false)]
                                 else ViewOf(mem0, g0.leaves))
  }

  lemma FreshMapped(mem0: Memory, head0: nat, g0: Shape, head1: nat, g1: Shape, mem: Memory, head: nat, g: Shape,
                    l: Leaf, f: nat, r: MapResult)
    requires Ok(mem0, head0, g0) && |g0.free| > 0 && g1 == Popped(g0) && Ok(mem0, head1, g1) && Ok(mem, head, g)
    requires f == g0.free[|g0.free| - 1] && l !in g0.leaves && MapOutcome(mem0, g1, mem, g, l, DemandWord(f), r)
    ensures r != AlreadyMapped && (r == Done <==> Missing(g0, l) < |g0.free|)
    ensures r != Done ==> Backing(mem0, g0, mem, g, l, f, false)
    ensures r == Done ==> Ok(mem[f := Blank()], head, g) && Backing(mem0, g0, mem[f := Blank()], g, l, f, true)
  {
    OkIsReadable(mem0, head0, g0);
    FreshPopped(mem0, head0, g0, l);
    FreeIsFree(mem0, head0, g0);
    hide Ok, ViewOf, Readable, Popped, Missing, Extended, Untouched, WithLeaf, HeldKept, Kept;
    if r == Done {
      var mid :| MapDone(mem0, g1, mem, g, l, DemandWord(f), mid);
      FreshDone(mem0, head1, g1, mem, head, mid, l, f);
      GrownKeeps(mem0, head1, g1, mem, mid, g, l, f);
      ExtendedFacts(mem0, head1, g1, mem, mid, l);
      FreshHeld(mem0, g0, mem, mid, l, f);
      KeptPopped(g0, g);
    } else {
      GrownKeeps(mem0, head1, g1, mem, g, g, l, f);
      ExtendedFacts(mem0, head1, g1, mem, g, l);
      UntouchedView(mem0, head1, g1, mem);
      KeptPopped(g0, g);
    }
  }

  lemma KeptPopped(g0: Shape, g: Shape)
    requires |g0.free| > 0 && Kept(Popped(g0), g)
    ensures Kept(g0, g)
  {
  }

  lemma GrownKeeps(mem0: Memory, head1: nat, g1: Shape, mem: Memory, mid: Shape, g: Shape, l: Leaf, f: nat)
    requires Ok(mem0, head1, g1) && Extended(mem0, g1, mem, mid, l)
             && (g == mid || g == WithLeaf(mid, l, DemandWord(f)))
    ensures Kept(g1, g)
  {
    hide Ok, Untouched;
  }

  lemma FreshHeld(mem0: Memory, g0: Shape, mem: Memory, mid: Shape, l: Leaf, f: nat)
    requires |g0.free| > 0 && f == g0.free[|g0.free| - 1] && f in g0.role && g0.role[f].FreeAt?
    requires HeldKept(mem0, Popped(g0), mem, mid)
    ensures HeldKept(mem0, g0, mem[f := Blank()], WithLeaf(mid, l, DemandWord(f)))
  {
    var role := WithLeaf(mid, l, DemandWord(f)).role;
    assert role == mid.role[f := Data];
    assert Popped(g0).role == g0.role[f := Held];
    hide WithLeaf, Popped;
    assert role.Keys == g0.role.Keys;
  }

  lemma FreshPopped(mem: Memory, head: nat, g: Shape, l: Leaf)
    requires Ok(mem, head, g) && |g.free| > 0
    ensures var g', f := Popped(g), g.free[|g.free| - 1];
            && g'.leaves == g.leaves && g'.node == g.node && g'.cut == g.cut && |g'.free| == |g.free| - 1
            && Missing(g', l) == Missing(g, l) && f in g'.role && g'.role[f] == Held
  {
  }

  lemma FreshDone(mem0: Memory, head1: nat, g1: Shape, mem: Memory, head: nat, mid: Shape, l: Leaf, f: nat)
    requires Ok(mem0, head1, g1) && Extended(mem0, g1, mem, mid, l) && f in g1.role && g1.role[f] == Held
    requires Ok(mem, head, WithLeaf(mid, l, DemandWord(f))) && l !in g1.leaves
    ensures var g := WithLeaf(mid, l, DemandWord(f));
            && g.leaves == g1.leaves[l := DemandWord(f)]
            && Ok(mem[f := Blank()], head, g)
            && Readable(mem0, g1.leaves) && Readable(mem[f := Blank()], g.leaves)
            && ViewOf(mem[f := Blank()], g.leaves) == ViewOf(mem0, g1.leaves)[l := Seen(Blank(), true, true, false)]
  {
    ExtendedFacts(mem0, head1, g1, mem, mid, l);
    FreshHasNoOwner(mem0, head1, g1, f);
    OkIsReadable(mem0, head1, g1);
    hide Ok, Extended, Untouched;
    var g := WithLeaf(mid, l, DemandWord(f));
    ContentKeepsOk(mem, head, g, f, Blank());
    UntouchedView(mem0, head1, g1, mem);
    BlankSeen(mem, g1.leaves, l, f);
  }

  lemma BlankSeen(mem: Memory, leaves: map<Leaf, Word>, l: Leaf, f: nat)
    requires Readable(mem, leaves) && Owners(leaves, f) == {} && l !in leaves
    ensures Readable(mem[f := Blank()], leaves[l := DemandWord(f)])
    ensures ViewOf(mem[f := Blank()], leaves[l := DemandWord(f)]) ==
              ViewOf(mem, leaves)[l := Seen(Blank(), true, true, false)]
  {
    forall m | m in leaves
      ensures leaves[m].frame != f
    {
      assert m !in Owners(leaves, f);
    }
  }
}
