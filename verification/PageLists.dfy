/** Listing the pages of an address space, and forking it page by page. */
module PageLists {
  import opened Frames
  import opened FrameTables
  import opened Sharing
  import opened Spaces
  import opened PageWalk

  /** A present page, the entry a walk read for it, and the table that entry is in. */
  datatype PageRef = PageRef(leaf: Leaf, word: Word, table: nat)

  ghost predicate RefOk(g: Shape, p: PageRef) {
    && p.leaf in g.leaves && p.word == g.leaves[p.leaf]
    && Home(p.leaf) in g.node && p.table == g.node[Home(p.leaf)]
  }

  ghost predicate Has(out: seq<PageRef>, l: Leaf) {
    exists j :: 0 <= j < |out| && out[j].leaf == l
  }

  /** `out` lists, once each, the pages reached through entries of `k` below `n`. */
  ghost predicate Listing(g: Shape, k: TableId, n: nat, out: seq<PageRef>) {
    && (forall j | 0 <= j < |out| :: RefOk(g, out[j]) && Under(k, out[j].leaf) && IndexIn(k, out[j].leaf) < n)
    && (forall i, j | 0 <= i < j < |out| :: out[i].leaf != out[j].leaf)
    && (forall l | l in g.leaves && Under(k, l) && IndexIn(k, l) < n :: Has(out, l))
  }

  lemma ListingAppend(g: Shape, k: TableId, i: Idx, out: seq<PageRef>, sub: seq<PageRef>)
    requires !k.L1? && UserSlot(k, i) && Listing(g, k, i, out) && Listing(g, Child(k, i), 512, sub)
    ensures Listing(g, k, i + 1, out + sub)
  {
    var all, c := out + sub, Child(k, i);
    forall j | 0 <= j < |all|
      ensures RefOk(g, all[j]) && Under(k, all[j].leaf) && IndexIn(k, all[j].leaf) < i + 1
      ensures j >= |out| ==> IndexIn(k, all[j].leaf) == i
    {
      if j < |out| { assert all[j] == out[j]; } else { assert all[j] == sub[j - |out|]; }
      UnderChild(k, i, all[j].leaf);
    }
    forall a, b | 0 <= a < b < |all|
      ensures all[a].leaf != all[b].leaf
    {
      if b < |out| { assert all[a] == out[a] && all[b] == out[b]; }
      else if a >= |out| { assert all[a] == sub[a - |out|] && all[b] == sub[b - |out|]; }
      else { assert all[a] == out[a]; }
    }
    forall l | l in g.leaves && Under(k, l) && IndexIn(k, l) < i + 1
      ensures Has(all, l)
    {
      UnderChild(k, i, l);
      if IndexIn(k, l) < i {
        var j :| 0 <= j < |out| && out[j].leaf == l;
        assert all[j].leaf == l;
      } else {
        assert Has(sub, l);
        var j :| 0 <= j < |sub| && sub[j].leaf == l;
        assert all[|out| + j].leaf == l;
      }
    }
  }

  lemma ListingSkip(g: Shape, k: TableId, i: Idx, out: seq<PageRef>)
    requires Listing(g, k, i, out) && forall l | l in g.leaves && Under(k, l) :: IndexIn(k, l) != i
    ensures Listing(g, k, i + 1, out)
  {
  }

  lemma ListingLeaf(g: Shape, i: Idx, out: seq<PageRef>, p: PageRef)
    requires RefOk(g, p) && p.leaf.i1 == i && Listing(g, Home(p.leaf), i, out)
    ensures Listing(g, Home(p.leaf), i + 1, out + [p])
  {
    var k, all := Home(p.leaf), out + [p];
    forall j | 0 <= j < |all|
      ensures RefOk(g, all[j]) && Under(k, all[j].leaf) && IndexIn(k, all[j].leaf) < i + 1
      ensures j < |out| ==> all[j] == out[j]
    {
    }
    forall l | l in g.leaves && Under(k, l) && IndexIn(k, l) < i + 1
      ensures Has(all, l)
    {
      if IndexIn(k, l) == i {
        assert l == p.leaf && all[|out|].leaf == l;
      } else {
        var j :| 0 <= j < |out| && out[j].leaf == l;
        assert all[j].leaf == l;
      }
    }
  }

  // --- forking one page ---------------------------------------------------------

  /** A page that was writable becomes read-only and copy-on-write; any other stays as it is. */
  function SharedWord(w: Word): Word {
    if w.writable then w.(writable := false, cow := true) else w
  }

  lemma SharedIsReadOnly(w: Word)
    ensures !SharedWord(w).writable && SharedWord(w).frame == w.frame && SharedWord(w).present == w.present
  {
  }

  /** The leaves after `l` has been shared, and after it has also been mapped at `c`. */
  function ShareLeaf(leaves: map<Leaf, Word>, l: Leaf): map<Leaf, Word>
    requires l in leaves
  {
    leaves[l := SharedWord(leaves[l])]
  }

  lemma ShareLeafKeeps(table: map<nat, nat>, leaves: map<Leaf, Word>, l: Leaf)
    requires Counted(table, leaves) && Private(leaves) && l in leaves
    ensures Counted(table, ShareLeaf(leaves, l)) && Private(ShareLeaf(leaves, l))
  {
    assert leaves[l].cow ==> !leaves[l].writable;
    SetFlags(table, leaves, l, SharedWord(leaves[l]));
  }

  lemma ShareLeafSeen(mem: Memory, leaves: map<Leaf, Word>, l: Leaf)
    requires Readable(mem, leaves) && l in leaves
    ensures Readable(mem, ShareLeaf(leaves, l)) && ViewOf(mem, ShareLeaf(leaves, l)) == ViewOf(mem, leaves)
  {
  }

  /** Pages `0..n` of the list have been mapped in the child; nobody can tell. */
  ghost predicate Forked(v0: View, parent: nat, child: nat, pages: seq<PageRef>, n: nat, v: View) {
    && n <= |pages|
    && (forall l | l in v0 :: l in v && v[l] == v0[l])
    && (forall j | 0 <= j < n :: pages[j].leaf in v0 && Reroot(pages[j].leaf, child) in v)
    && (forall l | l in v && l !in v0 :: l.root == child && Reroot(l, parent) in v0 && v[l] == v0[Reroot(l, parent)]
                                         && exists j :: 0 <= j < n && pages[j].leaf == Reroot(l, parent))
  }

  lemma ForkedOne(v0: View, parent: nat, child: nat, pages: seq<PageRef>, n: nat, v: View, v': View)
    requires Forked(v0, parent, child, pages, n, v) && n < |pages|
    requires pages[n].leaf in v0 && pages[n].leaf.root == parent && pages[n].leaf in v
    requires Reroot(pages[n].leaf, child) !in v
    requires v' == v[Reroot(pages[n].leaf, child) := v[pages[n].leaf]]
    ensures Forked(v0, parent, child, pages, n + 1, v')
  {
    var c := Reroot(pages[n].leaf, child);
    assert Reroot(c, parent) == pages[n].leaf;
    forall l | l in v' && l !in v0
      ensures l.root == child && Reroot(l, parent) in v0 && v'[l] == v0[Reroot(l, parent)]
      ensures exists j :: 0 <= j < n + 1 && pages[j].leaf == Reroot(l, parent)
    {
      if l != c {
        var j :| 0 <= j < n && pages[j].leaf == Reroot(l, parent);
      }
    }
  }

  lemma ForkedAll(v0: View, parent: nat, child: nat, pages: seq<PageRef>, v: View)
    requires Forked(v0, parent, child, pages, |pages|, v)
    requires forall l | l in v0 && l.root == parent :: Has(pages, l)
    requires forall l | l in v0 :: l.root != child
    ensures EagerFork(v0, parent, child, v)
  {
    forall l: Leaf | l.root == child && Reroot(l, parent) in v0
      ensures l in v
    {
      var j :| 0 <= j < |pages| && pages[j].leaf == Reroot(l, parent);
      assert Reroot(pages[j].leaf, child) == l;
    }
  }

  /** A child page not yet forked is not there. */
  lemma NotYetForked(v0: View, parent: nat, child: nat, pages: seq<PageRef>, n: nat, v: View)
    requires Forked(v0, parent, child, pages, n, v) && n < |pages| && pages[n].leaf.root == parent
    requires forall i, j | 0 <= i < j < |pages| :: pages[i].leaf != pages[j].leaf
    requires forall l | l in v0 :: l.root != child
    ensures Reroot(pages[n].leaf, child) !in v
  {
    var c := Reroot(pages[n].leaf, child);
    assert Reroot(c, parent) == pages[n].leaf;
  }

  // --- lemmas the code leans on ---------------------------------------------------

  /** What a listing walk reads at entry `i` of `k`. */
  lemma GatherEntry(mem: Memory, head: nat, g: Shape, k: TableId, i: Idx)
    requires Ok(mem, head, g) && k in g.node && g.cut == map[] && UserSlot(k, i)
    ensures g.node[k] in mem
    ensures var e := mem[g.node[k]][i];
            if k.L1? then
              var l := Leaf(k.root, k.i3, k.i2, i);
              (e.present <==> l in g.leaves) && (e.present ==> RefOk(g, PageRef(l, e, g.node[k])))
            else
              && (e.present <==> Child(k, i) in g.node)
              && (e.present ==> !e.huge && e.frame == g.node[Child(k, i)])
    ensures !mem[g.node[k]][i].present ==> forall l | l in g.leaves && Under(k, l) :: IndexIn(k, l) != i
  {
    if k.L1? {
      var l := Leaf(k.root, k.i3, k.i2, i);
      assert Tracked(mem, g, l);
      assert l in g.leaves ==> LeafOk(mem, g, l);
      assert forall m | Under(k, m) && IndexIn(k, m) == i :: m == l;
    } else {
      assert Sprouts(mem, g, k, i);
      assert Child(k, i) in g.node ==> Hangs(mem, g, Child(k, i));
      hide FreeRoles, DataRoles, FreeList;
      forall l | l in g.leaves && Under(k, l) && Child(k, i) !in g.node
        ensures IndexIn(k, l) != i
      {
        LeafHasHome(mem, head, g, l);
        PathMissing(mem, head, g, l);
      }
    }
  }

  /** Writing a leaf entry leaves every data frame alone. */
  lemma SetUntouched(mem: Memory, head: nat, g: Shape, l: Leaf, w: Word)
    requires Ok(mem, head, g) && l in g.leaves && g.cut == map[] && w.present && w.frame == g.leaves[l].frame
    ensures Home(l) in g.node && g.node[Home(l)] in mem
    ensures Ok(Store(mem, g.node[Home(l)], l.i1, w), head, WithLeaf(g, l, w))
    ensures Untouched(mem, g, Store(mem, g.node[Home(l)], l.i1, w))
    ensures WithLeaf(g, l, w).role == g.role
  {
    LeafFacts(mem, head, g, l);
    HomeIsTable(mem, head, g, l);
    StoreUntouched(mem, g, g.node[Home(l)], l.i1, w);
    hide Tree, Leaves, FreeList, FreeRoles, DataRoles, TableRoles, Backed, Untouched;
    SetKeepsOk(mem, head, g, l, w);
    assert g.role[w.frame := Data] == g.role;
  }

  lemma StoreUntouched(mem: Memory, g: Shape, f: nat, i: Idx, w: Word)
    requires f in mem && f in g.role && g.role[f].TableOf?
    ensures Untouched(mem, g, Store(mem, f, i, w))
  {
  }

  lemma HomeIsTable(mem: Memory, head: nat, g: Shape, l: Leaf)
    requires Ok(mem, head, g) && Home(l) in g.node
    ensures g.node[Home(l)] in g.role && g.role[g.node[Home(l)]] == TableOf(Home(l))
  {
    hide Tree, Leaves, FreeList, FreeRoles, DataRoles;
  }

  lemma UntouchedView(mem: Memory, head: nat, g: Shape, mem': Memory)
    requires Ok(mem, head, g) && Untouched(mem, g, mem')
    ensures Readable(mem, g.leaves) && Readable(mem', g.leaves) && ViewOf(mem', g.leaves) == ViewOf(mem, g.leaves)
  {
    hide Tree, Leaves, FreeList, FreeRoles, TableRoles;
    assert Readable(mem, g.leaves) && Readable(mem', g.leaves);
    assert forall l | l in g.leaves :: mem'[g.leaves[l].frame] == mem[g.leaves[l].frame];
    hide DataRoles, Untouched;
    SameView(mem, g.leaves, mem', g.leaves);
  }

  lemma ViewAdd(mem: Memory, leaves: map<Leaf, Word>, c: Leaf, w: Word, l: Leaf)
    requires Readable(mem, leaves) && l in leaves && SeenAsSame(leaves[l], w)
    ensures Readable(mem, leaves[c := w])
            && ViewOf(mem, leaves[c := w]) == ViewOf(mem, leaves)[c := ViewOf(mem, leaves)[l]]
  {
  }

  predicate SeenAsSame(a: Word, b: Word) {
    && a.frame == b.frame && (a.writable || a.cow) == (b.writable || b.cow)
    && a.user == b.user && a.noExecute == b.noExecute
  }

  lemma RootFacts(mem: Memory, head: nat, g: Shape, root: nat)
    requires Ok(mem, head, g) && L4(root) in g.node
    ensures g.node[L4(root)] == root && root in mem && root in g.role && g.role[root] == TableOf(L4(root))
  {
    hide Tree, Leaves, FreeList, FreeRoles, DataRoles;
  }

  lemma UntouchedSelf(mem: Memory, head: nat, g: Shape)
    requires Ok(mem, head, g)
    ensures Untouched(mem, g, mem)
  {
  }

  lemma PoppedFacts(mem: Memory, head: nat, g: Shape, root: nat)
    requires Ok(mem, head, g) && |g.free| > 0 && L4(root) in g.node
    ensures root != g.free[|g.free| - 1]
  {
    hide Tree, Leaves, FreeList, DataRoles;
    assert g.role[g.free[|g.free| - 1]] == FreeAt(|g.free| - 1);
    assert g.node[L4(root)] == root && g.role[root] == TableOf(L4(root));
  }

  lemma NewRootUntouched(mem: Memory, head: nat, g: Shape, root: nat, page: Page)
    requires Ok(mem, head, g) && |g.free| > 0 && root == g.free[|g.free| - 1]
    ensures Untouched(mem, g, mem[root := page])
    ensures Readable(mem, g.leaves) && Readable(mem[root := page], g.leaves)
    ensures ViewOf(mem[root := page], g.leaves) == ViewOf(mem, g.leaves)
  {
    assert g.role[root] == FreeAt(|g.free| - 1) by { hide Tree, Leaves, FreeList, DataRoles; }
    hide Tree, Leaves, FreeList, FreeRoles, TableRoles, DataRoles;
    UntouchedView(mem, head, g, mem[root := page]);
  }

  lemma ListingEmpty(g: Shape, k: TableId)
    ensures Listing(g, k, 0, [])
  {
  }

  lemma ListingWhole(g: Shape, root: nat, out: seq<PageRef>)
    requires Listing(g, L4(root), 1, out)
    ensures Listing(g, L4(root), 512, out)
  {
  }

  lemma LeafFacts(mem: Memory, head: nat, g: Shape, l: Leaf)
    requires Ok(mem, head, g) && l in g.leaves
    ensures Home(l) in g.node && g.node[Home(l)] in mem && g.leaves[l].present
    ensures mem[g.node[Home(l)]][l.i1] == g.leaves[l]
    ensures g.leaves[l].frame in g.role && g.role[g.leaves[l].frame] == Data && g.leaves[l].frame in mem
  {
    assert LeafOk(mem, g, l);
    hide Tree, Leaves, FreeList, FreeRoles;
  }

  /** The frames in hand are the same ones, contents and all. */
  ghost predicate HeldKept(mem0: Memory, g0: Shape, mem: Memory, g: Shape) {
    && g.role.Keys == g0.role.Keys
    && (forall f | f in g0.role :: g.role[f] == Held <==> g0.role[f] == Held)
    && (forall f | f in g0.role && g0.role[f] == Held :: f in mem0 && f in mem && mem[f] == mem0[f])
  }

  /** No table has moved and there is no new root. */
  ghost predicate Kept(g0: Shape, g: Shape) {
    && (forall k | k in g0.node :: k in g.node && g.node[k] == g0.node[k])
    && (forall k | k in g.node && k.L4? :: k in g0.node)
  }

  lemma ExtendedFacts(mem0: Memory, head0: nat, g0: Shape, mem: Memory, g: Shape, c: Leaf)
    requires Ok(mem0, head0, g0) && Extended(mem0, g0, mem, g, c)
    ensures g.leaves == g0.leaves && Untouched(mem0, g0, mem) && Kept(g0, g) && HeldKept(mem0, g0, mem, g)
  {
    assert Backed(mem0, g0);
    hide Ok;
  }

  lemma StoreSame(mem: Memory, f: nat, i: Idx)
    requires f in mem
    ensures Store(mem, f, i, mem[f][i]) == mem
  {
    assert mem[f][i := mem[f][i]] == mem[f];
  }

  /** Memory after the parent's entry has been shared: unchanged if the page was read-only already. */
  ghost function SharedMem(mem: Memory, g: Shape, l: Leaf): Memory
    requires l in g.leaves && Home(l) in g.node && g.node[Home(l)] in mem
  {
    if g.leaves[l].writable then Store(mem, g.node[Home(l)], l.i1, SharedWord(g.leaves[l])) else mem
  }

  lemma ShareStep(mem: Memory, head: nat, g: Shape, l: Leaf)
    requires Ok(mem, head, g) && l in g.leaves && g.cut == map[]
    ensures Home(l) in g.node && g.node[Home(l)] in mem && g.leaves[l].present
    ensures Ok(SharedMem(mem, g, l), head, WithLeaf(g, l, SharedWord(g.leaves[l])))
    ensures Untouched(mem, g, SharedMem(mem, g, l))
    ensures WithLeaf(g, l, SharedWord(g.leaves[l])).role == g.role
  {
    LeafFacts(mem, head, g, l);
    hide Ok, Untouched, Store, WithLeaf;
    SetUntouched(mem, head, g, l, SharedWord(g.leaves[l]));
    StoreSame(mem, g.node[Home(l)], l.i1);
  }

  /** Sharing the parent's entry changes nothing anybody sees. */
  lemma ShareSeen(mem: Memory, head: nat, g: Shape, l: Leaf, mem': Memory)
    requires Ok(mem, head, g) && l in g.leaves && Untouched(mem, g, mem')
    ensures Readable(mem, g.leaves) && Readable(mem', ShareLeaf(g.leaves, l))
    ensures ViewOf(mem', ShareLeaf(g.leaves, l)) == ViewOf(mem, g.leaves)
  {
    hide Ok, ViewOf, Untouched;
    UntouchedView(mem, head, g, mem');
    ShareLeafSeen(mem', g.leaves, l);
  }

  /** What mapping a second name for a mapped frame leaves behind. */
  ghost predicate Joined(mem0: Memory, g0: Shape, mem: Memory, g: Shape, c: Leaf, w: Word, done: bool) {
    && g.leaves == (if done then g0.leaves[c := w] else g0.leaves)
    && Untouched(mem0, g0, mem) && Kept(g0, g) && HeldKept(mem0, g0, mem, g)
    && (!done ==> |g.free| == 0)
  }

  lemma MapJoins(mem0: Memory, head0: nat, g0: Shape, mem: Memory, g: Shape, c: Leaf, w: Word, l: Leaf, r: MapResult)
    requires Ok(mem0, head0, g0) && l in g0.leaves && g0.leaves[l] == w && w.present
    requires c !in g0.leaves && MapOutcome(mem0, g0, mem, g, c, w, r)
    ensures r != AlreadyMapped && Joined(mem0, g0, mem, g, c, w, r == Done)
  {
    LeafFacts(mem0, head0, g0, l);
    hide Ok, Missing, Extended, Untouched, WithLeaf, Joined;
    if r == Done {
      var mid :| MapDone(mem0, g0, mem, g, c, w, mid);
      DoneJoins(mem0, head0, g0, mem, mid, c, w);
    } else {
      NotDoneJoins(mem0, head0, g0, mem, g, c, w);
    }
  }

  lemma NotDoneJoins(mem0: Memory, head0: nat, g0: Shape, mem: Memory, g: Shape, c: Leaf, w: Word)
    requires Ok(mem0, head0, g0) && Extended(mem0, g0, mem, g, c) && |g.free| == 0
    ensures Joined(mem0, g0, mem, g, c, w, false)
  {
    hide Ok, Extended, Untouched;
    ExtendedFacts(mem0, head0, g0, mem, g, c);
  }

  lemma DoneJoins(mem0: Memory, head0: nat, g0: Shape, mem: Memory, mid: Shape, c: Leaf, w: Word)
    requires Ok(mem0, head0, g0) && Extended(mem0, g0, mem, mid, c) && w.frame in g0.role && g0.role[w.frame] == Data
    ensures Joined(mem0, g0, mem, WithLeaf(mid, c, w), c, w, true)
  {
    hide Ok, Extended, Untouched;
    ExtendedFacts(mem0, head0, g0, mem, mid, c);
    assert mid.role[w.frame := Data].Keys == mid.role.Keys;
  }

  /** Mapping the child's page shows it what the parent sees. */
  lemma JoinSeen(mem0: Memory, head0: nat, g0: Shape, mem: Memory, head: nat, g: Shape, c: Leaf, w: Word, l: Leaf,
                 done: bool)
    requires Ok(mem0, head0, g0) && Ok(mem, head, g) && l in g0.leaves && g0.leaves[l] == w
    requires Joined(mem0, g0, mem, g, c, w, done)
    ensures Readable(mem0, g0.leaves) && Readable(mem, g.leaves)
    ensures ViewOf(mem, g.leaves) == var v := ViewOf(mem0, g0.leaves); if done then v[c := v[l]] else v
  {
    OkIsReadable(mem, head, g);
    hide Ok, ViewOf, Untouched, Readable;
    UntouchedView(mem0, head0, g0, mem);
    if done { ViewAdd(mem, g0.leaves, c, w, l); }
  }

  /** Forking a page moves no table, changes no other entry of an existing space, and touches nothing in hand. */
  ghost predicate PageForked(mem0: Memory, g0: Shape, mem: Memory, g: Shape, l: Leaf) {
    && Kept(g0, g) && HeldKept(mem0, g0, mem, g)
    && (forall x | x in g0.leaves && x != l :: x in g.leaves && g.leaves[x] == g0.leaves[x])
  }

  lemma WithLeafFacts(g: Shape, l: Leaf, w: Word)
    requires l in g.leaves && w == SharedWord(g.leaves[l])
    ensures var g' := WithLeaf(g, l, w);
            g'.node == g.node && g'.cut == g.cut && g'.free == g.free && g'.leaves == ShareLeaf(g.leaves, l)
  {
  }

  lemma JoinedFacts(mem0: Memory, head0: nat, g0: Shape, mem1: Memory, g1: Shape, mem: Memory, g: Shape,
                    c: Leaf, l: Leaf, w: Word, done: bool)
    requires Ok(mem0, head0, g0) && l in g0.leaves && c !in g0.leaves
    requires Untouched(mem0, g0, mem1) && g1.role == g0.role && g1.node == g0.node
             && g1.leaves == ShareLeaf(g0.leaves, l)
    requires Joined(mem1, g1, mem, g, c, w, done)
    ensures PageForked(mem0, g0, mem, g, l) && g.leaves == if done then g1.leaves[c := w] else g1.leaves
    ensures !done ==> |g.free| == 0
  {
    hide Ok, Untouched, HeldKept, Kept, SharedWord;
    HeldAfterSharing(mem0, head0, g0, mem1, g1, mem, g);
    KeptSame(g0, g1, g);
  }

  lemma KeptSame(g0: Shape, g1: Shape, g: Shape)
    requires g1.node == g0.node && Kept(g1, g)
    ensures Kept(g0, g)
  {
  }

  lemma HeldAfterSharing(mem0: Memory, head0: nat, g0: Shape, mem1: Memory, g1: Shape, mem: Memory, g: Shape)
    requires Ok(mem0, head0, g0) && Untouched(mem0, g0, mem1) && g1.role == g0.role && HeldKept(mem1, g1, mem, g)
    ensures HeldKept(mem0, g0, mem, g)
  {
    assert Backed(mem0, g0);
    hide Ok;
  }

  lemma KeptSelf(g: Shape)
    ensures Kept(g, g)
  {
  }

  lemma HeldSelf(mem: Memory, head: nat, g: Shape)
    requires Ok(mem, head, g)
    ensures HeldKept(mem, g, mem, g)
  {
    assert Backed(mem, g);
    hide Ok;
  }

  lemma HeldForked(mem0: Memory, g0: Shape, mem1: Memory, g1: Shape, mem: Memory, g: Shape, l: Leaf)
    requires HeldKept(mem0, g0, mem1, g1) && PageForked(mem1, g1, mem, g, l)
    ensures HeldKept(mem0, g0, mem, g) && Kept(g1, g)
  {
  }

  lemma NewSpaceFacts(mem0: Memory, head0: nat, g0: Shape, mem: Memory, head: nat, g: Shape, child: nat)
    requires Ok(mem0, head0, g0) && Ok(mem, head, g) && |g0.free| > 0 && g == Planted(Popped(g0), child)
    requires child == g0.free[|g0.free| - 1] && Untouched(mem0, g0, mem) && L4(child) !in g0.node
    ensures HeldKept(mem0, g0, mem, g) && g.leaves == g0.leaves && g.cut == g0.cut && L4(child) in g.node
    ensures Kept(g0, g.(node := g.node - {L4(child)}))
    ensures forall l | l in g0.leaves :: l.root != child
  {
    assert Backed(mem0, g0);
    assert g0.role[child] == FreeAt(|g0.free| - 1) by { hide Tree, Leaves, FreeList, DataRoles, TableRoles; }
    forall l | l in g0.leaves
      ensures l.root != child
    {
      LeafHasHome(mem0, head0, g0, l);
      PathMissing(mem0, head0, g0, l);
    }
    hide Ok;
    NewSpaceHeld(mem0, g0, mem, child);
  }

  lemma NewSpaceHeld(mem0: Memory, g0: Shape, mem: Memory, child: nat)
    requires Backed(mem0, g0) && |g0.free| > 0 && child == g0.free[|g0.free| - 1] && L4(child) !in g0.node
    requires child in g0.role && g0.role[child].FreeAt? && Untouched(mem0, g0, mem)
    ensures var g := Planted(Popped(g0), child);
            HeldKept(mem0, g0, mem, g) && Kept(g0, g.(node := g.node - {L4(child)}))
  {
    var g := Planted(Popped(g0), child);
    assert g.role == g0.role[child := TableOf(L4(child))];
  }

  /** Frame 0 is never a root. */
  lemma ZeroIsNoRoot(mem: Memory, head: nat, g: Shape)
    requires Ok(mem, head, g)
    ensures L4(0) !in g.node && g.node - {L4(0)} == g.node
  {
    hide Tree, Leaves, FreeList, DataRoles;
  }

  lemma ForkedNothing(v0: View, parent: nat, child: nat, pages: seq<PageRef>)
    ensures Forked(v0, parent, child, pages, 0, v0)
  {
  }

  lemma ListingFacts(g: Shape, root: nat, list: seq<PageRef>, leaves: map<Leaf, Word>)
    requires Listing(g, L4(root), 512, list) && g.leaves == leaves
    ensures forall j | 0 <= j < |list| :: RefOk(g, list[j]) && list[j].leaf.root == root && list[j].leaf in leaves
    ensures forall i, j | 0 <= i < j < |list| :: list[i].leaf != list[j].leaf
    ensures forall l | l in leaves && l.root == root :: Has(list, l)
  {
  }

  lemma RefsKept(mem0: Memory, g0: Shape, mem: Memory, g: Shape, list: seq<PageRef>, n: nat)
    requires n < |list| && PageForked(mem0, g0, mem, g, list[n].leaf)
    requires forall j | n <= j < |list| :: RefOk(g0, list[j])
    requires forall i, j | 0 <= i < j < |list| :: list[i].leaf != list[j].leaf
    ensures forall j | n + 1 <= j < |list| :: RefOk(g, list[j])
  {
    forall j | n + 1 <= j < |list|
      ensures RefOk(g, list[j])
    {
      assert RefOk(g0, list[j]);
    }
  }

  lemma SeesKeys(mem: Memory, head: nat, g: Shape)
    requires Ok(mem, head, g)
    ensures Readable(mem, g.leaves) && ViewOf(mem, g.leaves).Keys == g.leaves.Keys
  {
    OkIsReadable(mem, head, g);
  }
}
