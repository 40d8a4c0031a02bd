/** Growing and pruning page-table trees: each edit of one entry and the change of role it makes. */
module FrameTables {
  import opened Frames

  /** Everything but the free list. */
  ghost predicate Mapped(mem: Memory, g: Shape) {
    TableRoles(g) && FreeRoles(g) && DataRoles(g) && Backed(mem, g) && Tree(mem, g) && Leaves(mem, g)
  }

  lemma TablesAreDistinct(g: Shape, j: TableId, k: TableId)
    requires TableRoles(g) && j in g.node && k in g.node && g.node[j] == g.node[k]
    ensures j == k
  {
    assert g.role[g.node[j]] == TableOf(j) && g.role[g.node[k]] == TableOf(k);
  }

  lemma ChildOfParent(k: TableId)
    requires !k.L4?
    ensures !Parent(k).L1? && UserSlot(Parent(k), Index(k)) && Child(Parent(k), Index(k)) == k
  {
  }

  /** The free list is read from free frames alone. */
  lemma FreeFrame(mem: Memory, head: nat, g: Shape, mem': Memory, g': Shape)
    requires Backed(mem, g) && FreeRoles(g) && FreeList(mem, head, g)
    requires Backed(mem', g') && FreeRoles(g') && g'.free == g.free
    requires forall f | f in g'.role && g'.role[f].FreeAt? ::
               f in g.role && g.role[f] == g'.role[f] && mem'[f] == mem[f]
    ensures FreeList(mem', head, g')
  {
  }

  // --- a new table -----------------------------------------------------------

  ghost predicate NoEntries(mem: Memory, f: nat)
    requires f in mem
  {
    forall i: Idx :: !mem[f][i].present
  }

  /** `f` becomes table `k`, named by the word `w` in its parent. */
  ghost function Grafted(g: Shape, k: TableId, f: nat): Shape {
    g.(node := g.node[k := f], role := g.role[f := TableOf(k)])
  }

  ghost predicate CanGraft(mem: Memory, g: Shape, k: TableId, f: nat) {
    && Mapped(mem, g) && !k.L4? && k !in g.node && Parent(k) in g.node && Index(k) >= Cut(g, Parent(k))
    && f in g.role && g.role[f] == Held && NoEntries(mem, f)
  }

  lemma GraftRoles(mem: Memory, g: Shape, k: TableId, f: nat)
    requires CanGraft(mem, g, k, f)
    ensures TableRoles(Grafted(g, k, f)) && FreeRoles(Grafted(g, k, f)) && DataRoles(Grafted(g, k, f))
  {
    hide Tree, Leaves;
  }

  lemma GraftTree(mem: Memory, g: Shape, k: TableId, f: nat, w: Word)
    requires CanGraft(mem, g, k, f) && w.present && !w.huge && w.frame == f
    requires TableRoles(Grafted(g, k, f)) && Backed(Store(mem, g.node[Parent(k)], Index(k), w), Grafted(g, k, f))
    ensures Tree(Store(mem, g.node[Parent(k)], Index(k), w), Grafted(g, k, f))
  {
    hide Leaves, FreeRoles, DataRoles;
    var g', at := Grafted(g, k, f), g.node[Parent(k)];
    var mem' := Store(mem, at, Index(k), w);
    ChildOfParent(k);
    forall c | c in g'.node && !c.L4?
      ensures Hangs(mem', g', c)
    {
      if c != k {
        assert Hangs(mem, g, c);
        ChildOfParent(c);
        if g.node[Parent(c)] == at { TablesAreDistinct(g, Parent(c), Parent(k)); }
      }
    }
    forall c, i: Idx | c in g'.node && !c.L1?
      ensures Sprouts(mem', g', c, i)
    {
      GraftSprouts(mem, g, k, f, w, c, i);
    }
  }

  lemma GraftSprouts(mem: Memory, g: Shape, k: TableId, f: nat, w: Word, c: TableId, i: Idx)
    requires CanGraft(mem, g, k, f) && w.present && !w.huge && w.frame == f
    requires TableRoles(Grafted(g, k, f)) && Backed(Store(mem, g.node[Parent(k)], Index(k), w), Grafted(g, k, f))
    requires c in Grafted(g, k, f).node && !c.L1?
    ensures Sprouts(Store(mem, g.node[Parent(k)], Index(k), w), Grafted(g, k, f), c, i)
  {
    hide Leaves, FreeRoles, DataRoles;
    var at := g.node[Parent(k)];
    ChildOfParent(k);
    if c != k {
      assert Sprouts(mem, g, c, i);
      if g.node[c] == at { TablesAreDistinct(g, c, Parent(k)); }
    }
  }

  lemma GraftLeaves(mem: Memory, g: Shape, k: TableId, f: nat, w: Word)
    requires CanGraft(mem, g, k, f)
    requires TableRoles(Grafted(g, k, f)) && Backed(Store(mem, g.node[Parent(k)], Index(k), w), Grafted(g, k, f))
    ensures Leaves(Store(mem, g.node[Parent(k)], Index(k), w), Grafted(g, k, f))
  {
    hide Tree, FreeRoles, DataRoles;
    var g', at := Grafted(g, k, f), g.node[Parent(k)];
    var mem' := Store(mem, at, Index(k), w);
    assert !Parent(k).L1?;
    assert g.role[at] == TableOf(Parent(k));
    forall l | l in g.leaves
      ensures LeafOk(mem', g', l)
    {
      assert LeafOk(mem, g, l);
    }
    forall l | Home(l) in g'.node
      ensures Tracked(mem', g', l)
    {
      if Home(l) != k {
        assert Tracked(mem, g, l);
        assert g.role[g.node[Home(l)]] == TableOf(Home(l));
      }
    }
  }

  lemma GraftKeepsOk(mem: Memory, head: nat, g: Shape, k: TableId, f: nat, w: Word)
    requires Ok(mem, head, g) && CanGraft(mem, g, k, f) && w.present && !w.huge && w.frame == f
    ensures g.node[Parent(k)] in mem
    ensures Ok(Store(mem, g.node[Parent(k)], Index(k), w), head, Grafted(g, k, f))
  {
    var mem', g' := Store(mem, g.node[Parent(k)], Index(k), w), Grafted(g, k, f);
    GraftRoles(mem, g, k, f);
    assert Backed(mem', g');
    GraftTree(mem, g, k, f, w);
    GraftLeaves(mem, g, k, f, w);
    FreeFrame(mem, head, g, mem', g');
    hide TableRoles, FreeRoles, DataRoles, Tree, Leaves, FreeList, Backed, CanGraft;
  }

  /** `f` becomes the root of an empty address space. */
  ghost function Planted(g: Shape, f: nat): Shape {
    g.(node := g.node[L4(f) := f], role := g.role[f := TableOf(L4(f))])
  }

  lemma PlantKeepsOk(mem: Memory, head: nat, g: Shape, f: nat)
    requires Ok(mem, head, g) && f in g.role && g.role[f] == Held && f in mem && !mem[f][0].present
    ensures Ok(mem, head, Planted(g, f)) && L4(f) !in g.node
  {
    var g' := Planted(g, f);
    PlantRoles(g, f);
    assert Backed(mem, g');
    PlantTree(mem, g, f);
    FreeFrame(mem, head, g, mem, g');
    hide TableRoles, FreeRoles, DataRoles, Tree, Leaves, FreeList, Backed;
  }

  lemma PlantRoles(g: Shape, f: nat)
    requires TableRoles(g) && FreeRoles(g) && DataRoles(g) && f in g.role && g.role[f] == Held
    ensures TableRoles(Planted(g, f)) && FreeRoles(Planted(g, f)) && DataRoles(Planted(g, f)) && L4(f) !in g.node
  {
  }

  lemma PlantTree(mem: Memory, g: Shape, f: nat)
    requires Mapped(mem, g) && f in g.role && g.role[f] == Held && f in mem && !mem[f][0].present
    requires TableRoles(Planted(g, f)) && Backed(mem, Planted(g, f)) && L4(f) !in g.node
    ensures Tree(mem, Planted(g, f)) && Leaves(mem, Planted(g, f))
  {
    hide FreeRoles, DataRoles;
    var g' := Planted(g, f);
    forall k | k in g'.node && !k.L4?
      ensures Hangs(mem, g', k)
    {
      assert Hangs(mem, g, k);
    }
    forall k, i: Idx | k in g'.node && !k.L1?
      ensures Sprouts(mem, g', k, i)
    {
      if k != L4(f) { assert Sprouts(mem, g, k, i); }
    }
    forall l | l in g.leaves
      ensures LeafOk(mem, g', l)
    {
      assert LeafOk(mem, g, l);
    }
    forall l | Home(l) in g'.node
      ensures Tracked(mem, g', l)
    {
      assert Tracked(mem, g, l);
    }
  }

  // --- giving a table up -----------------------------------------------------

  /** Table `k` has nothing under it. */
  ghost predicate Barren(mem: Memory, g: Shape, k: TableId)
    requires TableRoles(g) && Backed(mem, g) && k in g.node
  {
    forall i: Idx | UserSlot(k, i) && Cut(g, k) <= i :: !mem[g.node[k]][i].present
  }

  lemma BarrenHasNoChildren(mem: Memory, g: Shape, k: TableId)
    requires Mapped(mem, g) && k in g.node && Barren(mem, g, k)
    ensures forall c | c in g.node && !c.L4? :: Parent(c) != k
    ensures forall l | l in g.leaves :: Home(l) != k
  {
    forall c | c in g.node && !c.L4?
      ensures Parent(c) != k
    {
      assert Hangs(mem, g, c);
      ChildOfParent(c);
    }
    forall l | l in g.leaves
      ensures Home(l) != k
    {
      assert LeafOk(mem, g, l);
    }
  }

  /** Table `k` is unlinked: its frame is held, and its parent has moved past it by `cut`. */
  ghost function Pruned(g: Shape, k: TableId, cut: map<TableId, nat>): Shape
    requires k in g.node
  {
    g.(node := g.node - {k}, role := g.role[g.node[k] := Held], cut := cut - {k})
  }

  lemma PruneRoles(g: Shape, k: TableId, cut: map<TableId, nat>)
    requires TableRoles(g) && FreeRoles(g) && DataRoles(g) && k in g.node
    requires forall c | c in cut :: c in g.node
    ensures TableRoles(Pruned(g, k, cut)) && FreeRoles(Pruned(g, k, cut)) && DataRoles(Pruned(g, k, cut))
  {
    var g', f := Pruned(g, k, cut), g.node[k];
    assert g.role[f] == TableOf(k);
    forall c | c in g'.node
      ensures g'.node[c] in g'.role && g'.role[g'.node[c]] == TableOf(c)
    {
      assert g.role[g.node[c]] == TableOf(c);
    }
    assert TableRoles(g');
  }

  /** Only the parent of `k` changes: either its entry for `k` is cleared or its cut moves past it. */
  ghost predicate PruneEdit(mem: Memory, g: Shape, k: TableId, mem': Memory, g': Shape) {
    && TableRoles(g) && Backed(mem, g) && k in g.node && !k.L4? && Parent(k) in g.node
    && g' == Pruned(g, k, g'.cut) && TableRoles(g') && Backed(mem', g')
    && (forall c | c in g.node && c != k && c != Parent(k) ::
          Cut(g', c) == Cut(g, c) && mem'[g.node[c]] == mem[g.node[c]])
    && (forall i: Idx | i != Index(k) :: mem'[g.node[Parent(k)]][i] == mem[g.node[Parent(k)]][i])
    && (|| (Cut(g', Parent(k)) == Cut(g, Parent(k)) && !mem'[g.node[Parent(k)]][Index(k)].present)
        || (Cut(g, Parent(k)) == Index(k) && Cut(g', Parent(k)) == Index(k) + 1))
  }

  lemma PruneHangs(mem: Memory, g: Shape, k: TableId, mem': Memory, g': Shape, c: TableId)
    requires PruneEdit(mem, g, k, mem', g') && c in g'.node && !c.L4? && Parent(c) != k && Hangs(mem, g, c)
    ensures Hangs(mem', g', c)
  {
    ChildOfParent(c);
    ChildOfParent(k);
  }

  lemma PruneSprouts(mem: Memory, g: Shape, k: TableId, mem': Memory, g': Shape, c: TableId, i: Idx)
    requires PruneEdit(mem, g, k, mem', g') && c in g'.node && !c.L1? && Sprouts(mem, g, c, i)
    ensures Sprouts(mem', g', c, i)
  {
    ChildOfParent(k);
  }

  lemma PruneLeaves(mem: Memory, g: Shape, k: TableId, mem': Memory, g': Shape)
    requires PruneEdit(mem, g, k, mem', g') && Leaves(mem, g)
    requires forall l | l in g.leaves :: Home(l) != k
    ensures Leaves(mem', g')
  {
    ChildOfParent(k);
    forall l | l in g'.leaves
      ensures LeafOk(mem', g', l)
    {
      assert LeafOk(mem, g, l);
    }
    forall l | Home(l) in g'.node
      ensures Tracked(mem', g', l)
    {
      assert Tracked(mem, g, l);
    }
  }

  lemma PruneTree(mem: Memory, g: Shape, k: TableId, mem': Memory, g': Shape)
    requires PruneEdit(mem, g, k, mem', g') && Tree(mem, g)
    requires forall c | c in g.node && !c.L4? :: Parent(c) != k
    ensures Tree(mem', g')
  {
    hide TableRoles, Backed, Hangs, Sprouts;
    forall c | c in g'.node && !c.L4?
      ensures Hangs(mem', g', c)
    {
      assert Hangs(mem, g, c);
      PruneHangs(mem, g, k, mem', g', c);
    }
    forall c, i: Idx | c in g'.node && !c.L1?
      ensures Sprouts(mem', g', c, i)
    {
      assert Sprouts(mem, g, c, i);
      PruneSprouts(mem, g, k, mem', g', c, i);
    }
  }

  lemma PruneKeepsOk(mem: Memory, head: nat, g: Shape, k: TableId, mem': Memory, g': Shape)
    requires Ok(mem, head, g) && k in g.node && !k.L4? && Barren(mem, g, k)
    requires PruneEdit(mem, g, k, mem', g') && FreeRoles(g') && DataRoles(g')
    requires forall f | f in g.role && g.role[f].FreeAt? :: mem'[f] == mem[f]
    ensures Ok(mem', head, g')
  {
    BarrenHasNoChildren(mem, g, k);
    PruneTree(mem, g, k, mem', g');
    PruneLeaves(mem, g, k, mem', g');
    FreeFrame(mem, head, g, mem', g');
    hide TableRoles, FreeRoles, DataRoles, Tree, Leaves, FreeList, Backed, Barren;
  }

  /** Clearing the parent's entry of a barren table. */
  lemma PruneByClearing(mem: Memory, head: nat, g: Shape, k: TableId)
    requires Ok(mem, head, g) && k in g.node && !k.L4? && Barren(mem, g, k) && k !in g.cut
    ensures Parent(k) in g.node
    ensures g.node[Parent(k)] in mem
    ensures Ok(Store(mem, g.node[Parent(k)], Index(k), ZERO), head, Pruned(g, k, g.cut))
  {
    assert Hangs(mem, g, k);
    hide Leaves, Barren, Tree;
    PruneRoles(g, k, g.cut);
    TableIsNotFree(g, Parent(k));
    hide FreeRoles, DataRoles, FreeList;
    ClearIsPruneEdit(mem, g, k);
    PruneKeepsOk(mem, head, g, k, Store(mem, g.node[Parent(k)], Index(k), ZERO), Pruned(g, k, g.cut));
  }

  lemma TableIsNotFree(g: Shape, k: TableId)
    requires TableRoles(g) && k in g.node
    ensures forall f | f in g.role && !g.role[f].TableOf? :: f != g.node[k]
    ensures forall c | c in g.node && c != k :: g.node[c] != g.node[k]
  {
    assert g.role[g.node[k]] == TableOf(k);
    assert forall c | c in g.node && c != k :: g.role[g.node[c]] == TableOf(c);
  }

  lemma ClearIsPruneEdit(mem: Memory, g: Shape, k: TableId)
    requires TableRoles(g) && Backed(mem, g) && k in g.node && !k.L4? && Parent(k) in g.node && k !in g.cut
    requires TableRoles(Pruned(g, k, g.cut))
    ensures PruneEdit(mem, g, k, Store(mem, g.node[Parent(k)], Index(k), ZERO), Pruned(g, k, g.cut))
  {
    TableIsNotFree(g, Parent(k));
    assert Pruned(g, k, g.cut).cut == g.cut;
    hide TableRoles;
  }

  lemma CutIsPruneEdit(mem: Memory, g: Shape, k: TableId)
    requires TableRoles(g) && Backed(mem, g) && k in g.node && !k.L4? && Parent(k) in g.node
    requires Cut(g, Parent(k)) == Index(k) && TableRoles(Pruned(g, k, g.cut[Parent(k) := Index(k) + 1]))
    ensures PruneEdit(mem, g, k, mem, Pruned(g, k, g.cut[Parent(k) := Index(k) + 1]))
  {
    assert g.node[k] in g.role;
    hide TableRoles;
    var g' := Pruned(g, k, g.cut[Parent(k) := Index(k) + 1]);
    assert g'.cut - {k} == g'.cut;
  }

  /** Moving a teardown past a table it has emptied. */
  lemma PruneByCutting(mem: Memory, head: nat, g: Shape, k: TableId)
    requires Ok(mem, head, g) && k in g.node && !k.L4? && Barren(mem, g, k)
    requires Parent(k) in g.node && Cut(g, Parent(k)) == Index(k)
    ensures Ok(mem, head, Pruned(g, k, g.cut[Parent(k) := Index(k) + 1]))
  {
    hide Leaves, Barren, Tree, FreeList;
    var g' := Pruned(g, k, g.cut[Parent(k) := Index(k) + 1]);
    PruneRoles(g, k, g.cut[Parent(k) := Index(k) + 1]);
    hide DataRoles, FreeRoles;
    CutIsPruneEdit(mem, g, k);
    PruneKeepsOk(mem, head, g, k, mem, g');
  }

  /** An address space with an empty user half gives its root up. */
  lemma UprootKeepsOk(mem: Memory, head: nat, g: Shape, r: nat)
    requires Ok(mem, head, g) && L4(r) in g.node && Barren(mem, g, L4(r))
    ensures Ok(mem, head, Pruned(g, L4(r), g.cut))
  {
    var g' := Pruned(g, L4(r), g.cut);
    PruneRoles(g, L4(r), g.cut);
    BarrenHasNoChildren(mem, g, L4(r));
    UprootTree(mem, g, r);
    FreeFrame(mem, head, g, mem, g');
    hide TableRoles, FreeRoles, DataRoles, Tree, Leaves, FreeList, Backed, Barren;
  }

  lemma UprootTree(mem: Memory, g: Shape, r: nat)
    requires Mapped(mem, g) && L4(r) in g.node && TableRoles(Pruned(g, L4(r), g.cut))
    requires Backed(mem, Pruned(g, L4(r), g.cut))
    requires forall c | c in g.node && !c.L4? :: Parent(c) != L4(r)
    ensures Tree(mem, Pruned(g, L4(r), g.cut)) && Leaves(mem, Pruned(g, L4(r), g.cut))
  {
    hide FreeRoles, DataRoles;
    var g' := Pruned(g, L4(r), g.cut);
    forall c | c in g'.node && !c.L4?
      ensures Hangs(mem, g', c)
    {
      assert Hangs(mem, g, c);
    }
    forall c, i: Idx | c in g'.node && !c.L1?
      ensures Sprouts(mem, g', c, i)
    {
      assert Sprouts(mem, g, c, i);
    }
    forall l | l in g'.leaves
      ensures LeafOk(mem, g', l)
    {
      assert LeafOk(mem, g, l);
    }
    forall l | Home(l) in g'.node
      ensures Tracked(mem, g', l)
    {
      assert Tracked(mem, g, l);
    }
  }

  // --- leaves -----------------------------------------------------------------

  ghost predicate OwnedElsewhere(g: Shape, l: Leaf, f: nat) {
    exists m :: m in g.leaves && m != l && g.leaves[m].frame == f
  }

  /** Leaf `l` now reads `w`; its frame counts as data from here on. */
  ghost function WithLeaf(g: Shape, l: Leaf, w: Word): Shape {
    g.(leaves := g.leaves[l := w], role := g.role[w.frame := Data])
  }

  ghost predicate CanSet(mem: Memory, g: Shape, l: Leaf, w: Word) {
    && Mapped(mem, g) && Home(l) in g.node && Cut(g, Home(l)) <= l.i1
    && w.present && w.frame in g.role && (g.role[w.frame] == Held || g.role[w.frame] == Data)
    && (l in g.leaves ==> g.leaves[l].frame == w.frame || OwnedElsewhere(g, l, g.leaves[l].frame))
  }

  lemma SetRoles(mem: Memory, g: Shape, l: Leaf, w: Word)
    requires CanSet(mem, g, l, w)
    ensures TableRoles(WithLeaf(g, l, w)) && FreeRoles(WithLeaf(g, l, w))
  {
    hide Tree, Leaves, DataRoles;
  }

  lemma SetDataRoles(mem: Memory, g: Shape, l: Leaf, w: Word)
    requires CanSet(mem, g, l, w)
    ensures DataRoles(WithLeaf(g, l, w))
  {
    hide Tree, Leaves, TableRoles, FreeRoles, Backed;
    var g' := WithLeaf(g, l, w);
    forall f | f in g'.role && g'.role[f].Data?
      ensures exists m :: m in g'.leaves && g'.leaves[m].frame == f
    {
      if f == w.frame {
        assert l in g'.leaves;
      } else {
        var m :| m in g.leaves && g.leaves[m].frame == f;
        if m == l {
          var n :| n in g.leaves && n != l && g.leaves[n].frame == f;
          assert n in g'.leaves && g'.leaves[n].frame == f;
        } else {
          assert m in g'.leaves && g'.leaves[m].frame == f;
        }
      }
    }
  }

  lemma SetTree(mem: Memory, g: Shape, l: Leaf, w: Word)
    requires CanSet(mem, g, l, w)
    requires TableRoles(WithLeaf(g, l, w)) && Backed(Store(mem, g.node[Home(l)], l.i1, w), WithLeaf(g, l, w))
    ensures Tree(Store(mem, g.node[Home(l)], l.i1, w), WithLeaf(g, l, w))
  {
    hide FreeRoles, DataRoles, Leaves;
    var g', at := WithLeaf(g, l, w), g.node[Home(l)];
    var mem' := Store(mem, at, l.i1, w);
    assert g.role[at] == TableOf(Home(l));
    forall c | c in g'.node && !c.L4?
      ensures Hangs(mem', g', c)
    {
      assert Hangs(mem, g, c);
      assert g.role[g.node[Parent(c)]] == TableOf(Parent(c));
    }
    forall c, i: Idx | c in g'.node && !c.L1?
      ensures Sprouts(mem', g', c, i)
    {
      assert Sprouts(mem, g, c, i);
      assert g.role[g.node[c]] == TableOf(c);
    }
  }

  lemma SetLeaves(mem: Memory, g: Shape, l: Leaf, w: Word)
    requires CanSet(mem, g, l, w)
    requires TableRoles(WithLeaf(g, l, w)) && Backed(Store(mem, g.node[Home(l)], l.i1, w), WithLeaf(g, l, w))
    ensures Leaves(Store(mem, g.node[Home(l)], l.i1, w), WithLeaf(g, l, w))
  {
    hide FreeRoles, DataRoles, Tree;
    var g', at := WithLeaf(g, l, w), g.node[Home(l)];
    var mem' := Store(mem, at, l.i1, w);
    assert g.role[at] == TableOf(Home(l));
    forall m | m in g'.leaves
      ensures LeafOk(mem', g', m)
    {
      if m != l {
        assert LeafOk(mem, g, m);
        assert g.role[g.node[Home(m)]] == TableOf(Home(m));
      }
    }
    forall m | Home(m) in g'.node
      ensures Tracked(mem', g', m)
    {
      if m != l {
        assert Tracked(mem, g, m);
        assert g.role[g.node[Home(m)]] == TableOf(Home(m));
      }
    }
  }

  /** Writing a present leaf entry. */
  lemma SetKeepsOk(mem: Memory, head: nat, g: Shape, l: Leaf, w: Word)
    requires Ok(mem, head, g) && CanSet(mem, g, l, w)
    ensures g.node[Home(l)] in mem
    ensures Ok(Store(mem, g.node[Home(l)], l.i1, w), head, WithLeaf(g, l, w))
  {
    var mem', g' := Store(mem, g.node[Home(l)], l.i1, w), WithLeaf(g, l, w);
    SetRoles(mem, g, l, w);
    SetDataRoles(mem, g, l, w);
    assert Backed(mem', g');
    SetTree(mem, g, l, w);
    SetLeaves(mem, g, l, w);
    assert g.role[g.node[Home(l)]] == TableOf(Home(l));
    FreeFrame(mem, head, g, mem', g');
    hide TableRoles, FreeRoles, DataRoles, Tree, Leaves, FreeList, Backed, CanSet;
  }

  /** Leaf `l` is gone; its frame is held unless another leaf still names it. */
  ghost function WithoutLeaf(g: Shape, l: Leaf, cut: map<TableId, nat>): Shape
    requires l in g.leaves
  {
    var f := g.leaves[l].frame;
    g.(leaves := g.leaves - {l}, cut := cut,
       role := if OwnedElsewhere(g, l, f) then g.role else g.role[f := Held])
  }

  lemma DropRoles(g: Shape, l: Leaf, cut: map<TableId, nat>)
    requires TableRoles(g) && FreeRoles(g) && DataRoles(g) && l in g.leaves
    requires forall c | c in cut :: c in g.node
    ensures TableRoles(WithoutLeaf(g, l, cut)) && FreeRoles(WithoutLeaf(g, l, cut))
    ensures DataRoles(WithoutLeaf(g, l, cut))
  {
    var g', f := WithoutLeaf(g, l, cut), g.leaves[l].frame;
    forall x | x in g'.role && g'.role[x].Data?
      ensures exists m :: m in g'.leaves && g'.leaves[m].frame == x
    {
      var m :| m in g.leaves && g.leaves[m].frame == x;
      if m == l {
        var n :| n in g.leaves && n != l && g.leaves[n].frame == f;
        assert n in g'.leaves;
      } else {
        assert m in g'.leaves;
      }
    }
    forall m | m in g'.leaves
      ensures g'.leaves[m].frame in g'.role && g'.role[g'.leaves[m].frame] == Data
    {
      assert m in g.leaves;
    }
  }

  /** Only the entry of `l` changes: it is cleared, or its table's cut moves past it. */
  ghost predicate DropEdit(mem: Memory, g: Shape, l: Leaf, mem': Memory, g': Shape) {
    && TableRoles(g) && Backed(mem, g) && l in g.leaves && Home(l) in g.node
    && g' == WithoutLeaf(g, l, g'.cut) && TableRoles(g') && Backed(mem', g')
    && (forall c | c in g.node && c != Home(l) :: Cut(g', c) == Cut(g, c) && mem'[g.node[c]] == mem[g.node[c]])
    && (forall i: Idx | i != l.i1 :: mem'[g.node[Home(l)]][i] == mem[g.node[Home(l)]][i])
    && (|| (Cut(g', Home(l)) == Cut(g, Home(l)) && !mem'[g.node[Home(l)]][l.i1].present)
        || (Cut(g, Home(l)) == l.i1 && Cut(g', Home(l)) == l.i1 + 1))
  }

  lemma DropTree(mem: Memory, g: Shape, l: Leaf, mem': Memory, g': Shape)
    requires DropEdit(mem, g, l, mem', g') && Tree(mem, g)
    ensures Tree(mem', g')
  {
    forall c | c in g'.node && !c.L4?
      ensures Hangs(mem', g', c)
    {
      assert Hangs(mem, g, c);
    }
    forall c, i: Idx | c in g'.node && !c.L1?
      ensures Sprouts(mem', g', c, i)
    {
      assert Sprouts(mem, g, c, i);
    }
  }

  lemma DropLeaves(mem: Memory, g: Shape, l: Leaf, mem': Memory, g': Shape)
    requires DropEdit(mem, g, l, mem', g') && Leaves(mem, g)
    ensures Leaves(mem', g')
  {
    forall m | m in g'.leaves
      ensures LeafOk(mem', g', m)
    {
      assert LeafOk(mem, g, m);
    }
    forall m | Home(m) in g'.node
      ensures Tracked(mem', g', m)
    {
      assert Tracked(mem, g, m);
    }
  }

  lemma DropKeepsOk(mem: Memory, head: nat, g: Shape, l: Leaf, mem': Memory, g': Shape)
    requires Ok(mem, head, g) && DropEdit(mem, g, l, mem', g') && FreeRoles(g') && DataRoles(g')
    requires forall f | f in g.role && g.role[f].FreeAt? :: mem'[f] == mem[f]
    ensures Ok(mem', head, g')
  {
    DropTree(mem, g, l, mem', g');
    DropLeaves(mem, g, l, mem', g');
    FreeFrame(mem, head, g, mem', g');
    hide TableRoles, FreeRoles, DataRoles, Tree, Leaves, FreeList, Backed;
  }

  lemma DropByClearing(mem: Memory, head: nat, g: Shape, l: Leaf)
    requires Ok(mem, head, g) && l in g.leaves
    ensures Home(l) in g.node && g.node[Home(l)] in mem
    ensures Ok(Store(mem, g.node[Home(l)], l.i1, ZERO), head, WithoutLeaf(g, l, g.cut))
  {
    hide Tree;
    assert LeafOk(mem, g, l);
    hide Leaves;
    DropRoles(g, l, g.cut);
    TableIsNotFree(g, Home(l));
    assert g.leaves[l].frame in g.role;
    hide FreeList, FreeRoles, DataRoles;
    ClearIsDropEdit(mem, g, l);
    DropKeepsOk(mem, head, g, l, Store(mem, g.node[Home(l)], l.i1, ZERO), WithoutLeaf(g, l, g.cut));
  }

  lemma ClearIsDropEdit(mem: Memory, g: Shape, l: Leaf)
    requires TableRoles(g) && Backed(mem, g) && l in g.leaves && Home(l) in g.node
    requires TableRoles(WithoutLeaf(g, l, g.cut)) && g.leaves[l].frame in g.role
    ensures DropEdit(mem, g, l, Store(mem, g.node[Home(l)], l.i1, ZERO), WithoutLeaf(g, l, g.cut))
  {
    TableIsNotFree(g, Home(l));
    hide TableRoles, OwnedElsewhere;
  }

  lemma CutIsDropEdit(mem: Memory, g: Shape, l: Leaf)
    requires TableRoles(g) && Backed(mem, g) && l in g.leaves && Home(l) in g.node && Cut(g, Home(l)) == l.i1
    requires TableRoles(WithoutLeaf(g, l, g.cut[Home(l) := l.i1 + 1])) && g.leaves[l].frame in g.role
    ensures DropEdit(mem, g, l, mem, WithoutLeaf(g, l, g.cut[Home(l) := l.i1 + 1]))
  {
    hide TableRoles, OwnedElsewhere;
  }

  lemma DropByCutting(mem: Memory, head: nat, g: Shape, l: Leaf)
    requires Ok(mem, head, g) && l in g.leaves && Cut(g, Home(l)) == l.i1
    ensures Home(l) in g.node
    ensures Ok(mem, head, WithoutLeaf(g, l, g.cut[Home(l) := l.i1 + 1]))
  {
    hide Tree;
    assert LeafOk(mem, g, l);
    hide Leaves;
    DropRoles(g, l, g.cut[Home(l) := l.i1 + 1]);
    assert g.leaves[l].frame in g.role;
    hide FreeList, FreeRoles, DataRoles;
    CutIsDropEdit(mem, g, l);
    DropKeepsOk(mem, head, g, l, mem, WithoutLeaf(g, l, g.cut[Home(l) := l.i1 + 1]));
  }

  // --- edits that move nothing -------------------------------------------------

  /** Writing into a data frame or a held one. */
  lemma ContentKeepsOk(mem: Memory, head: nat, g: Shape, f: nat, content: Page)
    requires Ok(mem, head, g) && f in g.role && (g.role[f].Data? || g.role[f].Held?)
    ensures Ok(mem[f := content], head, g)
  {
    assert forall k | k in g.node :: g.role[g.node[k]] == TableOf(k);
    assert Backed(mem[f := content], g);
    TablesFrame(mem, g, mem[f := content], g);
    FreeFrame(mem, head, g, mem[f := content], g);
    hide TableRoles, FreeRoles, DataRoles, Tree, Leaves, FreeList, Backed;
  }

  /** A teardown passing an entry that names nothing. */
  ghost function Advanced(g: Shape, k: TableId): Shape {
    g.(cut := g.cut[k := Cut(g, k) + 1])
  }

  lemma AdvanceKeepsOk(mem: Memory, head: nat, g: Shape, k: TableId)
    requires Ok(mem, head, g) && k in g.node && Cut(g, k) < 512 && !mem[g.node[k]][Cut(g, k)].present && !k.L4?
    ensures Ok(mem, head, Advanced(g, k))
  {
    AdvanceTree(mem, g, k);
    FreeFrame(mem, head, g, mem, Advanced(g, k));
    hide FreeRoles, DataRoles, Tree, Leaves, FreeList, Backed;
  }

  lemma AdvanceTree(mem: Memory, g: Shape, k: TableId)
    requires Mapped(mem, g) && k in g.node && Cut(g, k) < 512 && !mem[g.node[k]][Cut(g, k)].present && !k.L4?
    ensures TableRoles(Advanced(g, k)) && Tree(mem, Advanced(g, k)) && Leaves(mem, Advanced(g, k))
  {
    AdvanceLeaves(mem, g, k);
    hide FreeRoles, DataRoles, Leaves;
    var g' := Advanced(g, k);
    forall c | c in g'.node && !c.L4?
      ensures Hangs(mem, g', c)
    {
      assert Hangs(mem, g, c);
    }
    forall c, i: Idx | c in g'.node && !c.L1?
      ensures Sprouts(mem, g', c, i)
    {
      assert Sprouts(mem, g, c, i);
    }
  }

  lemma AdvanceLeaves(mem: Memory, g: Shape, k: TableId)
    requires Mapped(mem, g) && k in g.node && Cut(g, k) < 512 && !mem[g.node[k]][Cut(g, k)].present && !k.L4?
    ensures TableRoles(Advanced(g, k)) && Leaves(mem, Advanced(g, k))
  {
    hide FreeRoles, DataRoles, Tree;
    var g' := Advanced(g, k);
    forall l | l in g'.leaves
      ensures LeafOk(mem, g', l)
    {
      assert LeafOk(mem, g, l);
    }
    forall l | Home(l) in g'.node
      ensures Tracked(mem, g', l)
    {
      assert Tracked(mem, g, l);
    }
  }

  /** Letting ring 3 through an existing table. */
  lemma WidenKeepsOk(mem: Memory, head: nat, g: Shape, k: TableId)
    requires Ok(mem, head, g) && k in g.node && !k.L4?
    ensures Parent(k) in g.node && g.node[Parent(k)] in mem
    ensures var at := g.node[Parent(k)]; Ok(Store(mem, at, Index(k), mem[at][Index(k)].(user := true)), head, g)
  {
    hide Leaves;
    assert Hangs(mem, g, k);
    var at := g.node[Parent(k)];
    var mem' := Store(mem, at, Index(k), mem[at][Index(k)].(user := true));
    assert g.role[at] == TableOf(Parent(k));
    WidenTree(mem, g, k);
    hide Tree;
    FreeFrame(mem, head, g, mem', g);
    hide FreeList, FreeRoles, DataRoles;
  }

  lemma WidenTree(mem: Memory, g: Shape, k: TableId)
    requires Mapped(mem, g) && k in g.node && !k.L4? && Parent(k) in g.node
    ensures var at := g.node[Parent(k)];
            var mem' := Store(mem, at, Index(k), mem[at][Index(k)].(user := true));
            Backed(mem', g) && Tree(mem', g) && Leaves(mem', g)
  {
    hide FreeRoles, DataRoles;
    var at := g.node[Parent(k)];
    var mem' := Store(mem, at, Index(k), mem[at][Index(k)].(user := true));
    assert g.role[at] == TableOf(Parent(k));
    forall c | c in g.node && !c.L4?
      ensures Hangs(mem', g, c)
    {
      assert Hangs(mem, g, c);
    }
    forall c, i: Idx | c in g.node && !c.L1?
      ensures Sprouts(mem', g, c, i)
    {
      assert Sprouts(mem, g, c, i);
    }
    forall l | l in g.leaves
      ensures LeafOk(mem', g, l)
    {
      assert LeafOk(mem, g, l);
      assert g.role[g.node[Home(l)]] == TableOf(Home(l));
    }
    forall l | Home(l) in g.node
      ensures Tracked(mem', g, l)
    {
      assert Tracked(mem, g, l);
    }
  }
}
