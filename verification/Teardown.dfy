/** Freeing a subtree of page tables, one entry at a time. */
module Teardown {
  import opened Frames
  import opened FrameTables
  import opened Sharing
  import opened Spaces
  import opened PageWalk

  /** Frames have gone back to the free list; whatever is still data or in hand is as it was. */
  ghost predicate Released(mem0: Memory, g0: Shape, mem: Memory, g: Shape) {
    && g.role.Keys == g0.role.Keys
    && (forall l | l in g.leaves :: l in g0.leaves && g.leaves[l] == g0.leaves[l])
    && (forall k | k in g.node :: k in g0.node && g.node[k] == g0.node[k])
    && (forall f | f in g.role :: g.role[f] == Held <==> g0.role[f] == Held)
    && (forall f | f in g.role && g.role[f] == Data :: g0.role[f] == Data)
    && (forall f | f in g.role && f in mem0 && (g.role[f] == Data || g.role[f] == Held) ::
          f in mem && mem[f] == mem0[f])
  }

  lemma ReleasedTwice(mem0: Memory, g0: Shape, mem1: Memory, g1: Shape, mem2: Memory, g2: Shape)
    requires Released(mem0, g0, mem1, g1) && Released(mem1, g1, mem2, g2)
    ensures Released(mem0, g0, mem2, g2)
  {
  }

  /** Entries of `k` below `n` have been freed with everything under them. */
  ghost predicate Swept(g0: Shape, g: Shape, k: TableId, n: nat) {
    && k in g.node && k in g0.node && k !in g0.cut
    && g.cut - {k} == g0.cut && Cut(g, k) == n
    && (forall l :: l in g.leaves <==> l in g0.leaves && !(Under(k, l) && IndexIn(k, l) < n))
    && (forall c :: c in g.node <==> c in g0.node && !(Within(k, c) && c != k && TableIndexIn(k, c) < n))
  }

  /** `k` and everything under it is gone, and its parent has moved past it. */
  ghost predicate Gone(g0: Shape, g: Shape, k: TableId)
    requires !k.L4?
  {
    && g.cut == g0.cut[Parent(k) := Index(k) + 1]
    && (forall l :: l in g.leaves <==> l in g0.leaves && !Under(k, l))
    && (forall c :: c in g.node <==> c in g0.node && !Within(k, c))
  }

  // --- one entry -----------------------------------------------------------------

  /** Whatever hangs below an entry hangs below the table the entry names. */
  lemma BelowEntry(mem: Memory, head: nat, g: Shape, k: TableId, i: Idx)
    requires Ok(mem, head, g) && k in g.node && !k.L4? && Cut(g, k) == i && !k.L1?
    ensures g.node[k] in mem
    ensures mem[g.node[k]][i].present <==> Child(k, i) in g.node
    ensures mem[g.node[k]][i].present ==> !mem[g.node[k]][i].huge && mem[g.node[k]][i].frame == g.node[Child(k, i)]
    ensures Child(k, i) !in g.node ==> forall l | l in g.leaves && Under(k, l) :: IndexIn(k, l) != i
    ensures Child(k, i) !in g.node ==> forall c | c in g.node && Within(k, c) && c != k :: TableIndexIn(k, c) != i
  {
    assert Sprouts(mem, g, k, i);
    assert Child(k, i) in g.node ==> Hangs(mem, g, Child(k, i));
    hide FreeRoles, DataRoles, FreeList;
    forall l | l in g.leaves && Under(k, l) && Child(k, i) !in g.node
      ensures IndexIn(k, l) != i
    {
      LeafHasHome(mem, head, g, l);
      PathMissing(mem, head, g, l);
    }
    forall c | c in g.node && Within(k, c) && c != k && Child(k, i) !in g.node
      ensures TableIndexIn(k, c) != i
    {
      if c.L1? { assert Hangs(mem, g, c); }
    }
  }

  lemma LeafEntry(mem: Memory, head: nat, g: Shape, k: TableId, i: Idx)
    requires Ok(mem, head, g) && k in g.node && k.L1? && Cut(g, k) == i
    ensures g.node[k] in mem
    ensures var l := Leaf(k.root, k.i3, k.i2, i);
            && (mem[g.node[k]][i].present <==> l in g.leaves)
            && (l in g.leaves ==> mem[g.node[k]][i] == g.leaves[l])
  {
    var l := Leaf(k.root, k.i3, k.i2, i);
    assert Tracked(mem, g, l);
    assert l in g.leaves ==> LeafOk(mem, g, l);
  }

  /** No teardown is under way in `k` or below it. */
  ghost predicate NoCut(g: Shape, k: TableId) {
    forall c | Within(k, c) :: c !in g.cut
  }

  lemma SweepStarts(mem: Memory, g: Shape, k: TableId)
    requires k in g.node && NoCut(g, k)
    ensures Swept(g, g, k, 0) && Released(mem, g, mem, g)
  {
    assert Within(k, k);
  }

  lemma NothingAt(mem: Memory, head: nat, g: Shape, k: TableId, i: Idx)
    requires Ok(mem, head, g) && k in g.node && !k.L4? && Cut(g, k) == i && g.node[k] in mem
    requires !mem[g.node[k]][i].present
    ensures forall l | l in g.leaves && Under(k, l) :: IndexIn(k, l) != i
    ensures forall c | c in g.node && Within(k, c) && c != k :: TableIndexIn(k, c) != i
  {
    if k.L1? {
      LeafEntry(mem, head, g, k, i);
      assert forall l | Under(k, l) && IndexIn(k, l) == i :: l == Leaf(k.root, k.i3, k.i2, i);
    } else {
      BelowEntry(mem, head, g, k, i);
    }
    hide Ok;
  }

  lemma SweepAdvances(g0: Shape, g: Shape, k: TableId, i: Idx)
    requires Swept(g0, g, k, i)
    requires forall l | l in g.leaves && Under(k, l) :: IndexIn(k, l) != i
    requires forall c | c in g.node && Within(k, c) && c != k :: TableIndexIn(k, c) != i
    ensures Swept(g0, Advanced(g, k), k, i + 1)
  {
    assert Advanced(g, k).cut - {k} == g.cut - {k};
    hide Under, Within, IndexIn, TableIndexIn;
  }

  lemma SweepNothing(g0: Shape, mem: Memory, head: nat, g: Shape, k: TableId, i: Idx)
    requires Ok(mem, head, g) && Swept(g0, g, k, i) && !k.L4? && g.node[k] in mem && !mem[g.node[k]][i].present
    ensures Swept(g0, Advanced(g, k), k, i + 1) && Released(mem, g, mem, Advanced(g, k))
    ensures Ok(mem, head, Advanced(g, k))
  {
    AdvanceKeepsOk(mem, head, g, k);
    NothingAt(mem, head, g, k, i);
    hide Ok;
    SweepAdvances(g0, g, k, i);
    hide Swept;
  }

  lemma SweepChild(g0: Shape, g: Shape, g': Shape, k: TableId, i: Idx)
    requires Swept(g0, g, k, i) && !k.L1? && !k.L4? && Gone(g, g', Child(k, i))
    ensures Swept(g0, g', k, i + 1)
  {
    var c := Child(k, i);
    assert Parent(c) == k && Index(c) == i;
    assert g'.cut - {k} == g.cut - {k};
    forall l
      ensures l in g'.leaves <==> l in g0.leaves && !(Under(k, l) && IndexIn(k, l) < i + 1)
    {
      UnderChild(k, i, l);
    }
    forall d
      ensures d in g'.node <==> d in g0.node && !(Within(k, d) && d != k && TableIndexIn(k, d) < i + 1)
    {
      WithinChild(k, i, d);
    }
  }

  /** The shape after leaf `l` of the table being swept is dropped, its frame going back if `last`. */
  ghost function Dropped(g: Shape, l: Leaf, last: bool): Shape
    requires l in g.leaves
  {
    var d := WithoutLeaf(g, l, g.cut[Home(l) := l.i1 + 1]);
    if last then Pushed(d, g.leaves[l].frame) else d
  }

  lemma SweepLeaf(g0: Shape, g: Shape, l: Leaf, last: bool)
    requires Swept(g0, g, Home(l), l.i1) && l in g.leaves
    ensures Swept(g0, Dropped(g, l, last), Home(l), l.i1 + 1)
  {
    var g', k := Dropped(g, l, last), Home(l);
    assert g'.cut - {k} == g.cut - {k};
    assert forall m :: m in g'.leaves <==> m in g.leaves && m != l;
    forall m
      ensures m in g'.leaves <==> m in g0.leaves && !(Under(k, m) && IndexIn(k, m) < l.i1 + 1)
    {
      assert Under(k, m) && IndexIn(k, m) == l.i1 ==> m == l;
    }
  }

  lemma SweepEnds(mem: Memory, g0: Shape, g: Shape, k: TableId)
    requires Swept(g0, g, k, 512) && !k.L4?
    ensures Gone(g0, Pushed(Pruned(g, k, g.cut[Parent(k) := Index(k) + 1]), g.node[k]), k)
  {
    var cut := g.cut[Parent(k) := Index(k) + 1];
    assert cut - {k} == g0.cut[Parent(k) := Index(k) + 1] by {
      assert Parent(k) != k;
      assert g.cut - {k} == g0.cut;
    }
    var g' := Pushed(Pruned(g, k, cut), g.node[k]);
    forall c
      ensures c in g'.node <==> c in g0.node && !Within(k, c)
    {
      assert Within(k, k);
    }
  }

  lemma SweptIsBarren(mem: Memory, g: Shape, k: TableId)
    requires TableRoles(g) && Backed(mem, g) && k in g.node && Cut(g, k) == 512
    ensures Barren(mem, g, k)
  {
  }

  // --- what a release does to frames -------------------------------------------------

  /** A frame with another owner stays data; one without goes back. */
  lemma DropReleases(mem: Memory, head: nat, g: Shape, l: Leaf, mem': Memory, last: bool)
    requires Ok(mem, head, g) && l in g.leaves
    requires last <==> !OwnedElsewhere(g, l, g.leaves[l].frame)
    requires forall f | f in mem && f != g.leaves[l].frame :: f in mem' && mem'[f] == mem[f]
    requires !last ==> mem' == mem
    ensures Released(mem, g, mem', Dropped(g, l, last))
  {
    hide Tree, Leaves, FreeList, TableRoles, FreeRoles;
    assert g.role[g.leaves[l].frame] == Data;
    hide DataRoles, OwnedElsewhere;
  }

  lemma PruneReleases(mem: Memory, head: nat, g: Shape, k: TableId, mem': Memory)
    requires Ok(mem, head, g) && k in g.node && !k.L4?
    requires forall f | f in mem && f != g.node[k] :: f in mem' && mem'[f] == mem[f]
    ensures Released(mem, g, mem', Pushed(Pruned(g, k, g.cut[Parent(k) := Index(k) + 1]), g.node[k]))
  {
    hide Tree, Leaves, FreeList, DataRoles, FreeRoles;
    assert g.role[g.node[k]] == TableOf(k);
  }

  /** The entry being swept can be read, and the teardown is where it thinks it is. */
  lemma SweptFacts(mem0: Memory, g0: Shape, mem: Memory, head: nat, g: Shape, k: TableId, i: nat, table: nat)
    requires Ok(mem, head, g) && Swept(g0, g, k, i) && Released(mem0, g0, mem, g)
    requires k in g0.node && table == g0.node[k] && NoCut(g0, k)
    ensures k in g.node && g.node[k] == table && table in mem && Cut(g, k) == i
    ensures !k.L4? && Cut(g0, Parent(k)) == Index(k) ==> Cut(g, Parent(k)) == Index(k)
    ensures !k.L1? && i < 512 && UserSlot(k, i) ==> NoCut(g, Child(k, i))
  {
    hide Tree, Leaves, FreeList, DataRoles, FreeRoles;
    if !k.L1? && i < 512 && UserSlot(k, i) {
      forall c | Within(Child(k, i), c)
        ensures c !in g.cut
      {
        WithinChild(k, i, c);
        assert c !in g.cut - {k};
      }
    }
    if !k.L4? {
      assert Parent(k) in g.cut <==> Parent(k) in g.cut - {k};
    }
  }

  lemma TeardownPrune(mem: Memory, head: nat, g: Shape, g0: Shape, k: TableId)
    requires Ok(mem, head, g) && Swept(g0, g, k, 512) && !k.L4? && Cut(g, Parent(k)) == Index(k)
    ensures var g' := Pruned(g, k, g.cut[Parent(k) := Index(k) + 1]);
            Ok(mem, head, g') && g.node[k] in g'.role && g'.role[g.node[k]] == Held
  {
    assert Hangs(mem, g, k);
    SweptIsBarren(mem, g, k);
    PruneByCutting(mem, head, g, k);
  }

  lemma OwnersElsewhere(table: map<nat, nat>, mem: Memory, head: nat, g: Shape, l: Leaf)
    requires Ok(mem, head, g) && l in g.leaves && Counted(table, g.leaves)
    ensures CountOf(table, g.leaves[l].frame) > 1 <==> OwnedElsewhere(g, l, g.leaves[l].frame)
    ensures g.leaves[l].frame in g.role
  {
    hide Tree, Leaves, FreeList, TableRoles, FreeRoles;
    assert g.leaves[l].frame in g.role;
    hide DataRoles, Counted;
    CountIsOwners(table, g.leaves, l);
    var f := g.leaves[l].frame;
    if |Owners(g.leaves, f)| > 1 {
      var m := AnotherOwner(g.leaves, l);
    } else {
      SoleOwner(g.leaves, l);
      forall m | m in g.leaves && m != l
        ensures g.leaves[m].frame != f
      {
        assert m !in Owners(g.leaves, f);
      }
    }
  }
}
