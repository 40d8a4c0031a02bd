/** Counting frames: every frame is free, a table, data or in hand, and never two of these. */
module FrameBalance {
  import opened Frames
  import opened PageWalk

  ghost function DataFrames(g: Shape): set<nat> { set f | f in g.role && g.role[f].Data? }

  ghost function HeldFrames(g: Shape): set<nat> { set f | f in g.role && g.role[f].Held? }

  ghost function Tables(g: Shape): set<nat> { set f | f in g.role && g.role[f].TableOf? }

  ghost function FreeFrames(g: Shape): set<nat> { set f | f in g.role && g.role[f].FreeAt? }

  /** As many frames are tables as there are tables. */
  lemma {:induction false} TablesCounted(node: map<TableId, nat>, tables: set<nat>)
    requires forall k | k in node :: node[k] in tables
    requires forall f | f in tables :: exists k :: k in node && node[k] == f
    requires forall a, b | a in node && b in node && node[a] == node[b] :: a == b
    ensures |tables| == |node|
  {
    if tables != {} {
      var f :| f in tables;
      var k :| k in node && node[k] == f;
      var rest := node - {k};
      assert rest.Keys == node.Keys - {k};
      forall x | x in tables - {f}
        ensures exists j :: j in rest && rest[j] == x
      {
        var j :| j in node && node[j] == x;
        assert j in rest && rest[j] == x;
      }
      TablesCounted(rest, tables - {f});
    } else {
      assert node.Keys == {};
    }
  }

  /** A list without repetitions is as long as the set of what it lists. */
  lemma {:induction false} ListCounted(list: seq<nat>, elems: set<nat>)
    requires forall i | 0 <= i < |list| :: list[i] in elems
    requires forall f | f in elems :: f in list
    requires forall i, j | 0 <= i < j < |list| :: list[i] != list[j]
    ensures |elems| == |list|
  {
    if list != [] {
      var n := |list| - 1;
      var rest := list[..n];
      assert list == rest + [list[n]];
      ListCounted(rest, elems - {list[n]});
    } else {
      assert elems == {};
    }
  }

  lemma FreeCounted(g: Shape)
    requires FreeRoles(g)
    ensures |FreeFrames(g)| == |g.free|
  {
    forall f | f in FreeFrames(g)
      ensures f in g.free
    {
      assert g.free[g.role[f].at] == f;
    }
    forall i, j | 0 <= i < j < |g.free|
      ensures g.free[i] != g.free[j]
    {
      assert g.role[g.free[i]] == FreeAt(i) && g.role[g.free[j]] == FreeAt(j);
    }
    ListCounted(g.free, FreeFrames(g));
  }

  lemma TableCounted(g: Shape)
    requires TableRoles(g)
    ensures |Tables(g)| == |g.node|
  {
    forall f | f in Tables(g)
      ensures exists k :: k in g.node && g.node[k] == f
    {
      assert g.node[g.role[f].id] == f;
    }
    forall a, b | a in g.node && b in g.node && g.node[a] == g.node[b]
      ensures a == b
    {
      assert g.role[g.node[a]] == TableOf(a) && g.role[g.node[b]] == TableOf(b);
    }
    TablesCounted(g.node, Tables(g));
  }

  lemma RolesPartition(g: Shape)
    ensures |g.role| == |FreeFrames(g)| + |Tables(g)| + |DataFrames(g)| + |HeldFrames(g)|
  {
    var a, b := FreeFrames(g) + Tables(g), DataFrames(g) + HeldFrames(g);
    assert |a| == |FreeFrames(g)| + |Tables(g)|;
    assert |b| == |DataFrames(g)| + |HeldFrames(g)|;
    assert a !! b && g.role.Keys == a + b;
  }

  /** Free frames, tables, data frames and frames in hand add up to all the frames there are. */
  lemma FramesAddUp(mem: Memory, head: nat, g: Shape)
    requires Ok(mem, head, g)
    ensures |g.role| == |g.free| + |g.node| + |DataFrames(g)| + |HeldFrames(g)|
    ensures DataFrames(g) == set l | l in g.leaves :: g.leaves[l].frame
  {
    FreeCounted(g);
    TableCounted(g);
    assert DataFrames(g) == set l | l in g.leaves :: g.leaves[l].frame by {
      hide Tree, Leaves, FreeList, Backed, FreeRoles, TableRoles;
    }
    hide Ok, FreeFrames, Tables, DataFrames, HeldFrames;
    RolesPartition(g);
  }

  lemma RootOfTable(mem: Memory, head: nat, g: Shape, k: TableId)
    requires Ok(mem, head, g) && k in g.node
    ensures L4(k.root) in g.node
  {
    hide Leaves, FreeList, FreeRoles, DataRoles;
    assert k.L1? ==> Hangs(mem, g, k) && Hangs(mem, g, Parent(k)) && Hangs(mem, g, Parent(Parent(k)));
    assert k.L2? ==> Hangs(mem, g, k) && Hangs(mem, g, Parent(k));
    assert k.L3? ==> Hangs(mem, g, k);
  }

  /** Once no address space is left, every frame not in hand is on the free list, exactly once. */
  lemma NoSpacesNoFramesInUse(mem: Memory, head: nat, g: Shape)
    requires Ok(mem, head, g) && forall r :: L4(r) !in g.node
    ensures g.node == map[] && g.leaves == map[] && DataFrames(g) == {}
    ensures multiset(g.free) == multiset(g.role.Keys - HeldFrames(g))
  {
    forall k
      ensures k !in g.node
    {
      if k in g.node { RootOfTable(mem, head, g, k); }
    }
    forall l
      ensures l !in g.leaves
    {
      LeafHasHome(mem, head, g, l);
    }
    assert g.node.Keys == {} && g.leaves.Keys == {};
    FreeIsRest(mem, head, g);
  }

  lemma FreeIsRest(mem: Memory, head: nat, g: Shape)
    requires Ok(mem, head, g) && g.node == map[] && g.leaves == map[]
    ensures DataFrames(g) == {} && multiset(g.free) == multiset(g.role.Keys - HeldFrames(g))
  {
    hide Tree, Leaves, FreeList, Backed;
    assert g.role.Keys - HeldFrames(g) == FreeFrames(g);
    forall f | f in FreeFrames(g)
      ensures f in g.free
    {
      assert g.free[g.role[f].at] == f;
    }
    forall i, j | 0 <= i < j < |g.free|
      ensures g.free[i] != g.free[j]
    {
      assert g.role[g.free[i]] == FreeAt(i) && g.role[g.free[j]] == FreeAt(j);
    }
    ListIsSet(g.free, FreeFrames(g));
  }

  lemma {:induction false} ListIsSet(list: seq<nat>, elems: set<nat>)
    requires forall i | 0 <= i < |list| :: list[i] in elems
    requires forall f | f in elems :: f in list
    requires forall i, j | 0 <= i < j < |list| :: list[i] != list[j]
    ensures multiset(list) == multiset(elems)
  {
    if list != [] {
      var n := |list| - 1;
      var rest := list[..n];
      assert list == rest + [list[n]];
      ListIsSet(rest, elems - {list[n]});
    }
  }
}
