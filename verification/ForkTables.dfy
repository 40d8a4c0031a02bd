/** How many frames a fork takes: a root, and a table for every table on the way to a page of the parent. */
module ForkTables {
  import opened Frames
  import opened FrameTables
  import opened PageWalk
  import opened PageLists
  import opened Spaces
  import opened FrameBalance
  import opened CopyOnWrite

  /** The tables below the root on the way to a page. */
  function PathSet(l: Leaf): set<TableId> { {L3(l.root), L2(l.root, l.i3), L1(l.root, l.i3, l.i2)} }

  /** The tables below the root on the way to some page of a space. */
  ghost function PathTables(leaves: map<Leaf, Word>, root: nat): set<TableId> {
    set l, k | l in leaves && l.root == root && k in PathSet(l) :: k
  }

  /** The tables a space has below its root. */
  ghost function SpaceTables(g: Shape, root: nat): set<TableId> { set k | k in g.node && k.root == root && !k.L4? }

  // --- mapping one page -----------------------------------------------------------------------

  /** Mapping `c` has made exactly the tables missing on its path, or there were too few frames for them. */
  ghost predicate TablesGrew(g0: Shape, g: Shape, c: Leaf, done: bool) {
    && (done ==> g.node.Keys == g0.node.Keys + PathSet(c) && |g.free| + Missing(g0, c) == |g0.free|)
    && (!done ==> Missing(g0, c) > |g0.free|)
  }

  lemma MapGrows(mem0: Memory, g0: Shape, mem: Memory, head: nat, g: Shape, c: Leaf, w: Word, r: MapResult)
    requires Ok(mem, head, g) && c !in g0.leaves && MapOutcome(mem0, g0, mem, g, c, w, r)
    ensures TablesGrew(g0, g, c, r == Done)
  {
    hide Ok, Missing;
    if r == Done {
      var mid :| MapDone(mem0, g0, mem, g, c, w, mid);
      hide Untouched;
      assert c in g.leaves;
      LeafHasHome(mem, head, g, c);
      PathMissing(mem, head, g, c);
      GrewKeys(mem0, g0, mem, mid, c);
      assert g.node == mid.node;
    }
  }

  lemma GrewKeys(mem0: Memory, g0: Shape, mem: Memory, g: Shape, c: Leaf)
    requires Extended(mem0, g0, mem, g, c)
    ensures PathSet(c) <= g.node.Keys ==> g.node.Keys == g0.node.Keys + PathSet(c)
  {
    hide Untouched;
  }

  /** The missing tables of a page are those of its path that do not exist. */
  lemma MissingIs(mem: Memory, head: nat, g: Shape, c: Leaf)
    requires Ok(mem, head, g)
    ensures Missing(g, c) == |PathSet(c) - g.node.Keys|
  {
    hide Ok;
    PathMissing(mem, head, g, c);
    PathGone(g.node.Keys, c);
  }

  lemma PathGone(keys: set<TableId>, c: Leaf)
    requires Home(c) in keys ==> L2(c.root, c.i3) in keys
    requires L2(c.root, c.i3) in keys ==> L3(c.root) in keys
    ensures |PathSet(c) - keys| == if L3(c.root) !in keys then 3 else if L2(c.root, c.i3) !in keys then 2
                                   else if Home(c) !in keys then 1 else 0
  {
    var a, b, e := L3(c.root), L2(c.root, c.i3), L1(c.root, c.i3, c.i2);
    var gone := PathSet(c) - keys;
    if a !in keys {
      assert gone == {a, b, e};
    } else if b !in keys {
      assert gone == {b, e};
    } else if e !in keys {
      assert gone == {e};
    } else {
      assert gone == {};
    }
  }

  // --- mapping a list of pages -------------------------------------------------------------------

  /** The tables on the way to the first `n` listed pages, in the space rooted at `root`. */
  ghost function ListTables(pages: seq<PageRef>, n: nat, root: nat): set<TableId>
    requires n <= |pages|
  {
    if n == 0 then {} else ListTables(pages, n - 1, root) + PathSet(Reroot(pages[n - 1].leaf, root))
  }

  lemma {:induction false} ListTablesGrow(pages: seq<PageRef>, m: nat, n: nat, root: nat)
    requires m <= n <= |pages|
    ensures ListTables(pages, m, root) <= ListTables(pages, n, root)
  {
    if m < n { ListTablesGrow(pages, m, n - 1, root); }
  }

  lemma {:induction false} ListTablesAre(pages: seq<PageRef>, n: nat, root: nat, k: TableId)
    requires n <= |pages|
    ensures k in ListTables(pages, n, root) <==> exists j :: 0 <= j < n && k in PathSet(Reroot(pages[j].leaf, root))
  {
    if n > 0 { ListTablesAre(pages, n - 1, root, k); }
  }

  /** How far a fork has got: the child has exactly the tables its pages so far need, one frame each. */
  ghost predicate ForkPaid(g0: Shape, g: Shape, pages: seq<PageRef>, n: nat, child: nat)
    requires n <= |pages|
  {
    && SpaceTables(g, child) == ListTables(pages, n, child)
    && |g.free| + |ListTables(pages, n, child)| + 1 == |g0.free|
  }

  lemma ForkPays(g0: Shape, mem1: Memory, head1: nat, g1: Shape, g: Shape, pages: seq<PageRef>, n: nat, child: nat)
    requires Ok(mem1, head1, g1) && n < |pages| && ForkPaid(g0, g1, pages, n, child)
    requires TablesGrew(g1, g, Reroot(pages[n].leaf, child), true)
    ensures ForkPaid(g0, g, pages, n + 1, child)
  {
    var c := Reroot(pages[n].leaf, child);
    MissingIs(mem1, head1, g1, c);
    hide Ok;
    PathIsSpaces(g1, c, child);
    SpaceGrows(g1, g, c, child);
    UnionSize(ListTables(pages, n, child), PathSet(c));
    hide PathSet, SpaceTables, Missing;
  }

  lemma SpaceGrows(g: Shape, g': Shape, c: Leaf, root: nat)
    requires c.root == root && g'.node.Keys == g.node.Keys + PathSet(c)
    ensures SpaceTables(g', root) == SpaceTables(g, root) + PathSet(c)
  {
    assert forall k | k in PathSet(c) :: k.root == root && !k.L4?;
    hide PathSet;
  }

  /** A page that cannot be mapped would have taken the child past the frames there were. */
  lemma ForkCannotPay(g0: Shape, mem1: Memory, head1: nat, g1: Shape, g: Shape, pages: seq<PageRef>, n: nat, child: nat)
    requires Ok(mem1, head1, g1) && n < |pages| && ForkPaid(g0, g1, pages, n, child)
    requires TablesGrew(g1, g, Reroot(pages[n].leaf, child), false)
    ensures |ListTables(pages, |pages|, child)| + 1 > |g0.free|
  {
    var c := Reroot(pages[n].leaf, child);
    MissingIs(mem1, head1, g1, c);
    hide Ok;
    PathIsSpaces(g1, c, child);
    UnionSize(ListTables(pages, n, child), PathSet(c));
    hide PathSet, SpaceTables, Missing;
    ListTablesGrow(pages, n + 1, |pages|, child);
    SubsetSize(ListTables(pages, n + 1, child), ListTables(pages, |pages|, child));
  }

  lemma PathIsSpaces(g: Shape, c: Leaf, root: nat)
    requires c.root == root
    ensures PathSet(c) - g.node.Keys == PathSet(c) - SpaceTables(g, root)
  {
  }

  lemma UnionSize(a: set<TableId>, b: set<TableId>)
    ensures |a + b| == |a| + |b - a|
  {
    assert a + b == a + (b - a);
  }

  lemma SubsetSize(a: set<TableId>, b: set<TableId>)
    requires a <= b
    ensures |a| <= |b|
  {
    assert b == a + (b - a);
  }

  // --- in the parent's terms -------------------------------------------------------------------------

  function Moved(k: TableId, root: nat): TableId { k.(root := root) }

  ghost function MovedAll(from: set<TableId>, root: nat): set<TableId> { set k | k in from :: Moved(k, root) }

  lemma {:induction false} MovedSize(from: set<TableId>, parent: nat, child: nat)
    requires forall k | k in from :: k.root == parent
    ensures |MovedAll(from, child)| == |from|
  {
    if from != {} {
      var k :| k in from;
      MovedSize(from - {k}, parent, child);
      MovedRest(from, parent, child, k);
    }
  }

  lemma MovedRest(from: set<TableId>, parent: nat, child: nat, k: TableId)
    requires k in from && forall j | j in from :: j.root == parent
    ensures MovedAll(from, child) == MovedAll(from - {k}, child) + {Moved(k, child)}
    ensures Moved(k, child) !in MovedAll(from - {k}, child)
  {
    forall j | j in from - {k}
      ensures Moved(j, child) != Moved(k, child)
    {
      assert Moved(j, child).(root := parent) == j && Moved(k, child).(root := parent) == k;
    }
    hide Moved;
  }

  /** The child needs a table for every table on the way to a page of the parent. */
  lemma ForkNeeds(leaves: map<Leaf, Word>, parent: nat, pages: seq<PageRef>, child: nat)
    requires forall j | 0 <= j < |pages| :: pages[j].leaf in leaves && pages[j].leaf.root == parent
    requires forall l | l in leaves && l.root == parent :: Has(pages, l)
    ensures |ListTables(pages, |pages|, child)| == |PathTables(leaves, parent)|
  {
    hide Moved, PathTables, ListTables, Has, PathSet;
    var from, to := PathTables(leaves, parent), ListTables(pages, |pages|, child);
    forall k | k in from
      ensures k.root == parent && Moved(k, child) in to
    {
      NeedsListed(leaves, parent, pages, child, k);
    }
    forall k | k in to
      ensures k in MovedAll(from, child)
    {
      ListedNeeds(leaves, parent, pages, child, k);
    }
    assert MovedAll(from, child) <= to;
    hide MovedAll;
    assert to == MovedAll(from, child);
    MovedSize(from, parent, child);
  }

  lemma NeedsListed(leaves: map<Leaf, Word>, parent: nat, pages: seq<PageRef>, child: nat, k: TableId)
    requires k in PathTables(leaves, parent) && forall l | l in leaves && l.root == parent :: Has(pages, l)
    ensures k.root == parent && Moved(k, child) in ListTables(pages, |pages|, child)
  {
    hide PathSet, ListTables, Moved;
    var l :| l in leaves && l.root == parent && k in PathSet(l);
    PathListed(pages, l, k, child);
  }

  lemma ListedNeeds(leaves: map<Leaf, Word>, parent: nat, pages: seq<PageRef>, child: nat, k: TableId)
    requires forall j | 0 <= j < |pages| :: pages[j].leaf in leaves && pages[j].leaf.root == parent
    requires k in ListTables(pages, |pages|, child)
    ensures k in MovedAll(PathTables(leaves, parent), child)
  {
    hide PathSet, ListTables, Moved;
    ListTablesAre(pages, |pages|, child, k);
    var j :| 0 <= j < |pages| && k in PathSet(Reroot(pages[j].leaf, child));
    PathMoved(pages[j].leaf, k, child);
    assert Moved(k, parent) in PathTables(leaves, parent);
  }

  lemma PathMoved(l: Leaf, k: TableId, child: nat)
    requires k in PathSet(Reroot(l, child))
    ensures Moved(k, l.root) in PathSet(l) && Moved(Moved(k, l.root), child) == k
  {
  }

  lemma PathListed(pages: seq<PageRef>, l: Leaf, k: TableId, child: nat)
    requires Has(pages, l) && k in PathSet(l)
    ensures k.root == l.root && Moved(k, child) in ListTables(pages, |pages|, child)
  {
    var j :| 0 <= j < |pages| && pages[j].leaf == l;
    assert Moved(k, child) in PathSet(Reroot(pages[j].leaf, child));
    ListTablesAre(pages, |pages|, child, Moved(k, child));
  }

  /** A fresh root has no tables below it. */
  lemma FreshSpace(mem0: Memory, head0: nat, g0: Shape, g: Shape, pages: seq<PageRef>, child: nat)
    requires Ok(mem0, head0, g0) && |g0.free| > 0 && L4(child) !in g0.node && g == Planted(Popped(g0), child)
    ensures ForkPaid(g0, g, pages, 0, child)
  {
    forall k | k in g0.node
      ensures k.root != child
    {
      RootOfTable(mem0, head0, g0, k);
    }
    assert SpaceTables(g, child) == {};
  }

  /** Taking the write permission away takes no frame and no table. */
  lemma SharingTakesNone(g0: Shape, g1: Shape, g: Shape, l: Leaf, w: Word, c: Leaf, done: bool)
    requires g1 == WithLeaf(g0, l, w) && TablesGrew(g1, g, c, done)
    ensures TablesGrew(g0, g, c, done)
  {
  }

  lemma PaidInFull(g0: Shape, g: Shape, pages: seq<PageRef>, child: nat)
    requires ForkPaid(g0, g, pages, |pages|, child)
    ensures |g0.free| >= 1 + |ListTables(pages, |pages|, child)|
  {
  }

  lemma KeptBeside(g0: Shape, g1: Shape, g: Shape, child: nat)
    requires Kept(g0, g1.(node := g1.node - {L4(child)})) && Kept(g1, g) && L4(child) in g1.node
    ensures L4(child) in g.node && Kept(g0, g.(node := g.node - {L4(child)}))
  {
  }

  /** A frame taken for a page that could not be mapped is in hand, and nobody else's. */
  lemma FrameInHand(mem0: Memory, head0: nat, g0: Shape, head1: nat, mem: Memory, g: Shape, l: Leaf, w: Word,
                    r: MapResult)
    requires Ok(mem0, head0, g0) && |g0.free| > 0 && Ok(mem0, head1, Popped(g0))
    requires MapOutcome(mem0, Popped(g0), mem, g, l, w, r) && r != Done
    ensures var f := g0.free[|g0.free| - 1]; f !in HeldFrames(g0) && HeldFrames(g) == HeldFrames(g0) + {f}
  {
    hide Ok, Extended, Untouched, Kept, HeldKept, Popped, HeldFrames, Missing;
    FreeIsFree(mem0, head0, g0);
    PoppedHeld(g0);
    ExtendedFacts(mem0, head1, Popped(g0), mem, g, l);
    HeldSame(mem0, Popped(g0), mem, g);
  }

  lemma PoppedHeld(g: Shape)
    requires |g.free| > 0 && g.free[|g.free| - 1] in g.role && g.role[g.free[|g.free| - 1]].FreeAt?
    ensures var f := g.free[|g.free| - 1]; f !in HeldFrames(g) && HeldFrames(Popped(g)) == HeldFrames(g) + {f}
  {
  }

  lemma HeldSame(mem0: Memory, g0: Shape, mem: Memory, g: Shape)
    requires HeldKept(mem0, g0, mem, g)
    ensures HeldFrames(g) == HeldFrames(g0)
  {
  }
}
