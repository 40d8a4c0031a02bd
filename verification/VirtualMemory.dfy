/** The kernel's paging code over physical memory. */
module VirtualMemory {
  import opened Basics
  import opened Frames
  import opened FrameTables
  import opened Sharing
  import opened ShareTable
  import opened Spaces
  import opened PageWalk
  import opened Teardown
  import opened PageLists
  import opened CopyOnWrite
  import opened FrameBalance
  import opened ForkTables
  import opened BootFrames

  class Kernel {
    var mem: Memory
    var head: nat
    var free: nat
    var cr3: nat
    var shared: seq<(nat, nat)>
    ghost var g: Shape

    ghost predicate Sane()
      reads this
    {
      Ok(mem, head, g) && free == |g.free|
    }

    /** The share table is right, and nothing writable is shared. */
    ghost predicate SharesOk()
      reads this
    {
      Distinct(shared) && Counted(AsMap(shared), g.leaves) && Private(g.leaves)
    }

    ghost predicate Valid()
      reads this
    {
      Sane() && g.cut == map[] && SharesOk()
    }

    /** The machine as the boot loader leaves it: running on the tables rooted at frame `boot`, which have no user half,
        with no frame to give out yet. */
    constructor (ram: Memory, boot: nat)
      requires boot > 0 && boot in ram && !ram[boot][0].present
      ensures mem == ram && head == 0 && free == 0 && cr3 == boot && shared == [] && g == Bare(boot)
    {
      mem, head, free, cr3, shared, g := ram, 0, 0, boot, [], Bare(boot);
    }

    /** Build the free list from the regions the firmware calls usable. */
    method Init(regions: seq<Region>, ghost ram: Memory, ghost boot: nat)
      requires MapOk(regions, ram, boot)
      requires mem == ram && head == 0 && free == 0 && cr3 == boot && shared == [] && g == Bare(boot)
      modifies this`mem, this`head, this`free, this`g
      ensures Valid() && mem.Keys == ram.Keys
      ensures g.node == map[L4(boot) := boot] && g.leaves == map[] && g.free == UsableFrames(regions, |regions|)
      ensures HeldFrames(g) == {} && Sees() == map[]
    {
      hide Ok, MapOk, UsableFrames, Booting, Bare, Distinct, Counted, Private, AsMap, ViewOf, Readable, HeldFrames;
      BareIsOk(regions, ram, boot);
      BootStarts(regions, boot);
      for i := 0 to |regions|
        invariant Sane() && Booting(g, boot, UsableFrames(regions, i)) && mem.Keys == ram.Keys
      {
        if regions[i].usable {
          AddRegion(regions, i, ram, boot);
        } else {
          RegionSkipped(regions, i);
        }
      }
      BootEnds(mem, head, g, boot, UsableFrames(regions, |regions|));
    }

    /** The frames of one region. */
    method AddRegion(regions: seq<Region>, i: nat, ghost ram: Memory, ghost boot: nat)
      requires Sane() && MapOk(regions, ram, boot) && i < |regions| && regions[i].usable
      requires Booting(g, boot, UsableFrames(regions, i)) && mem.Keys == ram.Keys
      modifies this`mem, this`head, this`free, this`g
      ensures Sane() && Booting(g, boot, UsableFrames(regions, i + 1)) && mem.Keys == ram.Keys
    {
      hide Ok, MapOk, UsableFrames, FramesBelow, Booting, Found, Pushed;
      var frame := FirstFrame(regions[i]);
      RegionStarts(regions, i);
      while frame < EndFrame(regions[i])
        invariant FirstFrame(regions[i]) <= frame && Sane() && mem.Keys == ram.Keys
        invariant frame <= EndFrame(regions[i]) || frame == FirstFrame(regions[i])
        invariant Booting(g, boot, UsableFrames(regions, i) + FramesBelow(regions[i], frame))
      {
        ghost var so := UsableFrames(regions, i) + FramesBelow(regions[i], frame);
        FrameNext(regions, i, frame);
        if frame >= 256 {
          NextFrame(regions, ram, boot, i, frame);
          BootingUnknown(g, boot, so, frame);
          FoundKeepsOk(mem, head, g, frame);
          BootingOne(g, boot, so, frame);
          g := Found(g, frame);
          Deallocate(frame);
        }
        frame := frame + 1;
      }
      RegionEnds(regions, i, frame);
    }

    // --- frames ---------------------------------------------------------------

    method Allocate() returns (r: Option<nat>)
      requires Sane()
      modifies this`head, this`free, this`g
      ensures Sane()
      ensures r.None? <==> |old(g.free)| == 0
      ensures r.None? ==> g == old(g)
      ensures r.Some? ==> && r.value == old(g.free)[|old(g.free)| - 1] && g == Popped(old(g))
                          && r.value in g.role && g.role[r.value] == Held && r.value in mem && r.value > 0
    {
      assert |g.free| > 0 ==> g.free[|g.free| - 1] in g.role && g.free[|g.free| - 1] > 0;
      if head == 0 {
        return None;
      }
      PopKeepsOk(mem, head, g);
      r := Some(head);
      g := Popped(g);
      head := mem[head][0].frame;
      free := free - 1;
    }

    method Deallocate(frame: nat)
      requires Sane() && frame in g.role && g.role[frame] == Held
      modifies this`mem, this`head, this`free, this`g
      ensures Sane() && g == Pushed(old(g), frame)
      ensures mem.Keys == old(mem).Keys && forall f | f in old(mem) && f != frame :: mem[f] == old(mem)[f]
    {
      PushKeepsOk(mem, head, g, frame);
      mem := Store(mem, frame, 0, LinkWord(head));
      g := Pushed(g, frame);
      head := frame;
      free := free + 1;
    }

    // --- mapping ----------------------------------------------------------------

    /** A fresh, zeroed table named by entry `index` of `table`. */
    method NewTable(table: nat, index: Idx, user: bool, ghost c: TableId) returns (r: Option<nat>)
      requires Sane() && !c.L4? && c !in g.node && Parent(c) in g.node && Cut(g, Parent(c)) <= Index(c)
      requires table == g.node[Parent(c)] && index == Index(c)
      modifies this`mem, this`head, this`free, this`g
      ensures Sane() && Grew(old(g), g) && Untouched(old(mem), old(g), mem)
      ensures r.None? <==> |old(g.free)| == 0
      ensures r.None? ==> g == old(g) && mem == old(mem)
      ensures r.Some? ==> && g.node == old(g.node)[c := r.value]
                          && |g.free| == |old(g.free)| - 1
    {
      hide Tree, Leaves, FreeList, DataRoles;
      ghost var mem0, g0 := mem, g;
      r := Allocate();
      if r.Some? {
        var f := r.value;
        assert g0.role[f] == FreeAt(|g0.free| - 1);
        GraftGrew(g0, c);
        var entry := ZERO.(frame := f, present := true, writable := true, user := user);
        FreshUntouched(mem0, g0, f, Blank(), Parent(c), Index(c), entry);
        ContentKeepsOk(mem, head, g, f, Blank());
        hide Grew, Untouched, FreeRoles, TableRoles, Backed;
        mem := mem[f := Blank()];
        assert NoEntries(mem, f);
        GraftKeepsOk(mem, head, g, c, f, entry);
        mem := Store(mem, table, index, entry);
        g := Grafted(g, c, f);
      }
    }

    /** One level of the walk, creating the next table when the path does not exist. */
    method Descend(table: nat, index: Idx, user: bool, ghost l: Leaf, ghost level: nat) returns (r: Option<nat>)
      requires Sane() && level < 3 && PathId(l, level) in g.node && g.cut == map[]
      requires table == g.node[PathId(l, level)] && index == PathIndex(l, level)
      modifies this`mem, this`head, this`free, this`g
      ensures Sane() && Grew(old(g), g) && Untouched(old(mem), old(g), mem)
      ensures r.None? <==> PathId(l, level + 1) !in old(g.node) && |old(g.free)| == 0
      ensures r.None? ==> g == old(g) && mem == old(mem)
      ensures r.Some? ==> && PathId(l, level + 1) in g.node && r.value == g.node[PathId(l, level + 1)]
                          && g.node.Keys == old(g.node).Keys + {PathId(l, level + 1)}
                          && |g.free| == |old(g.free)| - (if PathId(l, level + 1) in old(g.node) then 0 else 1)
    {
      PathStep(l, level);
      ghost var k, c := PathId(l, level), PathId(l, level + 1);
      assert g.role[table] == TableOf(k);
      var entry := mem[table][index];
      assert Sprouts(mem, g, k, index);
      if c in g.node { assert Hangs(mem, g, c); }
      hide Tree, Leaves, FreeList, DataRoles, FreeRoles;
      if entry.present {
        if user && !entry.user {
          WidenKeepsOk(mem, head, g, c);
          mem := Store(mem, table, index, entry.(user := true));
        }
        r := Some(entry.frame);
      } else {
        r := NewTable(table, index, user, c);
      }
    }

    /** Walk levels 4, 3 and 2, creating tables where the path does not exist. */
    method WalkCreating(root: nat, user: bool, l: Leaf) returns (r: Option<nat>)
      requires Sane() && g.cut == map[] && l.root == root && L4(root) in g.node
      modifies this`mem, this`head, this`free, this`g
      ensures Sane() && Extended(old(mem), old(g), mem, g, l)
      ensures r.None? ==> Missing(old(g), l) > |old(g.free)| && |g.free| == 0
      ensures r.Some? ==> && Home(l) in g.node && r.value == g.node[Home(l)]
                          && |g.free| == |old(g.free)| - Missing(old(g), l)
    {
      hide Ok, Untouched, Missing, Grew, Extended, PathIndex;
      var indexes := [PathIndex(l, 0), PathIndex(l, 1), PathIndex(l, 2)];
      var table := root;
      ghost var g0, mem0 := g, mem;
      WalkStarts(mem, head, g, l);
      for level := 0 to 3
        invariant Sane() && Walked(mem0, g0, mem, g, l, level) && table == g.node[PathId(l, level)]
      {
        ghost var before, memory, first := g, mem, head;
        var next := Descend(table, indexes[level], user, l, level);
        if next.None? {
          WalkFails(mem0, g0, memory, before, l, level);
          return None;
        }
        WalkContinues(mem0, g0, memory, first, before, mem, g, l, level);
        table := next.value;
      }
      WalkEnds(mem0, g0, mem, head, g, l);
      r := Some(table);
    }

    /** Map a user page, creating any missing tables on the way. */
    method MapPageIn(root: nat, l: Leaf, frame: nat, flags: Word) returns (r: MapResult)
      requires Sane() && g.cut == map[] && l.root == root && L4(root) in g.node
      requires frame in g.role && (g.role[frame].Held? || g.role[frame].Data?)
      modifies this`mem, this`head, this`free, this`g
      ensures Sane() && g.cut == map[]
      ensures MapOutcome(old(mem), old(g), mem, g, l, flags.(frame := frame, present := true), r)
    {
      hide Ok, Missing, Extended;
      ghost var g0, mem0 := g, mem;
      LeafHasHome(mem, head, g, l);
      var found := WalkCreating(root, flags.user, l);
      ExtendedKeeps(mem0, g0, mem, g, l, frame);
      if found.None? {
        return OutOfMemory;
      }
      var table := found.value;
      LeafIsEntry(mem, head, g, l);
      if mem[table][l.i1].present {
        return AlreadyMapped;
      }
      ghost var mid := g;
      var w := flags.(frame := frame, present := true);
      SetExtends(mem0, g0, mem, head, g, l, w);
      mem := Store(mem, table, l.i1, w);
      g := WithLeaf(g, l, w);
      assert MapDone(mem0, g0, mem, g, l, w, mid);
      return Done;
    }

    // --- teardown -----------------------------------------------------------------

    /** Let go of one data page: drop our share of it, or give the frame back if it was the last. */
    method FreeLeaf(entry: Word, ghost l: Leaf) returns (freed: nat)
      requires Sane() && SharesOk() && l in g.leaves && entry == g.leaves[l] && Cut(g, Home(l)) == l.i1
      modifies this`mem, this`head, this`free, this`g, this`shared
      ensures Sane() && SharesOk() && Released(old(mem), old(g), mem, g)
      ensures exists last :: g == Dropped(old(g), l, last)
      ensures |g.free| == |old(g.free)| + freed
    {
      hide Ok, Counted, Private, AsMap, Released;
      ghost var mem0, head0, g0 := mem, head, g;
      var owners := ShareCount(shared, entry.frame);
      DropByCutting(mem, head, g, l);
      OwnersElsewhere(AsMap(shared), mem, head, g, l);
      if owners > 1 {
        CountsAreTwo(shared, g.leaves);
        DropShared(AsMap(shared), g.leaves, l);
        var left;
        shared, left := Unshare(shared, entry.frame);
        g := WithoutLeaf(g, l, g.cut[Home(l) := l.i1 + 1]);
        DropReleases(mem0, head0, g0, l, mem, false);
        assert g == Dropped(g0, l, false);
        freed := 0;
      } else {
        DropSole(AsMap(shared), g.leaves, l);
        g := WithoutLeaf(g, l, g.cut[Home(l) := l.i1 + 1]);
        Deallocate(entry.frame);
        DropReleases(mem0, head0, g0, l, mem, true);
        assert g == Dropped(g0, l, true);
        freed := 1;
      }
    }

    /** Free a table and everything under it. */
    method FreeSubtree(table: nat, level: nat, ghost k: TableId) returns (freed: nat)
      requires Sane() && SharesOk() && k in g.node && table == g.node[k] && NoCut(g, k)
      requires level == (match k case L4(_) => 4 case L3(_) => 3 case L2(_, _) => 2 case L1(_, _, _) => 1) < 4
      requires Cut(g, Parent(k)) == Index(k)
      modifies this`mem, this`head, this`free, this`g, this`shared
      ensures Sane() && SharesOk() && Released(old(mem), old(g), mem, g) && Gone(old(g), g, k)
      ensures |g.free| == |old(g.free)| + freed
      decreases level
    {
      hide Ok, Released, Swept, Gone, Counted, Private, AsMap, Distinct, Cut, NoCut;
      ghost var mem0, g0 := mem, g;
      SweepStarts(mem, g, k);
      freed := 0;
      for index := 0 to 512
        invariant Sane() && SharesOk() && Released(mem0, g0, mem, g) && Swept(g0, g, k, index)
        invariant |g.free| == |g0.free| + freed
      {
        ghost var mem1, g1, head1 := mem, g, head;
        SweptFacts(mem0, g0, mem, head, g, k, index, table);
        var entry := mem[table][index];
        if !entry.present {
          SweepNothing(g0, mem, head, g, k, index);
          g := Advanced(g, k);
        } else if level == 1 {
          ghost var l := Leaf(k.root, k.i3, k.i2, index);
          LeafEntry(mem, head, g, k, index);
          var n := FreeLeaf(entry, l);
          ghost var last :| g == Dropped(g1, l, last);
          SweepLeaf(g0, g1, l, last);
          freed := freed + n;
        } else {
          ghost var c := Child(k, index);
          BelowEntry(mem, head, g, k, index);
          var n := FreeSubtree(entry.frame, level - 1, c);
          SweepChild(g0, g1, g, k, index);
          freed := freed + n;
        }
        ReleasedTwice(mem0, g0, mem1, g1, mem, g);
      }
      SweptFacts(mem0, g0, mem, head, g, k, 512, table);
      FinishTable(table, k, mem0, g0);
      freed := freed + 1;
    }

    method FinishTable(table: nat, ghost k: TableId, ghost mem0: Memory, ghost g0: Shape)
      requires Sane() && SharesOk() && Released(mem0, g0, mem, g) && Swept(g0, g, k, 512)
      requires k in g.node && !k.L4? && table == g.node[k] && Cut(g, Parent(k)) == Index(k)
      modifies this`mem, this`head, this`free, this`g
      ensures Sane() && SharesOk() && Released(mem0, g0, mem, g) && Gone(g0, g, k)
      ensures |g.free| == |old(g.free)| + 1
    {
      hide Ok, Released, Swept, Gone, Counted, Private, AsMap;
      ghost var mem1, g1, head1 := mem, g, head;
      TeardownPrune(mem, head, g, g0, k);
      g := Pruned(g, k, g.cut[Parent(k) := Index(k) + 1]);
      Deallocate(table);
      PruneReleases(mem1, head1, g1, k, mem);
      ReleasedTwice(mem0, g0, mem1, g1, mem, g);
      SweepEnds(mem, g0, g1, k);
    }

    // --- address spaces --------------------------------------------------------------

    ghost function Sees(): View
      requires Ok(mem, head, g)
      reads this
    {
      OkIsReadable(mem, head, g);
      ViewOf(mem, g.leaves)
    }

    /** An address space with an empty user half and the kernel's slots copied from the active one. */
    method NewSpace() returns (r: Option<nat>)
      requires Valid() && L4(cr3) in g.node
      modifies this`mem, this`head, this`free, this`g
      ensures Valid() && Sees() == old(Sees()) && Untouched(old(mem), old(g), mem)
      ensures r.None? <==> |old(g.free)| == 0
      ensures r.None? ==> g == old(g) && mem == old(mem)
      ensures r.Some? ==> && |old(g.free)| > 0 && r.value == old(g.free)[|old(g.free)| - 1]
                          && L4(r.value) !in old(g.node) && g == Planted(Popped(old(g)), r.value)
                          && r.value in mem && cr3 in mem
                          && mem[r.value][0] == ZERO && forall i: Idx | i > 0 :: mem[r.value][i] == mem[cr3][i]
    {
      hide Ok, Counted, Private, AsMap, Distinct, Untouched;
      ghost var mem0, head0, g0 := mem, head, g;
      RootFacts(mem, head, g, cr3);
      UntouchedSelf(mem, head, g);
      r := Allocate();
      if r.Some? {
        var root := r.value;
        PoppedFacts(mem0, head0, g0, cr3);
        var page := Blank();
        var source := mem[cr3];
        for slot := 1 to 512
          invariant page[0] == ZERO && forall i | 1 <= i < slot :: page[i] == source[i]
        {
          page := page[slot := source[slot]];
        }
        ContentKeepsOk(mem, head, g, root, page);
        NewRootUntouched(mem0, head0, g0, root, page);
        mem := mem[root := page];
        PlantKeepsOk(mem, head, g, root);
        g := Planted(g, root);
      }
    }

    /** Every present page below a table, with the entry and where it is. */
    method Gather(table: nat, k: TableId) returns (out: seq<PageRef>)
      requires Sane() && g.cut == map[] && k in g.node && table == g.node[k] && !k.L4?
      ensures Listing(g, k, 512, out)
      decreases match k case L4(_) => 4 case L3(_) => 3 case L2(_, _) => 2 case L1(_, _, _) => 1
    {
      hide Ok, Listing, RefOk;
      out := [];
      ListingEmpty(g, k);
      for index := 0 to 512
        invariant Listing(g, k, index, out)
      {
        GatherEntry(mem, head, g, k, index);
        var entry := mem[table][index];
        if !entry.present || (!k.L1? && entry.huge) {
          ListingSkip(g, k, index, out);
        } else if k.L1? {
          var p := PageRef(Leaf(k.root, k.i3, k.i2, index), entry, table);
          ListingLeaf(g, index, out, p);
          out := out + [p];
        } else {
          var sub := Gather(entry.frame, Child(k, index));
          ListingAppend(g, k, index, out, sub);
          out := out + sub;
        }
      }
    }

    /** Every present page in the user half of an address space. */
    method UserPages(root: nat) returns (out: seq<PageRef>)
      requires Sane() && g.cut == map[] && L4(root) in g.node
      ensures Listing(g, L4(root), 512, out)
    {
      hide Ok, Listing;
      RootFacts(mem, head, g, root);
      GatherEntry(mem, head, g, L4(root), 0);
      ListingEmpty(g, L4(root));
      var slot0 := mem[root][0];
      if !slot0.present {
        ListingSkip(g, L4(root), 0, []);
        ListingWhole(g, root, []);
        return [];
      }
      out := Gather(slot0.frame, L3(root));
      ListingAppend(g, L4(root), 0, [], out);
      assert [] + out == out;
      ListingWhole(g, root, out);
    }

    /** Take the write permission away from a page and mark it copy-on-write, if it had any. */
    method ShareEntry(p: PageRef) returns (w: Word)
      requires Valid() && RefOk(g, p)
      modifies this`mem, this`g
      ensures Valid() && w == SharedWord(p.word) && g == WithLeaf(old(g), p.leaf, w) && g.role == old(g.role)
      ensures g.leaves == ShareLeaf(old(g.leaves), p.leaf) && p.word.present
      ensures Sees() == old(Sees()) && Untouched(old(mem), old(g), mem)
    {
      hide Ok, Counted, Private, AsMap, Distinct, ViewOf, Untouched, Readable, WithLeaf;
      w := SharedWord(p.word);
      ShareLeafKeeps(AsMap(shared), g.leaves, p.leaf);
      ShareStep(mem, head, g, p.leaf);
      ShareSeen(mem, head, g, p.leaf, SharedMem(mem, g, p.leaf));
      WithLeafFacts(g, p.leaf, w);
      if p.word.writable {
        mem := Store(mem, p.table, p.leaf.i1, w);
      }
      g := WithLeaf(g, p.leaf, w);
    }

    /** Map a page of another space a second time, under `c`. */
    method MapAgain(child: nat, c: Leaf, w: Word, ghost l: Leaf) returns (ok: bool)
      requires Valid() && c.root == child && L4(child) in g.node && c !in g.leaves
      requires l in g.leaves && g.leaves[l] == w && !w.writable && w.present
      modifies this`mem, this`head, this`free, this`g, this`shared
      ensures Valid() && Joined(old(mem), old(g), mem, g, c, w, ok) && TablesGrew(old(g), g, c, ok)
      ensures l in old(Sees()) && Sees() == if ok then old(Sees())[c := old(Sees())[l]] else old(Sees())
    {
      hide Ok, Counted, Private, AsMap, Distinct, MapOutcome, ViewOf, Untouched, Readable, TablesGrew;
      ghost var mem0, head0, g0 := mem, head, g;
      LeafFacts(mem, head, g, l);
      var outcome := MapPageIn(child, c, w.frame, w.(present := false));
      MapJoins(mem0, head0, g0, mem, g, c, w, l, outcome);
      MapGrows(mem0, g0, mem, head, g, c, w, outcome);
      JoinSeen(mem0, head0, g0, mem, head, g, c, w, l, outcome == Done);
      if outcome != Done {
        return false;
      }
      AddShared(AsMap(shared), g0.leaves, c, w, l);
      shared := Share(shared, w.frame);
      return true;
    }

    /** Share one page with the child: read-only in both, copy-on-write if it was writable. */
    method ForkPage(p: PageRef, child: nat) returns (ok: bool)
      requires Valid() && RefOk(g, p) && L4(child) in g.node && Reroot(p.leaf, child) !in g.leaves
      modifies this`mem, this`head, this`free, this`g, this`shared
      ensures Valid()
      ensures p.leaf in old(Sees())
      ensures Sees() == if ok then old(Sees())[Reroot(p.leaf, child) := old(Sees())[p.leaf]] else old(Sees())
      ensures PageForked(old(mem), old(g), mem, g, p.leaf) && (!ok ==> |g.free| == 0)
      ensures TablesGrew(old(g), g, Reroot(p.leaf, child), ok)
    {
      hide Ok, Counted, Private, AsMap, Distinct, ViewOf, Untouched, Joined, Readable, SharedWord, TablesGrew;
      ghost var mem0, head0, g0 := mem, head, g;
      var w := ShareEntry(p);
      SharedIsReadOnly(p.word);
      ghost var mem1, g1 := mem, g;
      var c := Reroot(p.leaf, child);
      ok := MapAgain(child, c, w, p.leaf);
      JoinedFacts(mem0, head0, g0, mem1, g1, mem, g, c, p.leaf, w, ok);
      SharingTakesNone(g0, g1, g, p.leaf, w, c, ok);
    }

    /** Duplicate an address space without duplicating its memory, exactly when there is a frame for the root and for
        every table on the way to a page of the parent.  Otherwise the half-built child, `child`, is left behind. */
    method Fork(parent: nat) returns (r: Option<nat>, ghost child: nat, ghost pages: seq<PageRef>, ghost done: nat)
      requires Valid() && L4(parent) in g.node && L4(cr3) in g.node
      modifies this`mem, this`head, this`free, this`g, this`shared
      ensures Valid()
      ensures r.Some? <==> |old(g.free)| >= 1 + |PathTables(old(g.leaves), parent)|
      ensures r.Some? ==> && r.value == child && EagerFork(old(Sees()), parent, child, Sees())
      ensures r.None? ==> |g.free| == 0 && Forked(old(Sees()), parent, child, pages, done, Sees())
      ensures |old(g.free)| > 0 ==> L4(child) in g.node && child == old(g.free)[|old(g.free)| - 1]
      ensures L4(child) !in old(g.node) && Kept(old(g), g.(node := g.node - {L4(child)}))
      ensures HeldKept(old(mem), old(g), mem, g)
    {
      hide Ok, Counted, Private, AsMap, Distinct, ViewOf, Untouched, Readable, Listing, Forked, EagerFork, PageForked,
           Planted, Popped, HeldKept,
           ForkPaid, TablesGrew, PathTables, ListTables, Has;
      ghost var mem0, head0, g0, v0 := mem, head, g, Sees();
      pages, done := [], 0;
      HeldSelf(mem, head, g);
      var space := NewSpace();
      if space.None? {
        ForkedNothing(v0, parent, 0, []);
        ZeroIsNoRoot(mem, head, g);
        return None, 0, [], 0;
      }
      child := space.value;
      NewSpaceFacts(mem0, head0, g0, mem, head, g, child);
      var list := UserPages(parent);
      ListingFacts(g, parent, list, g0.leaves);
      ForkNeeds(g0.leaves, parent, list, child);
      FreshSpace(mem0, head0, g0, g, list, child);
      pages := list;
      ForkedNothing(v0, parent, child, list);
      var n := 0;
      while n < |list|
        invariant 0 <= n <= |list| && Valid() && L4(child) in g.node && HeldKept(mem0, g0, mem, g)
        invariant Forked(v0, parent, child, list, n, Sees()) && ForkPaid(g0, g, list, n, child)
        invariant Kept(g0, g.(node := g.node - {L4(child)}))
        invariant forall j | n <= j < |list| :: RefOk(g, list[j])
      {
        ghost var mem1, head1, g1, v1 := mem, head, g, Sees();
        NotYetForked(v0, parent, child, list, n, v1);
        SeesKeys(mem, head, g);
        var ok := ForkPage(list[n], space.value);
        HeldForked(mem0, g0, mem1, g1, mem, g, list[n].leaf);
        KeptBeside(g0, g1, g, child);
        if !ok {
          ForkCannotPay(g0, mem1, head1, g1, g, list, n, child);
          done := n;
          return None, child, list, n;
        }
        ForkPays(g0, mem1, head1, g1, g, list, n, child);
        ForkedOne(v0, parent, child, list, n, v1, Sees());
        RefsKept(mem1, g1, mem, g, list, n);
        n := n + 1;
      }
      PaidInFull(g0, g, list, child);
      ForkedAll(v0, parent, child, list, Sees());
      done := n;
      r := Some(space.value);
    }

    // --- reading the tables ------------------------------------------------------------

    /** Follow the tables down to the last level, if they go that far. */
    method FindTable(l: Leaf) returns (r: Option<nat>)
      requires Sane() && g.cut == map[] && L4(l.root) in g.node
      ensures r.Some? <==> Home(l) in g.node
      ensures r.Some? ==> r.value == g.node[Home(l)] && r.value in mem
    {
      hide Ok;
      RootFacts(mem, head, g, l.root);
      var indexes := [PathIndex(l, 0), PathIndex(l, 1), PathIndex(l, 2)];
      var table := l.root;
      for level := 0 to 3
        invariant PathId(l, level) in g.node && table == g.node[PathId(l, level)]
      {
        PathStep(l, level);
        PathMissing(mem, head, g, l);
        GatherEntry(mem, head, g, PathId(l, level), PathIndex(l, level));
        var entry := mem[table][indexes[level]];
        if !entry.present || entry.huge {
          PathCut(g, l, level);
          return None;
        }
        table := entry.frame;
      }
      GatherEntry(mem, head, g, PathId(l, 3), 0);
      return Some(table);
    }

    /** What a page resolves to. */
    method TranslateIn(l: Leaf) returns (r: Option<Word>)
      requires Sane() && g.cut == map[] && L4(l.root) in g.node
      ensures r == if l in g.leaves then Some(g.leaves[l]) else None
    {
      hide Ok;
      var table := FindTable(l);
      LeafHasHome(mem, head, g, l);
      if table.None? {
        return None;
      }
      LeafIsEntry(mem, head, g, l);
      var entry := mem[table.value][l.i1];
      r := if entry.present then Some(entry) else None;
    }

    // --- copy on write ------------------------------------------------------------------

    /** The faulting page gets a frame of its own, with the same bytes. */
    method TakeCopy(table: nat, l: Leaf, entry: Word)
      requires Valid() && l in g.leaves && entry == g.leaves[l] && entry.cow && !entry.writable
      requires Home(l) in g.node && table == g.node[Home(l)] && |g.free| > 0 && CountOf(AsMap(shared), entry.frame) > 1
      modifies this`mem, this`head, this`free, this`g, this`shared
      ensures Valid() && Sees() == old(Sees())
      ensures exists f :: g.leaves == old(g.leaves)[l := PrivateWord(entry, f)]
      ensures g.node == old(g.node) && HeldKept(old(mem), old(g), mem, g)
    {
      hide Ok, Counted, Private, AsMap, Distinct, ViewOf, Readable, HeldKept, OwnedElsewhere, Untouched;
      ghost var mem0, head0, g0, table0 := mem, head, g, AsMap(shared);
      CountsAreTwo(shared, g.leaves);
      OwnersElsewhere(table0, mem, head, g, l);
      var left;
      shared, left := Unshare(shared, entry.frame);
      var taken := Allocate();
      var f := taken.value;
      FreshHasNoOwner(mem, head, g, f);
      MoveToFresh(table0, g.leaves, l, f);
      CopyKeepsOk(mem0, head0, g0, head, f, l);
      CopySeen(mem0, head0, g0, f, l);
      mem := mem[f := mem[entry.frame]];
      ghost var w := PrivateWord(entry, f);
      mem := Store(mem, table, l.i1, PrivateWord(entry, f));
      g := WithLeaf(g, l, w);
      assert g.leaves == g0.leaves[l := PrivateWord(entry, f)];
    }

    /** A write to the page would have to copy a frame others share. */
    ghost predicate NeedsFrame(l: Leaf)
      requires Valid()
      reads this
    {
      l in g.leaves && g.leaves[l].cow && !g.leaves[l].writable && CountOf(AsMap(shared), g.leaves[l].frame) > 1
    }

    /** Resolve a write fault on a copy-on-write page.  If others share it, a frame must be available. */
    method CowFault(l: Leaf) returns (ok: bool)
      requires Valid() && l.root == cr3 && L4(cr3) in g.node && (NeedsFrame(l) ==> |g.free| > 0)
      modifies this`mem, this`head, this`free, this`g, this`shared
      ensures Valid() && Sees() == old(Sees())
      ensures ok <==> l in old(g.leaves) && old(g.leaves)[l].cow && !old(g.leaves)[l].writable
      ensures ok ==> exists f :: g.leaves == old(g.leaves)[l := PrivateWord(old(g.leaves)[l], f)]
      ensures !ok ==> g == old(g)
      ensures g.node == old(g.node) && HeldKept(old(mem), old(g), mem, g)
    {
      hide Ok, Counted, Private, AsMap, Distinct, ViewOf, Readable, HeldKept, Untouched;
      HeldSelf(mem, head, g);
      ghost var mem0, head0, g0 := mem, head, g;
      var table := FindTable(l);
      LeafHasHome(mem, head, g, l);
      if table.None? {
        return false;
      }
      LeafIsEntry(mem, head, g, l);
      var entry := mem[table.value][l.i1];
      if !entry.present || !entry.cow || entry.writable {
        return false;
      }
      var owners := ShareCount(shared, entry.frame);
      if owners > 1 {
        TakeCopy(table.value, l, entry);
      } else {
        ReclaimSole(AsMap(shared), g.leaves, l);
        ReclaimKeepsOk(mem, head, g, l);
        mem := Store(mem, table.value, l.i1, PrivateWord(entry, entry.frame));
        g := WithLeaf(g, l, PrivateWord(entry, entry.frame));
        assert g.leaves == g0.leaves[l := PrivateWord(entry, entry.frame)];
      }
      return true;
    }

    /** A program stores a word: the processor takes the store, or faults and tries again once. */
    method UserWrite(l: Leaf, i: Idx, w: Word) returns (ok: bool)
      requires Valid() && L4(l.root) in g.node && (NeedsFrame(l) ==> |g.free| > 0)
      modifies this
      ensures Valid()
      ensures ok <==> l in old(Sees()) && old(Sees())[l].mayWrite
      ensures Sees() == if ok then EagerWrite(old(Sees()), l, i, w) else old(Sees())
      ensures g.node == old(g.node) && HeldKept(old(mem), old(g), mem, g)
    {
      hide Ok, Counted, Private, AsMap, Distinct, ViewOf, Readable, HeldKept, Untouched, EagerWrite;
      cr3 := l.root;
      HeldSelf(mem, head, g);
      SeesLeaf(mem, head, g, l);
      ghost var mem0, g0 := mem, g;
      var found := TranslateIn(l);
      if found.None? {
        return false;
      }
      if !found.value.writable {
        var fixed := CowFault(l);
        if !fixed {
          return false;
        }
        found := TranslateIn(l);
      }
      LeafFacts(mem, head, g, l);
      OkIsReadable(mem, head, g);
      StoreSeen(mem, g.leaves, l, i, w);
      ContentKeepsOk(mem, head, g, found.value.frame, mem[found.value.frame][i := w]);
      HeldStore(mem0, g0, mem, g, found.value.frame, mem[found.value.frame][i := w]);
      mem := Store(mem, found.value.frame, i, w);
      return true;
    }

    /** Tear the user half down and return every frame, including the tables. */
    method Destroy(root: nat) returns (freed: nat)
      requires Valid() && L4(root) in g.node
      modifies this`mem, this`head, this`free, this`g, this`shared
      ensures Valid() && Sees() == EagerDestroy(old(Sees()), root)
      ensures forall k :: k in g.node <==> k in old(g.node) && k.root != root
      ensures Released(old(mem), old(g), mem, g) && |g.free| == |old(g.free)| + freed
    {
      hide Ok, Counted, Private, AsMap, Distinct, ViewOf, Readable, Released, Gone;
      ghost var mem0, head0, g0 := mem, head, g;
      RootFacts(mem, head, g, root);
      GatherEntry(mem, head, g, L4(root), 0);
      ReleasedSelf(mem, head, g);
      freed := 0;
      var slot0 := mem[root][0];
      if slot0.present {
        NoCutAtRest(g, L3(root));
        freed := FreeSubtree(slot0.frame, 3, L3(root));
        GoneFacts(mem0, head0, g0, mem, head, g, root);
      } else {
        NothingBelow(mem, head, g, root);
      }
      ghost var mem1, head1, g1 := mem, head, g;
      UprootSteps(mem, head, g, root);
      g := Pruned(g, L4(root), g.cut);
      mem := Store(mem, root, 0, if slot0.present then ZERO else mem[root][0]);
      Deallocate(root);
      UprootReleases(mem0, g0, mem1, head1, g1, mem, g, root);
      ReleasedSeen(mem0, head0, g0, mem, head, g, root);
      freed := freed + 1;
    }

    // --- unmapping -----------------------------------------------------------------------

    /** Does this table have no present entries left? */
    method TableIsEmpty(table: nat) returns (empty: bool)
      requires table in mem
      ensures empty <==> forall i: Idx :: !mem[table][i].present
    {
      for index := 0 to 512
        invariant forall i: Idx | i < index :: !mem[table][i].present
      {
        if mem[table][index].present {
          return false;
        }
      }
      return true;
    }

    /** The tables on the way to a mapped page, root first. */
    method PathOf(l: Leaf) returns (tables: seq<nat>)
      requires Sane() && g.cut == map[] && L4(l.root) in g.node
      ensures tables == [] <==> l !in g.leaves
      ensures tables != [] ==> |tables| == 4 && forall j | 0 <= j <= 3 :: PathId(l, j) in g.node
                                                                          && tables[j] == g.node[PathId(l, j)]
    {
      hide Ok;
      RootFacts(mem, head, g, l.root);
      LeafHasHome(mem, head, g, l);
      PathMissing(mem, head, g, l);
      var table := l.root;
      tables := [];
      for level := 0 to 4
        invariant |tables| == level && forall j | 0 <= j < level :: PathId(l, j) in g.node
                                                                    && tables[j] == g.node[PathId(l, j)]
        invariant level < 4 ==> PathId(l, level) in g.node && table == g.node[PathId(l, level)]
        invariant level == 4 ==> l in g.leaves
      {
        tables := tables + [table];
        GatherEntry(mem, head, g, PathId(l, level), PathIndex(l, level));
        var entry := mem[table][PathIndex(l, level)];
        if !entry.present {
          if level < 3 { PathStep(l, level); PathCut(g, l, level); }
          return [];
        }
        if level < 3 {
          PathStep(l, level);
          table := entry.frame;
        }
      }
    }

    /** Give one emptied table back and clear the entry that named it. */
    method GiveUpTable(l: Leaf, level: nat, table: nat, parent: nat)
      requires Sane() && g.cut == map[] && 1 <= level <= 3 && PathId(l, level) in g.node
      requires table == g.node[PathId(l, level)] && PathId(l, level - 1) in g.node
               && parent == g.node[PathId(l, level - 1)]
      requires table in mem && forall i: Idx :: !mem[table][i].present
      modifies this`mem, this`head, this`free, this`g
      ensures Sane() && g.cut == map[] && Trimmed(old(mem), old(g), mem, g, l)
      ensures g.node == old(g.node) - {PathId(l, level)}
    {
      hide Ok, Trimmed;
      ghost var mem0, head0, g0, k := mem, head, g, PathId(l, level);
      PathStep(l, level - 1);
      BarrenPrunes(mem, head, g, k);
      mem := Store(mem, parent, PathIndex(l, level - 1), ZERO);
      g := Pruned(g, k, g.cut);
      Deallocate(table);
      TrimOne(mem0, head0, g0, k, mem, l);
    }

    /** Undo a mapping, give back the tables it was the last entry in, and hand the frame over. */
    method UnmapPage(l: Leaf) returns (r: Option<nat>)
      requires Sane() && g.cut == map[] && l.root == cr3 && L4(cr3) in g.node
      modifies this`mem, this`head, this`free, this`g
      ensures Sane() && g.cut == map[]
      ensures r.Some? <==> l in old(g.leaves)
      ensures r.None? ==> g == old(g) && mem == old(mem)
      ensures r.Some? ==> && r.value == old(g.leaves)[l].frame && g.leaves == old(g.leaves) - {l}
                          && |g.free| + |g.node| == |old(g.free)| + |old(g.node)|
                          && (exists mid :: Trimmed(mid, WithoutLeaf(old(g), l, map[]), mem, g, l)
                                            && Untouched(old(mem), old(g), mid))
                          && forall j | 1 <= j <= 3 && PathId(l, j) in g.node ::
                               g.node[PathId(l, j)] in mem && !forall i: Idx :: !mem[g.node[PathId(l, j)]][i].present
    {
      hide Ok, Trimmed, Untouched, WithoutLeaf;
      ghost var mem0, g0 := mem, g;
      var tables := PathOf(l);
      if tables == [] {
        return None;
      }
      assert PathId(l, 3) == Home(l);
      LeafFacts(mem, head, g, l);
      var entry := mem[tables[3]][l.i1];
      DropByClearing(mem, head, g, l);
      ClearUntouched(mem, head, g, l);
      WithoutFacts(g, l);
      mem := Store(mem, tables[3], l.i1, ZERO);
      g := WithoutLeaf(g, l, g.cut);
      ghost var mem1, g1 := mem, g;
      TrimmedSelf(mem, head, g, l);
      var level := 3;
      while level > 0
        invariant 0 <= level <= 3 && Sane() && g.cut == map[] && Trimmed(mem1, g1, mem, g, l)
        invariant forall j | 0 <= j <= level :: PathId(l, j) in g.node && tables[j] == g.node[PathId(l, j)]
        invariant forall j | level < j <= 3 :: PathId(l, j) !in g.node
      {
        TableIsTable(mem, head, g, PathId(l, level));
        var empty := TableIsEmpty(tables[level]);
        if !empty {
          break;
        }
        ghost var mem2, g2 := mem, g;
        GiveUpTable(l, level, tables[level], tables[level - 1]);
        TrimTwice(mem1, g1, mem2, g2, mem, g, l);
        level := level - 1;
      }
      PathNotEmpty(mem, head, g, l, level);
      TrimmedFacts(mem0, g0, mem1, mem, g, l);
      return Some(entry.frame);
    }

    // --- demand paging ----------------------------------------------------------------------

    /** Back a promised page with a zeroed frame.  A frame taken for a page that then cannot be mapped
        stays in hand, lost to the allocator. */
    method DemandFault(l: Leaf) returns (ok: bool)
      requires Valid() && l.root == cr3 && L4(cr3) in g.node && |g.free| > 0
      modifies this`mem, this`head, this`free, this`g
      ensures Valid()
      ensures ok <==> l !in old(g.leaves) && Missing(old(g), l) < |old(g.free)|
      ensures l !in old(Sees()) || Sees() == old(Sees())
      ensures Sees() == if ok then old(Sees())[l := Seen(Blank(), true, true, false)] else old(Sees())
      ensures Kept(old(g), g) && (ok ==> HeldKept(old(mem), old(g), mem, g))
      ensures !ok && l !in old(g.leaves) ==>
                && |g.free| == 0 && old(g.free)[|old(g.free)| - 1] !in HeldFrames(old(g))
                && HeldFrames(g) == HeldFrames(old(g)) + {old(g.free)[|old(g.free)| - 1]}
    {
      hide Ok, Counted, Private, AsMap, Distinct, ViewOf, Readable, Untouched, MapOutcome, Missing, Popped, Kept,
           HeldKept, HeldFrames;
      ghost var mem0, head0, g0 := mem, head, g;
      SeesKeys(mem, head, g);
      KeptSelf(g);
      var found := TranslateIn(l);
      if found.Some? {
        return false;
      }
      var taken := Allocate();
      var f := taken.value;
      ghost var head1, g1 := head, g;
      FreshPopped(mem0, head0, g0, l);
      FreshHasNoOwner(mem, head, g, f);
      var outcome := MapPageIn(cr3, l, f, ZERO.(user := true, writable := true));
      FreshMapped(mem0, head0, g0, head1, g1, mem, head, g, l, f, outcome);
      if outcome != Done {
        FrameInHand(mem0, head0, g0, head1, mem, g, l, DemandWord(f), outcome);
        return false;
      }
      AddFresh(AsMap(shared), g1.leaves, l, DemandWord(f));
      mem := mem[f := Blank()];
      return true;
    }
  }
}
