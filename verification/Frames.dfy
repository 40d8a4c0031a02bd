/** Physical memory as the kernel's paging code sees it: frames of 512 words, some of them on a
    free list threaded through their own first word, some of them page tables, some of them data.

    `Shape` is the bookkeeping the code does not keep: which frame plays which role. */
module Frames {

  type Idx = i: int | 0 <= i < 512

  /** A 64-bit word by its bit fields: bits 12..51, then the flag bits the kernel uses, then the rest. */
  datatype Word = Word(frame: nat, present: bool, writable: bool, user: bool, accessed: bool, dirty: bool,
                       huge: bool, cow: bool, swapped: bool, noExecute: bool, rest: nat)

  const ZERO := Word(0, false, false, false, false, false, false, false, false, false, 0)

  type Page = s: seq<Word> | |s| == 512 witness seq(512, _ => ZERO)

  type Memory = map<nat, Page>

  function Blank(): Page { seq(512, _ => ZERO) }

  function Store(mem: Memory, f: nat, i: Idx, w: Word): Memory
    requires f in mem
  {
    mem[f := mem[f][i := w]]
  }

  /** A page table by its position in the tree of the address space rooted at `root`. */
  datatype TableId = L4(root: nat) | L3(root: nat) | L2(root: nat, i3: Idx) | L1(root: nat, i3: Idx, i2: Idx)

  /** A user page of an address space: slot 0 of the root, then three indexes. */
  datatype Leaf = Leaf(root: nat, i3: Idx, i2: Idx, i1: Idx)

  function Parent(k: TableId): TableId
    requires !k.L4?
  {
    match k
    case L3(r) => L4(r)
    case L2(r, _) => L3(r)
    case L1(r, i3, _) => L2(r, i3)
  }

  /** Which entry of its parent names this table. */
  function Index(k: TableId): Idx
    requires !k.L4?
  {
    match k
    case L3(_) => 0
    case L2(_, i3) => i3
    case L1(_, _, i2) => i2
  }

  predicate UserSlot(k: TableId, i: Idx) { k.L4? ==> i == 0 }

  function Child(k: TableId, i: Idx): TableId
    requires !k.L1?
  {
    match k
    case L4(r) => L3(r)
    case L3(r) => L2(r, i)
    case L2(r, i3) => L1(r, i3, i)
  }

  function Home(l: Leaf): TableId { L1(l.root, l.i3, l.i2) }

  datatype Role = FreeAt(at: nat) | TableOf(id: TableId) | Data | Held

  /** `cut` says how far a teardown has got: entries of table `k` below `cut[k]` are already dead. */
  datatype Shape = Shape(node: map<TableId, nat>, role: map<nat, Role>, free: seq<nat>,
                         leaves: map<Leaf, Word>, cut: map<TableId, nat>)

  ghost function Cut(g: Shape, k: TableId): nat { if k in g.cut then g.cut[k] else 0 }

  ghost predicate TableRoles(g: Shape) {
    && (forall k | k in g.node :: g.node[k] in g.role && g.role[g.node[k]] == TableOf(k))
    && (forall f | f in g.role && g.role[f].TableOf? :: g.role[f].id in g.node && g.node[g.role[f].id] == f)
    && (forall k | k in g.node && k.L4? :: g.node[k] == k.root)
    && (forall k | k in g.cut :: k in g.node)
  }

  ghost predicate FreeRoles(g: Shape) {
    && (forall i | 0 <= i < |g.free| :: g.free[i] in g.role && g.role[g.free[i]] == FreeAt(i))
    && (forall f | f in g.role && g.role[f].FreeAt? :: g.role[f].at < |g.free| && g.free[g.role[f].at] == f)
    && (forall f | f in g.role :: f > 0)
  }

  ghost predicate DataRoles(g: Shape) {
    && (forall l | l in g.leaves :: g.leaves[l].frame in g.role && g.role[g.leaves[l].frame] == Data)
    && (forall f | f in g.role && g.role[f].Data? :: exists l :: l in g.leaves && g.leaves[l].frame == f)
  }

  ghost predicate Backed(mem: Memory, g: Shape) {
    forall f | f in g.role :: f in mem
  }

  /** The word through which a free frame is linked: the next one, or nothing. */
  function LinkWord(next: nat): Word { ZERO.(frame := next) }

  function Below(free: seq<nat>, i: nat): nat { if 0 < i <= |free| then free[i - 1] else 0 }

  /** The free list: its head is the frame freed last. */
  ghost predicate FreeList(mem: Memory, head: nat, g: Shape)
    requires Backed(mem, g) && FreeRoles(g)
  {
    && head == Below(g.free, |g.free|)
    && forall f | f in g.role && g.role[f].FreeAt? :: mem[f][0] == LinkWord(Below(g.free, g.role[f].at))
  }

  /** A table below the root is named by a live, present entry of its parent. */
  ghost predicate Hangs(mem: Memory, g: Shape, k: TableId)
    requires TableRoles(g) && Backed(mem, g) && k in g.node && !k.L4?
  {
    && Parent(k) in g.node
    && Index(k) >= Cut(g, Parent(k))
    && var e := mem[g.node[Parent(k)]][Index(k)];
       e.present && !e.huge && e.frame == g.node[k]
  }

  /** A live, present entry of a table above the last level names a table of the tree. */
  ghost predicate Sprouts(mem: Memory, g: Shape, k: TableId, i: Idx)
    requires TableRoles(g) && Backed(mem, g) && k in g.node && !k.L1?
  {
    UserSlot(k, i) && Cut(g, k) <= i && mem[g.node[k]][i].present ==> Child(k, i) in g.node
  }

  ghost predicate Tree(mem: Memory, g: Shape)
    requires TableRoles(g) && Backed(mem, g)
  {
    && (forall k {:trigger Hangs(mem, g, k)} | k in g.node && !k.L4? :: Hangs(mem, g, k))
    && (forall k, i: Idx {:trigger Sprouts(mem, g, k, i)} | k in g.node && !k.L1? :: Sprouts(mem, g, k, i))
  }

  ghost predicate LeafOk(mem: Memory, g: Shape, l: Leaf)
    requires TableRoles(g) && Backed(mem, g) && l in g.leaves
  {
    && Home(l) in g.node
    && l.i1 >= Cut(g, Home(l))
    && g.leaves[l].present
    && mem[g.node[Home(l)]][l.i1] == g.leaves[l]
  }

  /** A live, present entry of a last-level table is a leaf. */
  ghost predicate Tracked(mem: Memory, g: Shape, l: Leaf)
    requires TableRoles(g) && Backed(mem, g) && Home(l) in g.node
  {
    Cut(g, Home(l)) <= l.i1 && mem[g.node[Home(l)]][l.i1].present ==> l in g.leaves
  }

  ghost predicate Leaves(mem: Memory, g: Shape)
    requires TableRoles(g) && Backed(mem, g)
  {
    && (forall l {:trigger LeafOk(mem, g, l)} | l in g.leaves :: LeafOk(mem, g, l))
    && (forall l {:trigger Tracked(mem, g, l)} | Home(l) in g.node :: Tracked(mem, g, l))
  }

  /** Every frame has exactly one role, and memory says the same. */
  ghost predicate Ok(mem: Memory, head: nat, g: Shape) {
    && TableRoles(g) && FreeRoles(g) && DataRoles(g) && Backed(mem, g)
    && FreeList(mem, head, g)
    && Tree(mem, g)
    && Leaves(mem, g)
  }

  // --- what does not depend on what ------------------------------------------

  /** The tree and its leaves are read from the tables alone. */
  lemma TablesFrame(mem: Memory, g: Shape, mem': Memory, g': Shape)
    requires TableRoles(g) && Backed(mem, g) && Tree(mem, g) && Leaves(mem, g)
    requires TableRoles(g') && Backed(mem', g')
    requires g'.node == g.node && g'.cut == g.cut && g'.leaves == g.leaves
    requires forall k | k in g.node :: mem'[g.node[k]] == mem[g.node[k]]
    ensures Tree(mem', g') && Leaves(mem', g')
  {
    forall k | k in g.node && !k.L4?
      ensures Hangs(mem', g', k)
    {
      assert Hangs(mem, g, k);
    }
    forall k, i: Idx | k in g.node && !k.L1?
      ensures Sprouts(mem', g', k, i)
    {
      assert Sprouts(mem, g, k, i);
    }
    forall l | l in g.leaves
      ensures LeafOk(mem', g', l)
    {
      assert LeafOk(mem, g, l);
    }
    forall l | Home(l) in g.node
      ensures Tracked(mem', g', l)
    {
      assert Tracked(mem, g, l);
    }
  }

  // --- the free list --------------------------------------------------------

  ghost function Popped(g: Shape): Shape
    requires |g.free| > 0
  {
    var f := g.free[|g.free| - 1];
    g.(free := g.free[..|g.free| - 1], role := g.role[f := Held])
  }

  lemma PoppedRoles(g: Shape)
    requires |g.free| > 0 && TableRoles(g) && FreeRoles(g) && DataRoles(g)
    ensures TableRoles(Popped(g)) && FreeRoles(Popped(g)) && DataRoles(Popped(g))
  {
    var top := |g.free| - 1;
    assert g.role[g.free[top]] == FreeAt(top);
    PoppedFree(g);
  }

  lemma PoppedFree(g: Shape)
    requires |g.free| > 0 && FreeRoles(g)
    ensures FreeRoles(Popped(g))
  {
    var g', top := Popped(g), |g.free| - 1;
    assert g.role[g.free[top]] == FreeAt(top);
    forall i | 0 <= i < |g'.free|
      ensures g'.free[i] in g'.role && g'.role[g'.free[i]] == FreeAt(i)
    {
      assert g'.free[i] == g.free[i] && g.role[g.free[i]] == FreeAt(i);
    }
    forall f | f in g'.role && g'.role[f].FreeAt?
      ensures g'.role[f].at < |g'.free| && g'.free[g'.role[f].at] == f
    {
      assert f != g.free[top];
    }
  }

  lemma PoppedList(mem: Memory, head: nat, g: Shape)
    requires Backed(mem, g) && FreeRoles(g) && FreeList(mem, head, g) && |g.free| > 0
    requires Backed(mem, Popped(g)) && FreeRoles(Popped(g))
    ensures head == g.free[|g.free| - 1] && head in mem
    ensures FreeList(mem, mem[head][0].frame, Popped(g))
  {
    var g' := Popped(g);
    assert g.role[g.free[|g.free| - 1]] == FreeAt(|g.free| - 1);
    forall f | f in g'.role && g'.role[f].FreeAt?
      ensures mem[f][0] == LinkWord(Below(g'.free, g'.role[f].at))
    {
      assert f in g.role && g.role[f] == g'.role[f];
    }
  }

  /** Taking the head leaves every other frame in its role. */
  lemma PopKeepsOk(mem: Memory, head: nat, g: Shape)
    requires Ok(mem, head, g) && head != 0
    ensures |g.free| > 0 && head == g.free[|g.free| - 1] && head in g.role && head in mem
    ensures Ok(mem, mem[head][0].frame, Popped(g))
  {
    PoppedRoles(g);
    assert Backed(mem, Popped(g));
    PoppedList(mem, head, g);
    TablesFrame(mem, g, mem, Popped(g));
    hide TableRoles, FreeRoles, DataRoles, Tree, Leaves, FreeList, Backed;
  }

  ghost function Pushed(g: Shape, f: nat): Shape {
    g.(free := g.free + [f], role := g.role[f := FreeAt(|g.free|)])
  }

  lemma PushedFree(g: Shape, f: nat)
    requires FreeRoles(g) && f in g.role && g.role[f] == Held
    ensures FreeRoles(Pushed(g, f))
  {
    var g' := Pushed(g, f);
    forall i | 0 <= i < |g'.free|
      ensures g'.free[i] in g'.role && g'.role[g'.free[i]] == FreeAt(i)
    {
      if i < |g.free| { assert g'.free[i] == g.free[i] && g.role[g.free[i]] == FreeAt(i); }
    }
    forall x | x in g'.role && g'.role[x].FreeAt?
      ensures g'.role[x].at < |g'.free| && g'.free[g'.role[x].at] == x
    {
    }
  }

  lemma PushedRoles(g: Shape, f: nat)
    requires TableRoles(g) && DataRoles(g) && f in g.role && g.role[f] == Held
    ensures TableRoles(Pushed(g, f)) && DataRoles(Pushed(g, f))
  {
  }

  lemma PushedList(mem: Memory, head: nat, g: Shape, f: nat)
    requires Backed(mem, g) && FreeRoles(g) && FreeList(mem, head, g) && f in g.role && g.role[f] == Held
    requires FreeRoles(Pushed(g, f))
    ensures f in mem && Backed(Store(mem, f, 0, LinkWord(head)), Pushed(g, f))
    ensures FreeList(Store(mem, f, 0, LinkWord(head)), f, Pushed(g, f))
  {
    var mem', g' := Store(mem, f, 0, LinkWord(head)), Pushed(g, f);
    forall x | x in g'.role && g'.role[x].FreeAt?
      ensures mem'[x][0] == LinkWord(Below(g'.free, g'.role[x].at))
    {
      if x != f { assert g.role[x] == g'.role[x] && g.role[x].at < |g.free|; }
    }
  }

  /** Putting a frame nobody uses back. */
  lemma PushKeepsOk(mem: Memory, head: nat, g: Shape, f: nat)
    requires Ok(mem, head, g) && f in g.role && g.role[f] == Held
    ensures f in mem && Ok(Store(mem, f, 0, LinkWord(head)), f, Pushed(g, f))
  {
    PushedFree(g, f);
    PushedRoles(g, f);
    PushedList(mem, head, g, f);
    assert forall k | k in g.node :: g.node[k] != f;
    TablesFrame(mem, g, Store(mem, f, 0, LinkWord(head)), Pushed(g, f));
    hide TableRoles, FreeRoles, DataRoles, Tree, Leaves, FreeList, Backed;
  }
}
