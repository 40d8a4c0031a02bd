/** What programs can see of memory, and what fork, writes and teardown would do to it if every
    address space simply had its own copy of every page. */
module Spaces {
  import opened Frames
  import opened FrameTables
  import opened Sharing

  /** One page as its program sees it: the bytes, and what it is allowed to do. */
  datatype Seen = Seen(content: Page, mayWrite: bool, user: bool, noExecute: bool)

  type View = map<Leaf, Seen>

  ghost function SeenAs(mem: Memory, w: Word): Seen
    requires w.frame in mem
  {
    Seen(mem[w.frame], w.writable || w.cow, w.user, w.noExecute)
  }

  ghost predicate Readable(mem: Memory, leaves: map<Leaf, Word>) {
    forall l | l in leaves :: leaves[l].frame in mem
  }

  ghost function ViewOf(mem: Memory, leaves: map<Leaf, Word>): (v: View)
    requires Readable(mem, leaves)
    ensures v.Keys == leaves.Keys
  {
    map l | l in leaves :: SeenAs(mem, leaves[l])
  }

  function Reroot(l: Leaf, root: nat): Leaf { l.(root := root) }

  // --- eager copying ----------------------------------------------------------

  /** The child sees exactly what the parent sees; nobody sees any change. */
  ghost predicate EagerFork(v: View, parent: nat, child: nat, v': View) {
    && (forall l :: l in v' <==> l in v || (l.root == child && Reroot(l, parent) in v))
    && (forall l | l in v :: v'[l] == v[l])
    && (forall l | l in v' && l !in v :: v'[l] == v[Reroot(l, parent)])
  }

  function EagerWrite(v: View, l: Leaf, i: Idx, w: Word): View
    requires l in v
  {
    v[l := v[l].(content := v[l].content[i := w])]
  }

  function EagerDestroy(v: View, root: nat): View {
    map l | l in v && l.root != root :: v[l]
  }

  // --- how the view follows from memory ----------------------------------------

  lemma OkIsReadable(mem: Memory, head: nat, g: Shape)
    requires Ok(mem, head, g)
    ensures Readable(mem, g.leaves)
  {
    hide Tree, Leaves, FreeList, TableRoles, FreeRoles;
  }

  /** Flags may change as long as the permission to write, eventually, does not. */
  lemma SameView(mem: Memory, leaves: map<Leaf, Word>, mem': Memory, leaves': map<Leaf, Word>)
    requires Readable(mem, leaves) && Readable(mem', leaves') && leaves.Keys == leaves'.Keys
    requires forall l | l in leaves :: SeenAs(mem, leaves[l]) == SeenAs(mem', leaves'[l])
    ensures ViewOf(mem, leaves) == ViewOf(mem', leaves')
  {
  }

  // --- positions in the tree -----------------------------------------------------

  /** Leaf `l` hangs somewhere below table `k`. */
  predicate Under(k: TableId, l: Leaf) {
    match k
    case L4(r) => l.root == r
    case L3(r) => l.root == r
    case L2(r, i3) => l.root == r && l.i3 == i3
    case L1(r, i3, i2) => l.root == r && l.i3 == i3 && l.i2 == i2
  }

  /** Which entry of `k` leads to `l`. */
  function IndexIn(k: TableId, l: Leaf): Idx {
    match k
    case L4(_) => 0
    case L3(_) => l.i3
    case L2(_, _) => l.i2
    case L1(_, _, _) => l.i1
  }

  /** Table `c` is `k` or hangs somewhere below it. */
  predicate Within(k: TableId, c: TableId) {
    && c.root == k.root
    && match k
       case L4(_) => true
       case L3(_) => !c.L4?
       case L2(_, i3) => (c.L2? || c.L1?) && c.i3 == i3
       case L1(_, _, _) => c == k
  }

  function TableIndexIn(k: TableId, c: TableId): Idx
    requires Within(k, c) && c != k
  {
    match k
    case L4(_) => 0
    case L3(_) => c.i3
    case L2(_, _) => c.i2
  }

  lemma UnderChild(k: TableId, i: Idx, l: Leaf)
    requires !k.L1? && UserSlot(k, i)
    ensures Under(Child(k, i), l) <==> Under(k, l) && IndexIn(k, l) == i
  {
  }

  lemma WithinChild(k: TableId, i: Idx, c: TableId)
    requires !k.L1? && UserSlot(k, i)
    ensures Within(Child(k, i), c) <==> Within(k, c) && c != k && TableIndexIn(k, c) == i
  {
  }
}
