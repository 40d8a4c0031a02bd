/** The frames the firmware calls usable, and memory as the kernel finds it. */
module BootFrames {
  import opened Frames
  import opened FrameTables
  import opened Sharing
  import opened ShareTable
  import opened Spaces
  import opened FrameBalance

  /** A stretch of physical memory, in bytes. */
  datatype Region = Region(start: nat, end: nat, usable: bool)

  /** Rounded inward: a partial frame at either end is not a frame. */
  function FirstFrame(r: Region): nat { (r.start + 4095) / 4096 }

  function EndFrame(r: Region): nat { r.end / 4096 }

  /** Whole frames of a region below frame `n`, the first megabyte left out. */
  function FramesBelow(r: Region, n: nat): seq<nat> {
    if n <= FirstFrame(r) then [] else FramesBelow(r, n - 1) + if n - 1 >= 256 then [n - 1] else []
  }

  function FramesIn(r: Region): seq<nat> { if r.usable then FramesBelow(r, EndFrame(r)) else [] }

  /** The usable frames of the first `n` regions, in order. */
  function UsableFrames(regions: seq<Region>, n: nat): seq<nat>
    requires n <= |regions|
  {
    if n == 0 then [] else UsableFrames(regions, n - 1) + FramesIn(regions[n - 1])
  }

  lemma {:induction false} BelowIsPrefix(r: Region, m: nat, n: nat)
    requires m <= n
    ensures FramesBelow(r, m) <= FramesBelow(r, n)
  {
    if m < n { BelowIsPrefix(r, m, n - 1); }
  }

  lemma {:induction false} UsableIsPrefix(regions: seq<Region>, m: nat, n: nat)
    requires m <= n <= |regions|
    ensures UsableFrames(regions, m) <= UsableFrames(regions, n)
  {
    if m < n { UsableIsPrefix(regions, m, n - 1); }
  }

  /** The firmware's map names every frame once, and none of them holds the tables the machine is running on. */
  ghost predicate MapOk(regions: seq<Region>, ram: Memory, boot: nat) {
    var all := UsableFrames(regions, |regions|);
    && (forall i, j | 0 <= i < j < |all| :: all[i] != all[j])
    && (forall i | 0 <= i < |all| :: all[i] in ram)
    && boot > 0 && boot in ram && boot !in all && !ram[boot][0].present
  }

  /** The next frame is one nobody has seen yet. */
  lemma NextFrame(regions: seq<Region>, ram: Memory, boot: nat, i: nat, frame: nat)
    requires MapOk(regions, ram, boot) && i < |regions| && regions[i].usable
    requires FirstFrame(regions[i]) <= frame < EndFrame(regions[i]) && frame >= 256
    ensures var so := UsableFrames(regions, i) + FramesBelow(regions[i], frame);
            frame in ram && frame != boot && frame !in so
  {
    var so := UsableFrames(regions, i) + FramesBelow(regions[i], frame);
    var all := UsableFrames(regions, |regions|);
    BelowIsPrefix(regions[i], frame + 1, EndFrame(regions[i]));
    UsableIsPrefix(regions, i + 1, |regions|);
    assert FramesBelow(regions[i], frame + 1) == FramesBelow(regions[i], frame) + [frame];
    assert so + [frame] <= all;
    assert all[|so|] == frame;
    forall k | 0 <= k < |so|
      ensures so[k] != frame
    {
      assert all[k] == so[k];
    }
  }

  /** One root and nothing else. */
  ghost function Bare(boot: nat): Shape {
    Shape(map[L4(boot) := boot], map[boot := TableOf(L4(boot))], [], map[], map[])
  }

  lemma BareIsOk(regions: seq<Region>, ram: Memory, boot: nat)
    requires MapOk(regions, ram, boot)
    ensures Ok(ram, 0, Bare(boot)) && Bare(boot).free == []
  {
    var g := Bare(boot);
    forall k, i: Idx | k in g.node && !k.L1?
      ensures Sprouts(ram, g, k, i)
    {
    }
    assert forall l: Leaf :: Home(l) !in g.node;
  }

  /** A frame nobody knew of, in hand. */
  ghost function Found(g: Shape, f: nat): Shape { g.(role := g.role[f := Held]) }

  lemma FoundKeepsOk(mem: Memory, head: nat, g: Shape, f: nat)
    requires Ok(mem, head, g) && f in mem && f > 0 && f !in g.role
    ensures Ok(mem, head, Found(g, f))
  {
    var g' := Found(g, f);
    assert TableRoles(g') && FreeRoles(g') && DataRoles(g') && Backed(mem, g') && FreeList(mem, head, g');
    TablesFrame(mem, g, mem, g');
  }

  // --- how far building the free list has got -----------------------------------------------------

  /** The root, and the frames of `list` on the free list in that order. */
  ghost predicate Booting(g: Shape, boot: nat, list: seq<nat>) {
    && g.node == map[L4(boot) := boot] && g.leaves == map[] && g.cut == map[] && g.free == list
    && (forall f | f in g.role :: f == boot || f in list) && HeldFrames(g) == {}
  }

  lemma BootStarts(regions: seq<Region>, boot: nat)
    ensures Booting(Bare(boot), boot, UsableFrames(regions, 0))
  {
  }

  lemma RegionSkipped(regions: seq<Region>, i: nat)
    requires i < |regions| && !regions[i].usable
    ensures UsableFrames(regions, i + 1) == UsableFrames(regions, i)
  {
  }

  lemma RegionStarts(regions: seq<Region>, i: nat)
    requires i < |regions|
    ensures UsableFrames(regions, i) + FramesBelow(regions[i], FirstFrame(regions[i])) == UsableFrames(regions, i)
  {
  }

  lemma FrameNext(regions: seq<Region>, i: nat, frame: nat)
    requires i < |regions| && FirstFrame(regions[i]) <= frame
    ensures var so := UsableFrames(regions, i) + FramesBelow(regions[i], frame);
            UsableFrames(regions, i) + FramesBelow(regions[i], frame + 1) == if frame >= 256 then so + [frame] else so
  {
  }

  lemma RegionEnds(regions: seq<Region>, i: nat, frame: nat)
    requires i < |regions| && regions[i].usable && FirstFrame(regions[i]) <= frame && frame >= EndFrame(regions[i])
    requires frame <= EndFrame(regions[i]) || frame == FirstFrame(regions[i])
    ensures UsableFrames(regions, i + 1) == UsableFrames(regions, i) + FramesBelow(regions[i], frame)
  {
    assert frame > EndFrame(regions[i]) ==>
             FramesBelow(regions[i], EndFrame(regions[i])) == [] == FramesBelow(regions[i], frame);
  }

  lemma BootingUnknown(g: Shape, boot: nat, list: seq<nat>, f: nat)
    requires Booting(g, boot, list) && f != boot && f !in list
    ensures f !in g.role
  {
  }

  lemma BootingOne(g: Shape, boot: nat, list: seq<nat>, f: nat)
    requires Booting(g, boot, list) && f !in g.role
    ensures f in Found(g, f).role && Found(g, f).role[f] == Held && |Found(g, f).free| == |g.free|
    ensures Booting(Pushed(Found(g, f), f), boot, list + [f])
  {
    var g' := Pushed(Found(g, f), f);
    assert g'.role == g.role[f := FreeAt(|g.free|)];
    hide Found, Pushed;
    forall x | x in g'.role
      ensures g'.role[x] != Held
    {
      assert x != f ==> x !in HeldFrames(g);
    }
  }

  lemma BootEnds(mem: Memory, head: nat, g: Shape, boot: nat, list: seq<nat>)
    requires Ok(mem, head, g) && Booting(g, boot, list)
    ensures Distinct([]) && Counted(AsMap([]), g.leaves) && Private(g.leaves)
    ensures Readable(mem, g.leaves) && ViewOf(mem, g.leaves) == map[]
    ensures g.node == map[L4(boot) := boot] && g.leaves == map[] && g.cut == map[] && g.free == list
            && HeldFrames(g) == {}
  {
    hide Ok;
  }
}
