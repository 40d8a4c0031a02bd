/** The code of the kernel heap: a list of holes threaded through the free memory itself. */
module HeapAllocator {
  import opened Basics
  import opened HoleList
  import opened HoleLinks
  import opened Heap

  /** Round a layout up so that the block can hold a header when it is freed. */
  function Adjust(size: nat, align: nat): (r: (nat, nat))
    requires align in {1, 2, 4} || (align > 0 && align % HOLE_ALIGN == 0)
    ensures r.0 >= size && r.0 >= HOLE_SIZE && r.0 % HOLE_ALIGN == 0
    ensures r.1 >= align && r.1 % HOLE_ALIGN == 0 && r.1 % align == 0
  {
    var a := if align < HOLE_ALIGN then HOLE_ALIGN else align;
    var padded := AlignUp(size, a);
    MultipleOfEight(padded, a);
    assert a % align == 0;
    (if padded < HOLE_SIZE then HOLE_SIZE else padded, a)
  }

  lemma FitBounds(region: Hole, size: nat, align: nat, start: nat)
    requires align > 0 && Fits(region, size, align) == Some(start)
    ensures start % align == 0 && region.start <= start && start + size <= region.End()
    ensures start == region.start || start - region.start >= HOLE_SIZE
    ensures region.End() == start + size || region.End() - (start + size) >= HOLE_SIZE
  {
  }

  /** Whatever a fitting request leaves on either side can hold a header. */
  lemma LeftoversAreProper(region: Hole, taken: Hole)
    requires region.Proper() && taken.start % HOLE_ALIGN == 0 && taken.size % HOLE_ALIGN == 0
    requires region.start <= taken.start && taken.End() <= region.End()
    requires taken.start == region.start || taken.start - region.start >= HOLE_SIZE
    requires region.End() == taken.End() || region.End() - taken.End() >= HOLE_SIZE
    ensures taken.start > region.start ==> Hole(region.start, taken.start - region.start).Proper()
    ensures region.End() > taken.End() ==> Hole(taken.End(), region.End() - taken.End()).Proper()
  {
  }

  lemma FirstFitBounds(hs: seq<Hole>, k: nat, size: nat, align: nat, start: nat)
    requires Canonical(hs) && align > 0 && align % HOLE_ALIGN == 0 && size % HOLE_ALIGN == 0
    requires FirstFit(hs, size, align, k, start)
    ensures k < |hs| && start % align == 0 && hs[k].start <= start && start + size <= hs[k].End()
    ensures start > hs[k].start ==> Hole(hs[k].start, start - hs[k].start).Proper()
    ensures hs[k].End() > start + size ==> Hole(start + size, hs[k].End() - (start + size)).Proper()
  {
    hide Fits, AlignUp, NoFit;
    var region := hs[k];
    assert region.Proper();
    hide Canonical;
    FitBounds(region, size, align, start);
    MultipleOfEight(start, align);
    LeftoversAreProper(region, Hole(start, size));
  }

  lemma BetweenSplits(memory: Memory, chain: seq<nat>, at: nat, r: Hole)
    requires Listed(memory, chain) && Between(chain, at, r.start)
    ensures Splits(HolesOf(memory, chain), at, r)
  {
  }

  lemma UnusedIsUnlisted(hs: seq<Hole>, r: Hole)
    requires Canonical(hs) && r.Proper() && Unused(hs, r)
    ensures forall i | 0 <= i < |hs| :: hs[i].start != r.start
  {
    assert r.Has(r.start);
    assert forall i | 0 <= i < |hs| :: hs[i].Has(r.start) ==> Covers(hs, r.start);
  }

  lemma HoleIsSubtracted(hs: seq<Hole>, k: nat)
    requires Canonical(hs) && k < |hs|
    ensures Subtracted(hs, hs[k], Removed(hs, k))
  {
    WithoutHole(hs, k);
    assert Removed(hs, k) == hs[..k] + hs[k + 1..];
    assert forall b: int | hs[k].Has(b) :: Covers(hs, b);
  }

  /** The conditions under which the code merges are those under which the region joins. */
  lemma MergesAre(hs: seq<Hole>, at: nat, r: Hole, previous: nat, current: nat)
    requires at <= |hs| && forall i | 0 <= i < |hs| :: hs[i].start > 0
    requires current == (if at < |hs| then hs[at].start else 0)
    requires previous == (if at == 0 then 0 else hs[at - 1].start)
    ensures var forward := if current != 0 && r.End() == current then Swallow(Inserted(hs, at, r), at)
            else Inserted(hs, at, r);
            Merged(hs, at, r) == if previous != 0 && forward[at - 1].End() == r.start
                                 then Swallow(forward, at - 1) else forward
  {
    hide Merged, Swallow, Inserted;
    if at > 0 { ForwardKeepsLeft(hs, at, r); }
    MergesCompose(hs, at, r);
  }

  /** Inserting joined adds exactly the region's bytes. */
  lemma MergedAdds(hs: seq<Hole>, at: nat, r: Hole)
    requires Canonical(hs) && r.Proper() && Unused(hs, r) && Splits(hs, at, r)
    ensures Canonical(Merged(hs, at, r)) && Added(hs, r, Merged(hs, at, r))
  {
    hide Merged, Canonical, Covers, Unused;
    MergedIsCanonical(hs, at, r);
    MergedBytes(hs, at, r);
    forall b: int
      ensures Covers(Merged(hs, at, r), b) <==> Covers(hs, b) || r.Has(b)
    {
      MergedCovers(hs, at, r, b);
    }
  }

  class Allocator {
    /** Headers as last written; those of merged or allocated blocks are stale and unreachable. */
    var memory: Memory
    var head: nat
    var inUse: nat
    var liveAllocations: nat
    ghost var chain: seq<nat>
    ghost var live: map<nat, nat>

    ghost predicate ListOk()
      reads this
    {
      IsList(memory, head, chain) && Canonical(HolesOf(memory, chain))
    }

    ghost function Holes(): seq<Hole>
      requires ListOk()
      reads this
    {
      HolesOf(memory, chain)
    }

    ghost function View(): Contents
      requires ListOk()
      reads this
    {
      Contents(Holes(), live, inUse)
    }

    ghost predicate Valid()
      reads this
    {
      ListOk() && Inv(View()) && liveAllocations == |live|
    }

    /** The heap's range, handed over as one hole. */
    constructor ()
      ensures Valid() && View() == Contents(WHOLE, map[], 0)
    {
      memory := map[HEAP_START := Header(HEAP_SIZE, 0)];
      head, inUse, liveAllocations := HEAP_START, 0, 0;
      chain, live := [HEAP_START], map[];
      new;
      assert HolesOf(memory, chain) == WHOLE;
      ghost var start := Contents(WHOLE, map[], 0);
      assert IsRun([start], []);
      EveryRunKeepsInv([start], [], 0);
    }

    /** The last hole that starts before `address`, and the one after it. */
    method FindPlace(address: nat) returns (previous: nat, current: nat, ghost at: nat)
      requires IsList(memory, head, chain) && address > 0 && address !in chain
      ensures Between(chain, at, address)
      ensures current == At(chain, at) && previous == if at == 0 then 0 else chain[at - 1]
    {
      previous, current, at := 0, head, 0;
      while current != 0 && current < address
        invariant at <= |chain| && current == At(chain, at)
        invariant previous == if at == 0 then 0 else chain[at - 1]
        invariant at > 0 ==> chain[at - 1] < address
        decreases |chain| - at
      {
        assert Link(memory, chain, at);
        previous := current;
        current := memory[current].next;
        at := at + 1;
      }
      PlaceIsBetween(chain, at, address);
    }

    method LinkIn(address: nat, size: nat, previous: nat, current: nat, ghost at: nat)
      requires IsList(memory, head, chain) && Between(chain, at, address)
      requires current == At(chain, at) && previous == if at == 0 then 0 else chain[at - 1]
      modifies this`memory, this`head, this`chain
      ensures IsList(memory, head, chain) && chain == Inserted(old(chain), at, address)
      ensures HolesOf(memory, chain) == Inserted(HolesOf(old(memory), old(chain)), at, Hole(address, size))
    {
      LinkedIsList(memory, head, chain, at, address, size);
      LinkedHoles(memory, chain, at, address, size);
      if previous == 0 {
        head := address;
      } else {
        memory := memory[previous := Header(memory[previous].size, address)];
      }
      memory := memory[address := Header(size, current)];
      chain := Inserted(chain, at, address);
    }

    /** The hole at `left` runs into the one at `right`: make them one. */
    method Join(left: nat, right: nat, ghost i: nat)
      requires IsList(memory, head, chain) && i + 1 < |chain| && left == chain[i] && right == chain[i + 1]
      modifies this`memory, this`chain
      ensures IsList(memory, head, chain) && chain == Removed(old(chain), i + 1)
      ensures HolesOf(memory, chain) == Swallow(HolesOf(old(memory), old(chain)), i)
    {
      AbsorbedIsList(memory, head, chain, i);
      AbsorbedHoles(memory, chain, i);
      memory := memory[left := Header(memory[left].size + memory[right].size, memory[right].next)];
      chain := Removed(chain, i + 1);
    }

    /** This hole runs directly into the next one. */
    method MergeForward(address: nat, current: nat, ghost at: nat)
      requires IsList(memory, head, chain) && at < |chain| && address == chain[at] && current == At(chain, at + 1)
      modifies this`memory, this`chain
      ensures IsList(memory, head, chain) && At(chain, at) == address
      ensures at > 0 ==> At(chain, at - 1) == At(old(chain), at - 1)
      ensures var hs := HolesOf(old(memory), old(chain));
              HolesOf(memory, chain) == if current != 0 && hs[at].End() == current then Swallow(hs, at) else hs
    {
      if current != 0 && address + memory[address].size == current {
        Join(address, current, at);
      }
    }

    /** The previous hole runs directly into this one. */
    method MergeBackward(previous: nat, address: nat, ghost at: nat)
      requires IsList(memory, head, chain) && at < |chain| && address == chain[at]
      requires previous == if at == 0 then 0 else chain[at - 1]
      modifies this`memory, this`chain
      ensures IsList(memory, head, chain)
      ensures var hs := HolesOf(old(memory), old(chain));
              HolesOf(memory, chain) ==
                if previous != 0 && hs[at - 1].End() == address then Swallow(hs, at - 1) else hs
    {
      if previous != 0 && previous + memory[previous].size == address {
        Join(previous, address, at - 1);
      }
    }

    /** Return a region to the list, merging it with its neighbours. */
    method AddRegion(address: nat, size: nat)
      requires ListOk() && Hole(address, size).Proper() && Unused(Holes(), Hole(address, size))
      modifies this`memory, this`head, this`chain
      ensures ListOk() && Added(old(Holes()), Hole(address, size), Holes())
    {
      hide Canonical, Added, Merged, Ascending, Between, Unused, Splits, Swallow, Inserted, Removed;
      ghost var hs := Holes();
      UnusedIsUnlisted(hs, Hole(address, size));
      var previous, current;
      ghost var at;
      previous, current, at := FindPlace(address);
      BetweenSplits(memory, chain, at, Hole(address, size));
      LinkIn(address, size, previous, current, at);
      MergeForward(address, current, at);
      MergeBackward(previous, address, at);
      MergesAre(hs, at, Hole(address, size), previous, current);
      MergedAdds(hs, at, Hole(address, size));
    }

    /** The first hole the request fits in. */
    method FindFit(size: nat, align: nat) returns (r: Option<nat>, previous: nat, current: nat, ghost k: nat)
      requires ListOk() && align > 0
      ensures r.None? ==> NoFit(Holes(), size, align, |Holes()|)
      ensures r.Some? ==> && FirstFit(Holes(), size, align, k, r.value) && current == chain[k]
                          && previous == if k == 0 then 0 else chain[k - 1]
    {
      previous, current, k := 0, head, 0;
      while current != 0
        invariant k <= |chain| && current == At(chain, k)
        invariant previous == if k == 0 then 0 else chain[k - 1]
        invariant NoFit(Holes(), size, align, k)
        decreases |chain| - k
      {
        r := Fits(Hole(current, memory[current].size), size, align);
        if r.Some? {
          return;
        }
        assert Link(memory, chain, k);
        previous := current;
        current := memory[current].next;
        k := k + 1;
      }
      r := None;
    }

    method Unlink(previous: nat, current: nat, ghost k: nat)
      requires ListOk() && k < |chain| && current == chain[k] && previous == if k == 0 then 0 else chain[k - 1]
      modifies this`memory, this`head, this`chain
      ensures ListOk() && Subtracted(old(Holes()), old(Holes())[k], Holes())
    {
      hide Canonical, Covers, FreeBytes;
      UnlinkedIsList(memory, head, chain, k);
      UnlinkedHoles(memory, chain, k);
      HoleIsSubtracted(Holes(), k);
      var next := memory[current].next;
      if previous == 0 {
        head := next;
      } else {
        memory := memory[previous := Header(memory[previous].size, next)];
      }
      chain := Removed(chain, k);
    }

    /** Give the leftovers on either side of the taken block back. */
    method GiveBack(region: Hole, taken: Hole, ghost hs: seq<Hole>, ghost k: nat)
      requires ListOk() && Canonical(hs) && k < |hs| && region == hs[k] && Subtracted(hs, region, Holes())
      requires region.start <= taken.start && taken.End() <= region.End()
      requires taken.start > region.start ==> Hole(region.start, taken.start - region.start).Proper()
      requires region.End() > taken.End() ==> Hole(taken.End(), region.End() - taken.End()).Proper()
      modifies this`memory, this`head, this`chain
      ensures ListOk() && Subtracted(hs, taken, Holes())
    {
      hide Canonical, Covers, FreeBytes, Added, Subtracted, Unused, IsList;
      ghost var without := Holes();
      if taken.start > region.start {
        FrontIsUnused(hs, k, taken, without);
        AddRegion(region.start, taken.start - region.start);
      }
      ghost var front := Holes();
      if region.End() > taken.End() {
        BackIsUnused(hs, k, taken, without, front);
        AddRegion(taken.End(), region.End() - taken.End());
      }
      SplitIsSubtraction(hs, k, taken, without, front, Holes());
    }

    /** Split the first hole that fits and unlink what is taken. */
    method TakeRegion(size: nat, align: nat) returns (r: Option<nat>)
      requires ListOk() && align > 0 && align % HOLE_ALIGN == 0 && size >= HOLE_SIZE && size % HOLE_ALIGN == 0
      modifies this`memory, this`head, this`chain
      ensures ListOk()
      ensures r.None? ==> Holes() == old(Holes()) && NoFit(Holes(), size, align, |Holes()|)
      ensures r.Some? ==> && (exists k :: FirstFit(old(Holes()), size, align, k, r.value))
                          && r.value % align == 0
                          && Subtracted(old(Holes()), Hole(r.value, size), Holes())
    {
      hide Canonical, Subtracted, FirstFit, NoFit, Fits, AlignUp;
      ghost var hs := Holes();
      var previous, current;
      ghost var k;
      r, previous, current, k := FindFit(size, align);
      if r.Some? {
        var region := Hole(current, memory[current].size);
        FirstFitBounds(hs, k, size, align, r.value);
        Unlink(previous, current, k);
        GiveBack(region, Hole(r.value, size), hs, k);
      }
    }

    /** `GlobalAlloc::alloc`: an aligned block, or nothing when no hole fits. */
    method Allocate(layoutSize: nat, layoutAlign: nat) returns (r: Option<nat>)
      requires Valid()
      requires layoutAlign in {1, 2, 4} || (layoutAlign > 0 && layoutAlign % HOLE_ALIGN == 0)
      modifies this
      ensures Valid()
      ensures var (size, align) := Adjust(layoutSize, layoutAlign); Alloc(old(View()), size, align, r, View())
    {
      var (size, align) := Adjust(layoutSize, layoutAlign);
      ghost var before := View();
      r := TakeRegion(size, align);
      if r.Some? {
        inUse := inUse + size;
        liveAllocations := liveAllocations + 1;
        live := live[r.value := size];
      }
      AllocKeepsInv(before, size, align, r, View());
    }

    /** `GlobalAlloc::dealloc` of a block with the layout it was allocated with. */
    method Deallocate(p: nat, layoutSize: nat, layoutAlign: nat)
      requires Valid()
      requires layoutAlign in {1, 2, 4} || (layoutAlign > 0 && layoutAlign % HOLE_ALIGN == 0)
      requires p in live && live[p] == Adjust(layoutSize, layoutAlign).0
      modifies this
      ensures Valid() && Release(old(View()), p, View())
    {
      var (size, _) := Adjust(layoutSize, layoutAlign);
      ghost var before := View();
      LiveIsUnused(before, p);
      AddRegion(p, size);
      ReleaseIsCounted(before, p, Holes());
      inUse := inUse - size;
      liveAllocations := liveAllocations - 1;
      live := live - {p};
      ReleaseKeepsInv(before, p, View());
    }
  }
}
