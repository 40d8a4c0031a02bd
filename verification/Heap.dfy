/** The kernel heap: `alloc` and `dealloc` over a hole list threaded through free memory. */
module Heap {
  import opened Basics
  import opened HoleList

  /** What the heap is, seen from outside: its holes and its live allocations. */
  datatype Contents = Contents(holes: seq<Hole>, live: map<nat, nat>, inUse: nat)

  ghost predicate InLive(live: map<nat, nat>, b: int) {
    exists p :: p in live && Hole(p, live[p]).Has(b)
  }

  /** Every byte of the heap is in exactly one hole or exactly one live allocation. */
  ghost predicate Inv(c: Contents) {
    && Canonical(c.holes)
    && (forall p | p in c.live :: Hole(p, c.live[p]).Proper())
    && (forall p, q | p in c.live && q in c.live && p < q :: p + c.live[p] <= q)
    && (forall b: int :: Covers(c.holes, b) ==> !InLive(c.live, b))
    && (forall b: int :: HEAP_START <= b < HEAP_START + HEAP_SIZE <==> Covers(c.holes, b) || InLive(c.live, b))
    && FreeBytes(c.holes) + c.inUse == HEAP_SIZE
  }

  /** The request would sit at `start` in hole `k`, and fits in no earlier hole. */
  ghost predicate FirstFit(hs: seq<Hole>, size: nat, align: nat, k: nat, start: nat)
    requires align > 0
  {
    && k < |hs|
    && Fits(hs[k], size, align) == Some(start)
    && NoFit(hs, size, align, k)
  }

  ghost predicate NoFit(hs: seq<Hole>, size: nat, align: nat, n: nat)
    requires align > 0 && n <= |hs|
  {
    forall j | 0 <= j < n :: Fits(hs[j], size, align).None?
  }

  /** `hs'` is the list of the bytes of `hs` and of `r`. */
  ghost predicate Added(hs: seq<Hole>, r: Hole, hs': seq<Hole>) {
    && Canonical(hs')
    && (forall b: int :: Covers(hs', b) <==> Covers(hs, b) || r.Has(b))
    && FreeBytes(hs') == FreeBytes(hs) + r.size
  }

  /** `hs'` is the list of the bytes of `hs` that are not in `r`, all of which were in `hs`. */
  ghost predicate Subtracted(hs: seq<Hole>, r: Hole, hs': seq<Hole>) {
    && Canonical(hs')
    && (forall b: int | r.Has(b) :: Covers(hs, b))
    && (forall b: int :: Covers(hs', b) <==> Covers(hs, b) && !r.Has(b))
    && FreeBytes(hs') + r.size == FreeBytes(hs)
  }

  /** A request for `size` bytes at `align`, and its answer. */
  ghost predicate Alloc(c: Contents, size: nat, align: nat, r: Option<nat>, c': Contents)
    requires align > 0
  {
    match r
    case None => c' == c && NoFit(c.holes, size, align, |c.holes|)
    case Some(p) =>
      && (exists k :: FirstFit(c.holes, size, align, k, p))
      && p % align == 0
      && Subtracted(c.holes, Hole(p, size), c'.holes)
      && c'.live == c.live[p := size]
      && c'.inUse == c.inUse + size
  }

  /** Giving the live allocation at `p` back. */
  ghost predicate Release(c: Contents, p: nat, c': Contents) {
    && p in c.live
    && Added(c.holes, Hole(p, c.live[p]), c'.holes)
    && c'.live == c.live - {p}
    && c'.inUse == c.inUse - c.live[p]
  }

  // --- what every operation keeps ------------------------------------------

  lemma AllocKeepsInv(c: Contents, size: nat, align: nat, r: Option<nat>, c': Contents)
    requires Inv(c) && align > 0 && align % HOLE_ALIGN == 0 && size >= HOLE_SIZE && size % HOLE_ALIGN == 0
    requires Alloc(c, size, align, r, c')
    ensures Inv(c')
    ensures r.Some? ==> r.value !in c.live
  {
    if r.Some? {
      var p := r.value;
      var taken := Hole(p, size);
      assert taken.Has(p);
      MultipleOfEight(p, align);
      forall q | q in c.live
        ensures q + c.live[q] <= p || p + size <= q
      {
        var other := Hole(q, c.live[q]);
        assert other.Has(q) ==> InLive(c.live, q);
        assert other.Has(p) ==> InLive(c.live, p);
      }
      forall b: int
        ensures InLive(c'.live, b) <==> InLive(c.live, b) || taken.Has(b)
      {
        if q :| q in c.live && Hole(q, c.live[q]).Has(b) { assert q in c'.live; }
        if taken.Has(b) { assert p in c'.live; }
      }
    }
  }

  lemma ReleaseKeepsInv(c: Contents, p: nat, c': Contents)
    requires Inv(c) && Release(c, p, c')
    ensures Inv(c')
  {
    forall b: int
      ensures InLive(c'.live, b) <==> InLive(c.live, b) && !Hole(p, c.live[p]).Has(b)
    {
      if q :| q in c.live && Hole(q, c.live[q]).Has(b) {
        if q != p { assert q in c'.live; }
      }
    }
    forall b: int
      ensures Hole(p, c.live[p]).Has(b) ==> InLive(c.live, b)
    {
    }
  }

  lemma {:induction false} BytesFitBelow(hs: seq<Hole>, n: nat)
    requires Canonical(hs) && 0 < n <= |hs| && hs[0].start >= HEAP_START
    ensures BytesUpTo(hs, n) <= hs[n - 1].End() - HEAP_START
  {
    if n > 1 {
      BytesFitBelow(hs, n - 1);
      assert hs[n - 2].End() < hs[n - 1].start;
    }
  }

  /** Free bytes never exceed the heap. */
  lemma BytesAreBounded(hs: seq<Hole>)
    requires Canonical(hs)
    requires forall b: int | Covers(hs, b) :: HEAP_START <= b < HEAP_START + HEAP_SIZE
    ensures FreeBytes(hs) <= HEAP_SIZE
  {
    if |hs| > 0 {
      CoversHole(hs, 0, hs[0].start);
      CoversHole(hs, |hs| - 1, hs[|hs| - 1].End() - 1);
      BytesFitBelow(hs, |hs|);
    }
  }

  // --- splitting a hole -----------------------------------------------------

  /** The two leftovers of a hole and the list without it make up the list without the block. */
  lemma SplitIsSubtraction(hs: seq<Hole>, k: nat, taken: Hole, without: seq<Hole>, front: seq<Hole>, both: seq<Hole>)
    requires Canonical(hs) && k < |hs|
    requires hs[k].start <= taken.start && taken.End() <= hs[k].End()
    requires Subtracted(hs, hs[k], without)
    requires if taken.start > hs[k].start then Added(without, Hole(hs[k].start, taken.start - hs[k].start), front)
             else front == without
    requires if hs[k].End() > taken.End() then Added(front, Hole(taken.End(), hs[k].End() - taken.End()), both)
             else both == front
    ensures Subtracted(hs, taken, both)
  {
  }

  lemma FrontIsUnused(hs: seq<Hole>, k: nat, taken: Hole, without: seq<Hole>)
    requires k < |hs| && hs[k].start < taken.start && taken.End() <= hs[k].End()
    requires Subtracted(hs, hs[k], without)
    ensures Unused(without, Hole(hs[k].start, taken.start - hs[k].start))
  {
  }

  lemma BackIsUnused(hs: seq<Hole>, k: nat, taken: Hole, without: seq<Hole>, front: seq<Hole>)
    requires k < |hs| && hs[k].start <= taken.start && taken.End() < hs[k].End()
    requires Subtracted(hs, hs[k], without)
    requires if taken.start > hs[k].start then Added(without, Hole(hs[k].start, taken.start - hs[k].start), front)
             else front == without
    ensures Unused(front, Hole(taken.End(), hs[k].End() - taken.End()))
  {
  }

  lemma LiveIsUnused(c: Contents, p: nat)
    requires Inv(c) && p in c.live
    ensures Unused(c.holes, Hole(p, c.live[p]))
  {
    assert forall b: int | Hole(p, c.live[p]).Has(b) :: InLive(c.live, b);
  }

  /** Returning a live block cannot take the allocated count below zero. */
  lemma ReleaseIsCounted(c: Contents, p: nat, holes: seq<Hole>)
    requires Inv(c) && p in c.live && Added(c.holes, Hole(p, c.live[p]), holes)
    ensures c.live[p] <= c.inUse
  {
    assert forall b: int | Hole(p, c.live[p]).Has(b) :: InLive(c.live, b);
    BytesAreBounded(holes);
  }

  const WHOLE := [Hole(HEAP_START, HEAP_SIZE)]

  lemma WholeCovers(b: int)
    ensures Covers(WHOLE, b) <==> HEAP_START <= b < HEAP_START + HEAP_SIZE
  {
    if HEAP_START <= b < HEAP_START + HEAP_SIZE { assert WHOLE[0].Has(b); }
  }

  /** With nothing live the heap is the single hole it started as, whatever happened before. */
  lemma AllFreedIsWhole(c: Contents)
    requires Inv(c) && c.live == map[]
    ensures c.holes == WHOLE && c.inUse == 0
  {
    forall b: int
      ensures Covers(c.holes, b) <==> Covers(WHOLE, b)
    {
      WholeCovers(b);
    }
    assert Canonical(WHOLE);
    CanonicalIsUnique(c.holes, WHOLE);
    assert BytesUpTo(WHOLE, 1) == HEAP_SIZE;
  }

  datatype Op = Take(size: nat, align: nat, answer: Option<nat>) | Give(p: nat)

  ghost predicate Did(c: Contents, op: Op, c': Contents) {
    match op
    case Take(size, align, answer) =>
      && align > 0 && align % HOLE_ALIGN == 0 && size >= HOLE_SIZE && size % HOLE_ALIGN == 0
      && Alloc(c, size, align, answer, c')
    case Give(p) => Release(c, p, c')
  }

  /** The states of a run, one more than its operations. */
  ghost predicate IsRun(states: seq<Contents>, ops: seq<Op>) {
    && |states| == |ops| + 1
    && states[0] == Contents(WHOLE, map[], 0)
    && forall i | 0 <= i < |ops| :: Did(states[i], ops[i], states[i + 1])
  }

  lemma {:induction false} EveryRunKeepsInv(states: seq<Contents>, ops: seq<Op>, n: nat)
    requires IsRun(states, ops) && n < |states|
    ensures Inv(states[n])
    ensures states[n].live == map[] ==> states[n] == states[0]
  {
    if n == 0 {
      assert Canonical(WHOLE) && BytesUpTo(WHOLE, 1) == HEAP_SIZE;
      forall b: int
        ensures Covers(WHOLE, b) <==> HEAP_START <= b < HEAP_START + HEAP_SIZE
      {
        WholeCovers(b);
      }
    } else {
      EveryRunKeepsInv(states, ops, n - 1);
      assert Did(states[n - 1], ops[n - 1], states[n]);
      match ops[n - 1] {
        case Take(size, align, answer) => AllocKeepsInv(states[n - 1], size, align, answer, states[n]);
        case Give(p) => ReleaseKeepsInv(states[n - 1], p, states[n]);
      }
    }
    if states[n].live == map[] { AllFreedIsWhole(states[n]); }
  }
}
