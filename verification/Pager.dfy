/** Choosing a victim, writing it out, and bringing pages back. */
module Pager {
  import opened Basics
  import Frames
  import opened ClockSweep
  import opened FatNames
  import opened FatVolume
  import opened Swapping

  // --- the sweep, on entries -----------------------------------------------------------------

  predicate InRange(pages: seq<nat>, n: nat) { forall k | 0 <= k < |pages| :: pages[k] < n }

  predicate Distinct(pages: seq<nat>) { forall j, k | 0 <= j < k < |pages| :: pages[j] != pages[k] }

  function EligibleOf(entries: seq<Frames.Word>, shares: map<nat, nat>, pages: seq<nat>): (r: seq<bool>)
    requires InRange(pages, |entries|)
    ensures |r| == |pages|
  {
    seq(|pages|, k requires 0 <= k < |pages| => Eligible(shares, entries[pages[k]]))
  }

  function AccessedOf(entries: seq<Frames.Word>, pages: seq<nat>): (r: seq<bool>)
    requires InRange(pages, |entries|)
    ensures |r| == |pages|
  {
    seq(|pages|, k requires 0 <= k < |pages| => entries[pages[k]].accessed)
  }

  /** How far a sweep has got: `step` looks, the first lap clearing, the second finding nothing eligible so far. */
  ghost predicate Sweeping(eligible: seq<bool>, before: seq<bool>, now: seq<bool>, first: nat, step: nat)
    requires |eligible| == |before| == |now| && first < |before|
  {
    var n := |before|;
    && step <= 2 * n
    && Cleared(eligible, before, now, first, if step < n then step else n)
    && (forall j | 0 <= j < n && j < step && eligible[At(first, j, n)] :: before[At(first, j, n)])
    && (forall j | 0 <= j < step - n && j < n :: !eligible[At(first, j, n)])
  }

  lemma SweepStarts(eligible: seq<bool>, before: seq<bool>, first: nat)
    requires |eligible| == |before| && first < |before|
    ensures Sweeping(eligible, before, before, first, 0)
  {
  }

  function Spot(first: nat, step: nat, n: nat): nat
    requires first < n && step < 2 * n
  {
    At(first, if step < n then step else step - n, n)
  }

  lemma SweepSkips(eligible: seq<bool>, before: seq<bool>, now: seq<bool>, first: nat, step: nat)
    requires |eligible| == |before| == |now| && first < |before| && step < 2 * |before|
    requires Sweeping(eligible, before, now, first, step) && !eligible[Spot(first, step, |before|)]
    ensures Sweeping(eligible, before, now, first, step + 1)
  {
  }

  lemma SweepClears(eligible: seq<bool>, before: seq<bool>, now: seq<bool>, first: nat, step: nat)
    requires |eligible| == |before| == |now| && first < |before| && step < 2 * |before|
    requires Sweeping(eligible, before, now, first, step)
    requires var i := Spot(first, step, |before|); eligible[i] && now[i]
    ensures Sweeping(eligible, before, now[Spot(first, step, |before|) := false], first, step + 1)
  {
    var n := |before|;
    forall j | 0 <= j < n
      ensures j != step && step < n ==> At(first, j, n) != At(first, step, n)
    {
    }
  }

  lemma SweepTakes(eligible: seq<bool>, before: seq<bool>, now: seq<bool>, first: nat, step: nat)
    requires |eligible| == |before| == |now| && first < |before| && step < 2 * |before|
    requires Sweeping(eligible, before, now, first, step)
    requires var i := Spot(first, step, |before|); eligible[i] && !now[i]
    ensures Takes(eligible, before, now, first, Spot(first, step, |before|))
  {
    var n, i := |before|, Spot(first, step, |before|);
    assert Turn(first, i, n) == if step < n then step else step - n;
    if step >= n {
      forall j | 0 <= j < n && eligible[j]
        ensures before[j]
      {
        assert At(first, Turn(first, j, n), n) == j;
      }
    }
  }

  /** Two laps without taking anything: nothing was eligible, and nothing was cleared. */
  lemma SweepEnds(eligible: seq<bool>, before: seq<bool>, now: seq<bool>, first: nat)
    requires |eligible| == |before| == |now| && first < |before|
    requires Sweeping(eligible, before, now, first, 2 * |before|)
    ensures now == before && forall i | 0 <= i < |before| :: !eligible[i]
  {
    var n := |before|;
    forall i | 0 <= i < n
      ensures !eligible[i] && now[i] == before[i]
    {
      assert At(first, Turn(first, i, n), n) == i;
    }
  }

  // --- what evicting and bringing in do ----------------------------------------------------------

  /** The resident pages among the first `n`, in address order. */
  function Resident(entries: seq<Frames.Word>, n: nat): (r: seq<nat>)
    requires n <= |entries|
    ensures Distinct(r) && forall k | 0 <= k < |r| :: r[k] < n
    ensures forall i | 0 <= i < n :: i in r <==> entries[i].present
  {
    if n == 0 then [] else Resident(entries, n - 1) + if entries[n - 1].present then [n - 1] else []
  }

  ghost predicate AnyEligible(entries: seq<Frames.Word>, shares: map<nat, nat>) {
    exists i {:trigger entries[i]} :: 0 <= i < |entries| && Eligible(shares, entries[i])
  }

  ghost predicate AnySlot(used: seq<Bits>)
    requires |used| == 32
  {
    exists slot {:trigger IsUsed(used, slot)} :: 0 <= slot < SLOTS && !IsUsed(used, slot)
  }

  /** There is a page to take and a slot to put it in. */
  ghost predicate CanEvict(sp: Space, used: seq<Bits>)
    requires |used| == 32
  {
    AnyEligible(sp.entries, sp.shares) && AnySlot(used)
  }

  /** Page `victim` is the clock's choice among the resident pages, and exactly the bits it clears are cleared. */
  ghost predicate ClockTakes(before: seq<Frames.Word>, after: seq<Frames.Word>, shares: map<nat, nat>, hand: nat,
                             victim: nat)
    requires |after| == |before|
  {
    var pages := Resident(before, |before|);
    exists k {:trigger pages[k]} :: 0 <= k < |pages| && pages[k] == victim
      && Takes(EligibleOf(before, shares, pages), AccessedOf(before, pages), AccessedOf(after, pages),
               Mod(hand, |pages|), k)
  }

  /** An eligible page has gone out to a slot that was free; the others have changed in accessed bits at most. */
  ghost predicate WentOut(a: Space, used: seq<Bits>, b: Space, used': seq<Bits>, victim: nat)
    requires |used| == 32
  {
    && |b.entries| == |a.entries| && victim < |a.entries| && Eligible(a.shares, a.entries[victim])
    && var slot := b.entries[victim].frame;
    && slot < SLOTS && !IsUsed(used, slot) && used' == Mark(used, slot, true)
    && b.entries[victim] == OutWord(a.entries[victim], slot).(accessed := b.entries[victim].accessed)
    && forall i | 0 <= i < |a.entries| && i != victim ::
      b.entries[i] == a.entries[i].(accessed := b.entries[i].accessed)
  }

  lemma EligibleIsListed(entries: seq<Frames.Word>, shares: map<nat, nat>)
    ensures var pages := Resident(entries, |entries|);
            && InRange(pages, |entries|) && Distinct(pages)
            && (AnyEligible(entries, shares) <==> exists k {:trigger pages[k]} ::
              0 <= k < |pages| && Eligible(shares, entries[pages[k]]))
  {
    var pages := Resident(entries, |entries|);
    if AnyEligible(entries, shares) {
      var i :| 0 <= i < |entries| && Eligible(shares, entries[i]);
      assert i in pages;
      var k :| 0 <= k < |pages| && pages[k] == i;
    }
  }

  lemma TakenIsEligible(before: seq<Frames.Word>, after: seq<Frames.Word>, shares: map<nat, nat>, hand: nat, index: nat)
    requires SameButAccessed(before, after) && index < |Resident(before, |before|)|
    requires var pages := Resident(before, |before|);
             Takes(EligibleOf(before, shares, pages), AccessedOf(before, pages), AccessedOf(after, pages),
                   Mod(hand, |pages|), index)
    ensures var page := Resident(before, |before|)[index];
            && page < |before| && Eligible(shares, before[page]) && Eligible(shares, after[page])
            && AnyEligible(before, shares) && ClockTakes(before, after, shares, hand, page)
  {
    hide Resident, Cleared, Mod;
    var page := Resident(before, |before|)[index];
    StillEligible(shares, before, after, page);
  }

  lemma PresentStays(before: seq<Frames.Word>, mid: seq<Frames.Word>, shares: map<nat, nat>, page: nat)
    requires SameButAccessed(before, mid) && page < |before| && Eligible(shares, before[page])
    ensures |mid| == |before| && before[page].present && before[page].frame == mid[page].frame
  {
  }

  lemma SlotOrNone(used: seq<Bits>, slot: Option<nat>)
    requires |used| == 32
    requires slot.None? ==> forall s | 0 <= s < SLOTS :: IsUsed(used, s)
    requires slot.Some? ==> slot.value < SLOTS && !IsUsed(used, slot.value)
    ensures AnySlot(used) <==> slot.Some?
  {
    hide IsUsed;
  }

  lemma OutIs(a: Space, used: seq<Bits>, mid: seq<Frames.Word>, b: Space, used': seq<Bits>, page: nat, slot: nat)
    requires |used| == 32 && SameButAccessed(a.entries, mid) && page < |mid| && Eligible(a.shares, a.entries[page])
    requires slot < SLOTS && !IsUsed(used, slot) && used' == Mark(used, slot, true)
    requires b.entries == mid[page := OutWord(mid[page], slot)]
    ensures WentOut(a, used, b, used', page)
  {
    hide IsUsed, Mark, Eligible;
  }

  lemma OutKeepsClock(before: seq<Frames.Word>, mid: seq<Frames.Word>, after: seq<Frames.Word>, shares: map<nat, nat>,
                      hand: nat, page: nat, slot: nat)
    requires |mid| == |before| && page < |mid| && after == mid[page := OutWord(mid[page], slot)]
    requires ClockTakes(before, mid, shares, hand, page)
    ensures ClockTakes(before, after, shares, hand, page)
  {
    var pages := Resident(before, |before|);
    assert AccessedOf(after, pages) == AccessedOf(mid, pages);
    hide Resident, Takes, Mod;
  }

  function PageWord(frame: nat): Frames.Word {
    Frames.ZERO.(frame := frame, present := true, user := true, writable := true)
  }

  /** Page `i` is in frame `i + 1`; the spare frames follow. */
  function Loaded(contents: seq<Bytes>, spare: nat, disk: Disk): Space {
    var n := |contents|;
    Space(seq(n, i requires 0 <= i < n => PageWord(i + 1)),
          map f: nat | 1 <= f <= n + spare :: LoadedFrame(contents, f),
          seq(spare, k requires 0 <= k < spare => n + 1 + k), map[], disk)
  }

  function LoadedFrame(contents: seq<Bytes>, f: nat): Bytes {
    if 1 <= f <= |contents| then contents[f - 1] else seq(PAGE_BYTES, _ => 0)
  }

  lemma LoadedIsOk(contents: seq<Bytes>, spare: nat, disk: Disk, used: seq<Bits>)
    requires |disk| == DISK_BYTES && |used| == 32
    ensures Ok(Loaded(contents, spare, disk), used)
    ensures View(Loaded(contents, spare, disk), used)
            == seq(|contents|, i requires 0 <= i < |contents| => Some(Seen(contents[i], Flags(PageWord(i + 1)))))
  {
    var sp := Loaded(contents, spare, disk);
    forall i | 0 <= i < |sp.entries|
      ensures EntryOk(sp, used, i)
    {
    }
    forall i, j | 0 <= i < |sp.entries| && 0 <= j < |sp.entries| && i != j
      ensures PairOk(sp, i, j)
    {
    }
  }

  class Pager {
    var entries: seq<Frames.Word>
    var frames: map<nat, Bytes>
    var free: seq<nat>
    var shares: map<nat, nat>
    var disk: Disk
    var hand: nat
    const slots: SlotMap

    /** A space of resident pages with the given contents, `spare` free frames, and an unused swap area. */
    constructor (contents: seq<Bytes>, spare: nat, disk: Disk)
      requires |disk| == DISK_BYTES
      ensures Valid() && fresh(slots) && State() == Loaded(contents, spare, disk) && hand == 0
      ensures Sees()
              == seq(|contents|, i requires 0 <= i < |contents| => Some(Seen(contents[i], Flags(PageWord(i + 1)))))
    {
      var sp := Loaded(contents, spare, disk);
      entries, frames, free, shares, this.disk := sp.entries, sp.frames, sp.free, sp.shares, sp.disk;
      hand := 0;
      var unused := new SlotMap();
      slots := unused;
      LoadedIsOk(contents, spare, disk, unused.used);
    }

    ghost function State(): Space
      reads this
    {
      Space(entries, frames, free, shares, disk)
    }

    ghost predicate Valid()
      reads this, slots
    {
      slots.Valid() && Ok(State(), slots.used)
    }

    ghost function Sees(): seq<Option<Seen>>
      reads this, slots
      requires Valid()
    {
      View(State(), slots.used)
    }

    /** Forget that a page was used. */
    method ClearAccessed(pages: seq<nat>, index: nat, ghost before: seq<Frames.Word>)
      requires InRange(pages, |entries|) && Distinct(pages) && index < |pages|
      requires SameButAccessed(before, entries)
               && forall i | 0 <= i < |entries| && i !in pages :: entries[i] == before[i]
      modifies this`entries
      ensures InRange(pages, |entries|) && AccessedOf(entries, pages) == AccessedOf(old(entries), pages)[index := false]
      ensures SameButAccessed(before, entries)
              && forall i | 0 <= i < |entries| && i !in pages :: entries[i] == before[i]
    {
      var p := pages[index];
      entries := entries[p := entries[p].(accessed := false)];
    }

    /** The clock. */
    method Choose(pages: seq<nat>) returns (r: Option<nat>)
      requires InRange(pages, |entries|) && Distinct(pages)
      modifies this`entries, this`hand
      ensures SameButAccessed(old(entries), entries)
      ensures forall i | 0 <= i < |entries| && i !in pages :: entries[i] == old(entries)[i]
      ensures r.None? <==> forall k | 0 <= k < |pages| :: !Eligible(shares, old(entries)[pages[k]])
      ensures r.None? ==> entries == old(entries) && hand == old(hand)
      ensures r.Some? ==>
                && r.value < |pages| && hand == Mod(r.value + 1, |pages|)
                && Takes(EligibleOf(old(entries), shares, pages), AccessedOf(old(entries), pages),
                         AccessedOf(entries, pages),
                         Mod(old(hand), |pages|), r.value)
    {
      if pages == [] {
        return None;
      }
      ghost var before := entries;
      BitsSame(before);
      ghost var eligible, bits := EligibleOf(entries, shares, pages), AccessedOf(entries, pages);
      var n := |pages|;
      var start := hand;
      ghost var first := Mod(start, n);
      SweepStarts(eligible, bits, first);
      hide Sweeping, Takes, Mod, Distinct, SameButAccessed, AccessedOf, EligibleOf;
      for step := 0 to 2 * n
        invariant hand == old(hand) && SameButAccessed(before, entries)
        invariant forall i | 0 <= i < |entries| && i !in pages :: entries[i] == before[i]
        invariant InRange(pages, |entries|) && Sweeping(eligible, bits, AccessedOf(entries, pages), first, step)
      {
        Position(start, step, n);
        var index := Mod(start + step, n);
        assert index == Spot(first, step, n);
        ghost var now := AccessedOf(entries, pages);
        StillEligible(shares, before, entries, pages[index]);
        AtPage(before, entries, shares, pages, index);
        if !Eligible(shares, entries[pages[index]]) {
          SweepSkips(eligible, bits, now, first, step);
        } else if entries[pages[index]].accessed {
          SweepClears(eligible, bits, now, first, step);
          ClearAccessed(pages, index, before);
        } else {
          SweepTakes(eligible, bits, now, first, step);
          hand := Mod(index + 1, n);
          return Some(index);
        }
      }
      SweepEnds(eligible, bits, AccessedOf(entries, pages), first);
      NoneEligible(before, shares, pages);
      NothingCleared(before, entries, pages);
      return None;
    }

    /** The resident pages, in address order. */
    method UserPages() returns (pages: seq<nat>)
      ensures pages == Resident(entries, |entries|)
    {
      pages := [];
      for i := 0 to |entries|
        invariant pages == Resident(entries, i)
      {
        if entries[i].present {
          pages := pages + [i];
        }
      }
    }

    /** Evict the clock's choice and return the frame it was in, exactly when there is a page to take and a slot to put
        it in.  Nobody can tell, and the frame is nobody's. */
    method EvictOne() returns (r: Option<nat>, ghost victim: nat)
      requires Valid()
      modifies this`entries, this`hand, this`disk, slots
      ensures Valid() && Sees() == old(Sees()) && |entries| == |old(entries)|
      ensures |disk| == |old(disk)| == DISK_BYTES && disk[..512 * SWAP_START] == old(disk)[..512 * SWAP_START]
      ensures r.Some? <==> CanEvict(old(State()), old(slots.used))
      ensures r.None? ==> SameButAccessed(old(entries), entries) && disk == old(disk) && slots.used == old(slots.used)
      ensures r.Some? ==> && Unused(State(), r.value)
                          && WentOut(old(State()), old(slots.used), State(), slots.used, victim)
                          && old(entries)[victim].frame == r.value
                          && ClockTakes(old(entries), entries, shares, old(hand), victim)
      ensures forall i | 0 <= i < |entries| && !old(entries)[i].present :: entries[i] == old(entries)[i]
    {
      DiskSize(State(), slots.used);
      hide Ok, View, OutWord, SlotStart, Unused, Eligible, AnySlot, AnyEligible, IsUsed, Mark, ClockTakes, WentOut,
           SameButAccessed;
      ghost var sp0, used := State(), slots.used;
      victim := 0;
      var choice := PickVictim();
      if choice.None? {
        return None, victim;
      }
      var page := choice.value;
      var entry := entries[page];
      var frame := entry.frame;
      var slot := slots.AllocateSlot();
      SlotOrNone(used, slot);
      if slot.None? {
        return None, victim;
      }
      EligibleIsPresent(shares, entry);
      ghost var mid := entries;
      SendOut(page, slot.value, used);
      OutIs(sp0, used, mid, State(), slots.used, page, slot.value);
      OutKeepsClock(sp0.entries, mid, entries, shares, old(hand), page, slot.value);
      PresentStays(sp0.entries, mid, shares, page);
      return Some(frame), page;
    }

    /** Ask the clock, and check its answer. */
    method PickVictim() returns (r: Option<nat>)
      requires Valid()
      modifies this`entries, this`hand
      ensures Valid() && Sees() == old(Sees()) && SameButAccessed(old(entries), entries)
      ensures |entries| == |old(entries)|
              && forall i | 0 <= i < |entries| && !old(entries)[i].present :: entries[i] == old(entries)[i]
      ensures r.Some? <==> AnyEligible(old(entries), shares)
      ensures r.Some? ==> && r.value < |entries| && Eligible(shares, old(entries)[r.value])
                          && Eligible(shares, entries[r.value])
                          && ClockTakes(old(entries), entries, shares, old(hand), r.value)
    {
      hide Ok, View, Takes, Mod, Eligible, Resident, AnyEligible, ClockTakes;
      ghost var sp0, used := State(), slots.used;
      BitsSame(entries);
      var pages := UserPages();
      EligibleIsListed(entries, shares);
      if pages == [] {
        return None;
      }
      var choice := Choose(pages);
      BitsUnseen(sp0, used, entries);
      if choice.None? {
        return None;
      }
      var index := choice.value;
      TakenIsEligible(sp0.entries, entries, shares, old(hand), index);
      if index >= |pages| || !Eligible(shares, entries[pages[index]]) {
        return None;
      }
      return Some(pages[index]);
    }

    /** Write the page to its slot and make its entry name the slot. */
    method SendOut(page: nat, slot: nat, ghost used: seq<Bits>)
      requires Ok(State(), used) && page < |entries| && Eligible(shares, entries[page]) && entries[page].present
      requires slot < SLOTS && !IsUsed(used, slot) && slots.used == Mark(used, slot, true)
      modifies this`entries, this`disk
      ensures Valid() && Sees() == View(old(State()), used)
              && entries == old(entries)[page := OutWord(old(entries)[page], slot)]
      ensures |disk| == |old(disk)| == DISK_BYTES && disk[..512 * SWAP_START] == old(disk)[..512 * SWAP_START]
      ensures Unused(State(), old(entries)[page].frame)
    {
      hide Ok, View, OutWord, SlotStart, Unused, Eligible, Splice;
      ghost var sp := State();
      var entry := entries[page];
      EvictKeepsOk(sp, used, page, slot);
      EvictUnseen(sp, used, page, slot);
      VictimFrameIsFree(sp, used, page, slot);
      DiskHolds(sp, used, slot);
      SpliceElsewhere(disk, SlotStart(slot), frames[entry.frame], 0, 512 * SWAP_START);
      disk := Splice(disk, SlotStart(slot), frames[entry.frame]);
      entries := entries[page := OutWord(entry, slot)];
      assert State() == Evicted(sp, page, slot);
    }

    /** A frame nobody uses: the one freed last, or else one a page was evicted from, if that can be done. */
    method AllocateOrEvict() returns (r: Option<nat>, ghost victim: nat)
      requires Valid()
      modifies this`entries, this`hand, this`disk, this`free, slots
      ensures Valid() && Sees() == old(Sees()) && |entries| == |old(entries)|
      ensures |disk| == |old(disk)| == DISK_BYTES && disk[..512 * SWAP_START] == old(disk)[..512 * SWAP_START]
      ensures r.Some? <==> old(free) != [] || CanEvict(old(State()), old(slots.used))
      ensures r.Some? ==> Unused(State(), r.value)
      ensures old(free) != [] ==> && r == Some(old(free)[|old(free)| - 1]) && free == old(free)[..|old(free)| - 1]
                                  && entries == old(entries) && slots.used == old(slots.used)
      ensures old(free) == [] ==> && free == []
                                  && (r.None? ==> && SameButAccessed(old(entries), entries)
                                                  && slots.used == old(slots.used))
                                  && (r.Some? ==> && WentOut(old(State()), old(slots.used), State(), slots.used, victim)
                                                  && ClockTakes(old(entries), entries, shares, old(hand), victim)
                                                  && victim < |old(entries)| && r.value == old(entries)[victim].frame)
      ensures forall i | 0 <= i < |entries| && !old(entries)[i].present :: entries[i] == old(entries)[i]
    {
      DiskSize(State(), slots.used);
      hide Ok, View, CanEvict, WentOut, ClockTakes;
      if free != [] {
        TakeFree(State(), slots.used);
        var f := free[|free| - 1];
        free := free[..|free| - 1];
        return Some(f), 0;
      }
      r, victim := EvictOne();
    }

    /** Put a frame nobody uses on the free list. */
    method GiveBack(frame: nat)
      requires Valid() && Unused(State(), frame)
      modifies this`free
      ensures Valid() && Sees() == old(Sees()) && free == old(free) + [frame]
    {
      hide Ok, View;
      PutFree(State(), slots.used, frame);
      free := free + [frame];
    }

    /** Bring a page back, exactly when it is out and a frame can be had.  Nobody can tell that either. */
    method SwapIn(page: nat) returns (ok: bool, ghost victim: nat)
      requires Valid() && page < |entries|
      modifies this, slots
      ensures Valid() && Sees() == old(Sees()) && |entries| == |old(entries)|
      ensures |disk| == |old(disk)| == DISK_BYTES && disk[..512 * SWAP_START] == old(disk)[..512 * SWAP_START]
      ensures ok <==> old(entries)[page].swapped && (old(free) != [] || CanEvict(old(State()), old(slots.used)))
      ensures ok ==> CameIn(old(State()), old(slots.used), State(), slots.used, page, victim)
      ensures !ok ==> SameButAccessed(old(entries), entries) && free == old(free) && slots.used == old(slots.used)
    {
      hide Ok, View, CanEvict, WentOut, ClockTakes, SameButAccessed, CameIn, Unused;
      victim := 0;
      var entry := entries[page];
      PresentOrOut(State(), slots.used, page);
      BitsSame(entries);
      if entry.present || !entry.swapped {
        return false, victim;
      }
      var slot := entry.frame;
      ghost var sp0, used0 := State(), slots.used;
      var taken;
      taken, victim := AllocateOrEvict();
      if taken.None? {
        return false, victim;
      }
      var frame := taken.value;
      ghost var sp, used := State(), slots.used;
      assert entries[page] == entry;
      BringKeepsOk(sp, used, page, frame);
      BringUnseen(sp, used, page, frame);
      DiskHolds(sp, used, slot);
      frames := frames[frame := SlotIn(disk, slot)];
      slots.FreeSlot(slot);
      entries := entries[page := InWord(entry, frame)];
      assert State() == BroughtIn(sp, page, frame);
      InIs(sp0, used0, sp, used, State(), slots.used, page, victim, frame);
      return true, victim;
    }
  }

  /** A page that was out is in a frame; with a frame free nothing else has changed, without one a page has gone out. */
  ghost predicate CameIn(a: Space, used: seq<Bits>, b: Space, used': seq<Bits>, page: nat, victim: nat)
    requires |used| == 32
  {
    && |b.entries| == |a.entries| && page < |a.entries| && a.entries[page].swapped && a.entries[page].frame < SLOTS
    && b.entries[page] == InWord(a.entries[page], b.entries[page].frame)
    && |used'| == 32 && !IsUsed(used', a.entries[page].frame)
    && if a.free != [] then
         && b.free == a.free[..|a.free| - 1] && b.entries[page].frame == a.free[|a.free| - 1]
         && forall i | 0 <= i < |a.entries| && i != page :: b.entries[i] == a.entries[i]
       else
         && b.free == [] && victim < |a.entries| && victim != page && Eligible(a.shares, a.entries[victim])
         && b.entries[page].frame == a.entries[victim].frame && b.entries[victim].swapped && !b.entries[victim].present
         && forall i | 0 <= i < |a.entries| && i != page && i != victim ::
           b.entries[i] == a.entries[i].(accessed := b.entries[i].accessed)
  }

  lemma InIs(a: Space, used: seq<Bits>, mid: Space, used1: seq<Bits>, b: Space, used': seq<Bits>, page: nat,
             victim: nat, frame: nat)
    requires |used| == |used1| == 32 && page < |a.entries| == |mid.entries| && a.entries[page].swapped
             && !a.entries[page].present
    requires mid.entries[page] == a.entries[page] && a.entries[page].frame < SLOTS
    requires a.free != [] ==> mid.entries == a.entries && mid.free == a.free[..|a.free| - 1]
                              && frame == a.free[|a.free| - 1]
    requires a.free == [] ==> && mid.free == [] && WentOut(a, used, mid, used1, victim) && victim < |a.entries|
                              && frame == a.entries[victim].frame
    requires b.entries == mid.entries[page := InWord(a.entries[page], frame)] && b.free == mid.free
    requires used' == Mark(used1, a.entries[page].frame, false)
    ensures CameIn(a, used, b, used', page, victim)
  {
    Marked(used1, a.entries[page].frame, false, a.entries[page].frame);
    hide IsUsed, Mark;
  }

  function SlotIn(disk: Disk, slot: nat): (r: Bytes)
    requires |disk| == DISK_BYTES && slot < SLOTS
    ensures r == SlotBytes(disk, slot)
  {
    SlotsApart(slot, if slot == 0 then 1 else 0);
    disk[SlotStart(slot)..SlotStart(slot) + PAGE_BYTES]
  }

  lemma EligibleIsPresent(shares: map<nat, nat>, w: Frames.Word)
    requires Eligible(shares, w)
    ensures w.present && forall b :: Eligible(shares, w.(accessed := b))
    ensures forall s :: OutWord(w, s).swapped && !OutWord(w, s).present
  {
  }

  lemma AtPage(before: seq<Frames.Word>, entries: seq<Frames.Word>, shares: map<nat, nat>, pages: seq<nat>, k: nat)
    requires InRange(pages, |before|) && InRange(pages, |entries|) && k < |pages|
    ensures EligibleOf(before, shares, pages)[k] == Eligible(shares, before[pages[k]])
    ensures AccessedOf(entries, pages)[k] == entries[pages[k]].accessed
  {
  }

  lemma NoneEligible(before: seq<Frames.Word>, shares: map<nat, nat>, pages: seq<nat>)
    requires InRange(pages, |before|) && forall k | 0 <= k < |pages| :: !EligibleOf(before, shares, pages)[k]
    ensures forall k | 0 <= k < |pages| :: !Eligible(shares, before[pages[k]])
  {
    forall k | 0 <= k < |pages|
      ensures !Eligible(shares, before[pages[k]])
    {
      assert !EligibleOf(before, shares, pages)[k];
    }
  }

  lemma StillEligible(shares: map<nat, nat>, before: seq<Frames.Word>, entries: seq<Frames.Word>, i: nat)
    requires SameButAccessed(before, entries) && i < |entries|
    ensures |entries| == |before| && Eligible(shares, entries[i]) == Eligible(shares, before[i])
  {
  }

  lemma NothingCleared(before: seq<Frames.Word>, entries: seq<Frames.Word>, pages: seq<nat>)
    requires SameButAccessed(before, entries) && InRange(pages, |entries|)
             && AccessedOf(entries, pages) == AccessedOf(before, pages)
    requires forall i | 0 <= i < |entries| && i !in pages :: entries[i] == before[i]
    ensures entries == before
  {
    forall i | 0 <= i < |entries|
      ensures entries[i] == before[i]
    {
      if i in pages {
        var k :| 0 <= k < |pages| && pages[k] == i;
        assert AccessedOf(entries, pages)[k] == AccessedOf(before, pages)[k];
      }
    }
  }

  lemma BitsSame(entries: seq<Frames.Word>)
    ensures SameButAccessed(entries, entries)
  {
  }

  lemma DiskHolds(sp: Space, used: seq<Bits>, slot: nat)
    requires Ok(sp, used) && slot < SLOTS
    ensures |sp.disk| == DISK_BYTES && 512 * SWAP_START <= SlotStart(slot) && SlotStart(slot) + PAGE_BYTES <= |sp.disk|
  {
    SlotsApart(slot, if slot == 0 then 1 else 0);
  }

  lemma DiskSize(sp: Space, used: seq<Bits>)
    requires Ok(sp, used)
    ensures |sp.disk| == DISK_BYTES
  {
  }

  lemma PresentOrOut(sp: Space, used: seq<Bits>, i: nat)
    requires Ok(sp, used) && i < |sp.entries|
    ensures sp.entries[i].present ==> !sp.entries[i].swapped
    ensures |sp.disk| == DISK_BYTES
  {
    assert EntryOk(sp, used, i);
  }

  lemma TakeFree(sp: Space, used: seq<Bits>)
    requires Ok(sp, used) && sp.free != []
    ensures var sp', f := sp.(free := sp.free[..|sp.free| - 1]), sp.free[|sp.free| - 1];
            Ok(sp', used) && View(sp', used) == View(sp, used) && Unused(sp', f)
  {
    var sp', f := sp.(free := sp.free[..|sp.free| - 1]), sp.free[|sp.free| - 1];
    forall i | 0 <= i < |sp.entries|
      ensures EntryOk(sp', used, i) && (sp.entries[i].present ==> sp.entries[i].frame != f)
    {
      assert EntryOk(sp, used, i);
    }
    forall i, j | 0 <= i < |sp.entries| && 0 <= j < |sp.entries| && i != j
      ensures PairOk(sp', i, j)
    {
      assert PairOk(sp, i, j);
    }
    SameView(sp, used, sp', used);
  }

  lemma PutFree(sp: Space, used: seq<Bits>, f: nat)
    requires Ok(sp, used) && Unused(sp, f)
    ensures Ok(sp.(free := sp.free + [f]), used) && View(sp.(free := sp.free + [f]), used) == View(sp, used)
  {
    var sp' := sp.(free := sp.free + [f]);
    forall i | 0 <= i < |sp.entries|
      ensures EntryOk(sp', used, i)
    {
      assert EntryOk(sp, used, i);
    }
    forall i, j | 0 <= i < |sp.entries| && 0 <= j < |sp.entries| && i != j
      ensures PairOk(sp', i, j)
    {
      assert PairOk(sp, i, j);
    }
    SameView(sp, used, sp', used);
  }

  datatype Op = Evict | BringIn(page: nat)

  datatype Snapshot = Snapshot(sp: Space, used: seq<Bits>)

  /** What an operation does between two states, and when it does it. */
  ghost predicate Did(op: Op, a: Snapshot, b: Snapshot, ok: bool) {
    && |a.used| == |b.used| == 32
    && (!ok ==> SameButAccessed(a.sp.entries, b.sp.entries) && b.sp.free == a.sp.free && b.used == a.used)
    && match op
       case Evict =>
         && (ok <==> CanEvict(a.sp, a.used))
         && (ok ==> exists victim: nat {:trigger WentOut(a.sp, a.used, b.sp, b.used, victim)} ::
                      && WentOut(a.sp, a.used, b.sp, b.used, victim)
                      && b.sp.free == a.sp.free + [a.sp.entries[victim].frame])
       case BringIn(page) =>
         && page < |a.sp.entries|
         && (ok <==> a.sp.entries[page].swapped && (a.sp.free != [] || CanEvict(a.sp, a.used)))
         && (ok ==> exists victim: nat :: CameIn(a.sp, a.used, b.sp, b.used, page, victim))
  }

  method Perform(pager: Pager, op: Op) returns (ok: bool)
    requires pager.Valid() && (op.BringIn? ==> op.page < |pager.entries|)
    modifies pager, pager.slots
    ensures pager.Valid() && pager.Sees() == old(pager.Sees()) && |pager.entries| == |old(pager.entries)|
    ensures Did(op, Snapshot(old(pager.State()), old(pager.slots.used)), Snapshot(pager.State(), pager.slots.used), ok)
    ensures |pager.disk| == |old(pager.disk)| == DISK_BYTES
    ensures pager.disk[..512 * SWAP_START] == old(pager.disk)[..512 * SWAP_START]
  {
    hide Ok, View, CanEvict, CameIn, SameButAccessed, ClockTakes, Unused;
    ghost var a := Snapshot(pager.State(), pager.slots.used);
    match op
    case Evict =>
      var frame, victim := pager.EvictOne();
      ok := frame.Some?;
      if ok {
        pager.GiveBack(frame.value);
        assert WentOut(a.sp, a.used, pager.State(), pager.slots.used, victim);
      }
    case BringIn(page) =>
      ghost var victim;
      ok, victim := pager.SwapIn(page);
  }

  /** Any sequence of evictions and page-ins: each happens exactly when it can, every page keeps its contents and its
      flags throughout, and the volume in front of the swap area is not touched. */
  method Run(pager: Pager, ops: seq<Op>) returns (done: seq<bool>, ghost states: seq<Snapshot>)
    requires pager.Valid() && forall k | 0 <= k < |ops| && ops[k].BringIn? :: ops[k].page < |pager.entries|
    modifies pager, pager.slots
    ensures pager.Valid() && pager.Sees() == old(pager.Sees())
    ensures |pager.disk| == |old(pager.disk)| == DISK_BYTES
    ensures pager.disk[..512 * SWAP_START] == old(pager.disk)[..512 * SWAP_START]
    ensures |done| == |ops| && |states| == |ops| + 1
    ensures states[0] == Snapshot(old(pager.State()), old(pager.slots.used))
    ensures states[|ops|] == Snapshot(pager.State(), pager.slots.used)
    ensures forall k | 0 <= k < |ops| :: Did(ops[k], states[k], states[k + 1], done[k])
  {
    DiskSize(pager.State(), pager.slots.used);
    hide Ok, View, Did;
    done, states := [], [Snapshot(pager.State(), pager.slots.used)];
    for k := 0 to |ops|
      invariant pager.Valid() && pager.Sees() == old(pager.Sees()) && |pager.entries| == |old(pager.entries)|
      invariant |pager.disk| == |old(pager.disk)| == DISK_BYTES
      invariant pager.disk[..512 * SWAP_START] == old(pager.disk)[..512 * SWAP_START]
      invariant |done| == k && |states| == k + 1 && states[k] == Snapshot(pager.State(), pager.slots.used)
      invariant states[0] == Snapshot(old(pager.State()), old(pager.slots.used))
      invariant forall j | 0 <= j < k :: Did(ops[j], states[j], states[j + 1], done[j])
    {
      var ok := Perform(pager, ops[k]);
      done, states := done + [ok], states + [Snapshot(pager.State(), pager.slots.used)];
    }
  }
}
