/** One address space whose pages come and go between memory and the swap area of the disk. */
module Swapping {
  import opened Basics
  import opened Frames
  import opened ClockSweep
  import opened FatNames
  import opened FatVolume

  /** The first sector behind the file system, and how many slots of eight sectors there are. */
  const SWAP_START: nat := 32768
  const SLOTS: nat := 2048
  const DISK_BYTES: nat := (32768 + 16384) * 512
  const PAGE_BYTES: nat := 4096

  type Bytes = s: seq<Byte> | |s| == PAGE_BYTES witness seq(PAGE_BYTES, _ => 0)

  function SlotLba(slot: nat): nat { SWAP_START + slot * 8 }

  function SlotStart(slot: nat): nat { 512 * SlotLba(slot) }

  /** Slots overlap neither each other nor the volume, and the disk holds them all. */
  lemma SlotsApart(a: nat, b: nat)
    requires a < SLOTS && b < SLOTS && a != b
    ensures SlotStart(a) + PAGE_BYTES <= SlotStart(b) || SlotStart(b) + PAGE_BYTES <= SlotStart(a)
    ensures 512 * SWAP_START <= SlotStart(a) && SlotStart(a) + PAGE_BYTES <= DISK_BYTES
  {
  }

  // --- the slot bitmap -----------------------------------------------------------------

  /** Sixty-four slots to a word. */
  type Bits = b: seq<bool> | |b| == 64 witness seq(64, _ => false)

  predicate IsUsed(used: seq<Bits>, slot: nat)
    requires |used| == 32 && slot < SLOTS
  {
    used[slot / 64][slot % 64]
  }

  function Mark(used: seq<Bits>, slot: nat, on: bool): (r: seq<Bits>)
    requires |used| == 32 && slot < SLOTS
    ensures |r| == 32
  {
    used[slot / 64 := used[slot / 64][slot % 64 := on]]
  }

  lemma Marked(used: seq<Bits>, slot: nat, on: bool, other: nat)
    requires |used| == 32 && slot < SLOTS && other < SLOTS
    ensures IsUsed(Mark(used, slot, on), other) == if other == slot then on else IsUsed(used, other)
  {
    assert other == 64 * (other / 64) + other % 64 && slot == 64 * (slot / 64) + slot % 64;
  }

  class SlotMap {
    var used: seq<Bits>

    ghost predicate Valid()
      reads this
    {
      |used| == 32
    }

    constructor ()
      ensures Valid() && forall slot | 0 <= slot < SLOTS :: !IsUsed(used, slot)
    {
      used := seq(32, _ => seq(64, _ => false));
    }

    /** The lowest free slot. */
    method AllocateSlot() returns (r: Option<nat>)
      requires Valid()
      modifies this`used
      ensures Valid()
      ensures r.None? ==> used == old(used) && forall slot | 0 <= slot < SLOTS :: IsUsed(used, slot)
      ensures r.Some? ==> && r.value < SLOTS && !IsUsed(old(used), r.value) && used == Mark(old(used), r.value, true)
                          && forall slot | 0 <= slot < r.value :: IsUsed(old(used), slot)
    {
      for index := 0 to 32
        invariant used == old(used) && forall w | 0 <= w < index :: forall b | 0 <= b < 64 :: used[w][b]
      {
        var bit := 0;
        while bit < 64 && used[index][bit]
          invariant bit <= 64 && forall b | 0 <= b < bit :: used[index][b]
        {
          bit := bit + 1;
        }
        if bit < 64 {
          var slot := index * 64 + bit;
          assert slot / 64 == index && slot % 64 == bit;
          used := used[index := used[index][bit := true]];
          return Some(slot);
        }
      }
      return None;
    }

    method FreeSlot(slot: nat)
      requires Valid()
      modifies this`used
      ensures Valid() && used == if slot < SLOTS then Mark(old(used), slot, false) else old(used)
    {
      if slot >= SLOTS {
        return;
      }
      used := used[slot / 64 := used[slot / 64][slot % 64 := false]];
    }
  }

  // --- what a program sees ---------------------------------------------------------------------

  /** Page-table entries of one space, physical frames, frames nobody uses, share counts where above one, the disk. */
  datatype Space = Space(entries: seq<Word>, frames: map<nat, Bytes>, free: seq<nat>, shares: map<nat, nat>, disk: Disk)

  function Shares(shares: map<nat, nat>, frame: nat): nat { if frame in shares then shares[frame] else 1 }

  predicate Eligible(shares: map<nat, nat>, w: Word) { w.present && !w.swapped && Shares(shares, w.frame) <= 1 }

  /** An entry without what says where the page is and whether it was used lately. */
  function Flags(w: Word): Word { w.(frame := 0, present := false, swapped := false, accessed := false) }

  datatype Seen = Seen(content: seq<Byte>, flags: Word)

  ghost predicate EntryOk(sp: Space, used: seq<Bits>, i: nat)
    requires |used| == 32 && i < |sp.entries|
  {
    var w := sp.entries[i];
    && (w.present ==> !w.swapped && w.frame in sp.frames && w.frame !in sp.free)
    && (w.swapped ==> w.frame < SLOTS && IsUsed(used, w.frame))
  }

  /** Two entries never name the same slot, nor the same frame unless it is shared. */
  ghost predicate PairOk(sp: Space, i: nat, j: nat)
    requires i < |sp.entries| && j < |sp.entries|
  {
    var v, w := sp.entries[i], sp.entries[j];
    && (v.swapped && w.swapped ==> v.frame != w.frame)
    && (v.present && w.present && v.frame == w.frame ==> Shares(sp.shares, v.frame) > 1)
  }

  ghost predicate Ok(sp: Space, used: seq<Bits>) {
    && |used| == 32 && |sp.disk| == DISK_BYTES
    && (forall i {:trigger EntryOk(sp, used, i)} | 0 <= i < |sp.entries| :: EntryOk(sp, used, i))
    && (forall i, j {:trigger PairOk(sp, i, j)} | 0 <= i < |sp.entries| && 0 <= j < |sp.entries| && i != j ::
      PairOk(sp, i, j))
    && (forall k | 0 <= k < |sp.free| :: sp.free[k] in sp.frames)
    && (forall k, l | 0 <= k < l < |sp.free| :: sp.free[k] != sp.free[l])
  }

  ghost function SlotBytes(disk: Disk, slot: nat): seq<Byte>
    requires |disk| == DISK_BYTES && slot < SLOTS
  {
    disk[SlotStart(slot)..SlotStart(slot) + PAGE_BYTES]
  }

  /** A page, wherever it is. */
  ghost function See(sp: Space, used: seq<Bits>, i: nat): Option<Seen>
    requires Ok(sp, used) && i < |sp.entries|
  {
    assert EntryOk(sp, used, i);
    var w := sp.entries[i];
    if w.present then Some(Seen(sp.frames[w.frame], Flags(w)))
    else if w.swapped then Some(Seen(SlotBytes(sp.disk, w.frame), Flags(w)))
    else None
  }

  ghost function View(sp: Space, used: seq<Bits>): (v: seq<Option<Seen>>)
    requires Ok(sp, used)
    ensures |v| == |sp.entries|
  {
    seq(|sp.entries|, i requires 0 <= i < |sp.entries| => See(sp, used, i))
  }

  lemma SameView(sp: Space, used: seq<Bits>, sp': Space, used': seq<Bits>)
    requires Ok(sp, used) && Ok(sp', used') && |sp'.entries| == |sp.entries|
    requires forall i | 0 <= i < |sp.entries| :: See(sp', used', i) == See(sp, used, i)
    ensures View(sp', used') == View(sp, used)
  {
    hide Ok, See;
  }

  // --- evicting ---------------------------------------------------------------------------------------

  /** Entries that differ in nothing but accessed bits. */
  ghost predicate SameButAccessed(a: seq<Word>, b: seq<Word>) {
    |a| == |b| && forall i | 0 <= i < |a| :: b[i] == a[i].(accessed := b[i].accessed)
  }

  lemma BitsUnseen(sp: Space, used: seq<Bits>, entries: seq<Word>)
    requires Ok(sp, used) && SameButAccessed(sp.entries, entries)
    ensures Ok(sp.(entries := entries), used) && View(sp.(entries := entries), used) == View(sp, used)
  {
    var sp' := sp.(entries := entries);
    forall i | 0 <= i < |entries|
      ensures EntryOk(sp', used, i)
    {
      assert EntryOk(sp, used, i);
    }
    forall i, j | 0 <= i < |entries| && 0 <= j < |entries| && i != j
      ensures PairOk(sp', i, j)
    {
      assert PairOk(sp, i, j);
    }
    SameView(sp, used, sp', used);
  }

  function OutWord(w: Word, slot: nat): Word { w.(frame := slot, present := false, swapped := true) }

  /** The space after page `i` has gone out to `slot`. */
  ghost function Evicted(sp: Space, i: nat, slot: nat): Space
    requires i < |sp.entries| && sp.entries[i].frame in sp.frames && slot < SLOTS && |sp.disk| == DISK_BYTES
  {
    sp.(entries := sp.entries[i := OutWord(sp.entries[i], slot)],
        disk := Splice(sp.disk, SlotStart(slot), sp.frames[sp.entries[i].frame]))
  }

  lemma SlotWritten(disk: Disk, slot: nat, b: Bytes, other: nat)
    requires |disk| == DISK_BYTES && slot < SLOTS && other < SLOTS
    ensures SlotBytes(Splice(disk, SlotStart(slot), b), other) == if other == slot then b else SlotBytes(disk, other)
  {
    if other == slot {
      SpliceHere(disk, SlotStart(slot), b);
    } else {
      SlotsApart(slot, other);
      SpliceElsewhere(disk, SlotStart(slot), b, SlotStart(other), SlotStart(other) + PAGE_BYTES);
    }
  }

  lemma EvictKeepsOk(sp: Space, used: seq<Bits>, i: nat, slot: nat)
    requires Ok(sp, used) && i < |sp.entries| && sp.entries[i].present && slot < SLOTS && !IsUsed(used, slot)
    ensures sp.entries[i].frame in sp.frames
    ensures Ok(Evicted(sp, i, slot), Mark(used, slot, true))
  {
    assert EntryOk(sp, used, i);
    var sp', used' := Evicted(sp, i, slot), Mark(used, slot, true);
    forall j | 0 <= j < |sp'.entries|
      ensures EntryOk(sp', used', j)
    {
      assert EntryOk(sp, used, j);
      Marked(used, slot, true, if sp'.entries[j].swapped then sp'.entries[j].frame else 0);
      hide IsUsed, Mark;
    }
    forall j, k | 0 <= j < |sp'.entries| && 0 <= k < |sp'.entries| && j != k
      ensures PairOk(sp', j, k)
    {
      assert PairOk(sp, j, k) && EntryOk(sp, used, j) && EntryOk(sp, used, k);
      hide IsUsed, Mark;
    }
  }

  /** Eviction is invisible: the page reads the same from its slot, and nothing else has moved. */
  lemma EvictUnseen(sp: Space, used: seq<Bits>, i: nat, slot: nat)
    requires Ok(sp, used) && i < |sp.entries| && sp.entries[i].present && slot < SLOTS && !IsUsed(used, slot)
    requires sp.entries[i].frame in sp.frames && Ok(Evicted(sp, i, slot), Mark(used, slot, true))
    ensures View(Evicted(sp, i, slot), Mark(used, slot, true)) == View(sp, used)
  {
    var sp', used' := Evicted(sp, i, slot), Mark(used, slot, true);
    forall j | 0 <= j < |sp'.entries|
      ensures See(sp', used', j) == See(sp, used, j)
    {
      assert EntryOk(sp, used, j) && EntryOk(sp, used, i) && EntryOk(sp', used', j);
      SlotWritten(sp.disk, slot, sp.frames[sp.entries[i].frame],
                  if sp'.entries[j].swapped then sp'.entries[j].frame else 0);
      hide IsUsed, Mark, SlotBytes;
    }
    hide Ok, See;
    SameView(sp, used, sp', used');
  }

  /** The victim's frame is nobody's now. */
  lemma VictimFrameIsFree(sp: Space, used: seq<Bits>, i: nat, slot: nat)
    requires Ok(sp, used) && i < |sp.entries| && Eligible(sp.shares, sp.entries[i]) && slot < SLOTS
    ensures sp.entries[i].frame in sp.frames && Unused(Evicted(sp, i, slot), sp.entries[i].frame)
  {
    assert EntryOk(sp, used, i);
    forall j | 0 <= j < |sp.entries| && j != i && sp.entries[j].present
      ensures sp.entries[j].frame != sp.entries[i].frame
    {
      assert PairOk(sp, i, j);
    }
  }

  /** A frame no page of the space is in and that is not on the free list either. */
  ghost predicate Unused(sp: Space, f: nat) {
    f in sp.frames && f !in sp.free && forall j | 0 <= j < |sp.entries| && sp.entries[j].present ::
      sp.entries[j].frame != f
  }

  // --- bringing back -------------------------------------------------------------------------------------

  function InWord(w: Word, frame: nat): Word { w.(frame := frame, present := true, swapped := false) }

  ghost function BroughtIn(sp: Space, i: nat, f: nat): Space
    requires i < |sp.entries| && sp.entries[i].frame < SLOTS && |sp.disk| == DISK_BYTES
  {
    sp.(entries := sp.entries[i := InWord(sp.entries[i], f)],
        frames := sp.frames[f := SlotBytes(sp.disk, sp.entries[i].frame)])
  }

  lemma BringKeepsOk(sp: Space, used: seq<Bits>, i: nat, f: nat)
    requires Ok(sp, used) && i < |sp.entries| && sp.entries[i].swapped && !sp.entries[i].present && Unused(sp, f)
    ensures sp.entries[i].frame < SLOTS
    ensures Ok(BroughtIn(sp, i, f), Mark(used, sp.entries[i].frame, false))
  {
    assert EntryOk(sp, used, i);
    var slot := sp.entries[i].frame;
    var sp', used' := BroughtIn(sp, i, f), Mark(used, slot, false);
    forall j | 0 <= j < |sp'.entries|
      ensures EntryOk(sp', used', j)
    {
      assert EntryOk(sp, used, j);
      assert j != i ==> PairOk(sp, i, j);
      Marked(used, slot, false, if sp'.entries[j].swapped then sp'.entries[j].frame else 0);
      hide IsUsed, Mark;
    }
    forall j, k | 0 <= j < |sp'.entries| && 0 <= k < |sp'.entries| && j != k
      ensures PairOk(sp', j, k)
    {
      assert PairOk(sp, j, k);
      hide IsUsed, Mark;
    }
  }

  /** So is bringing a page back. */
  lemma BringUnseen(sp: Space, used: seq<Bits>, i: nat, f: nat)
    requires Ok(sp, used) && i < |sp.entries| && sp.entries[i].swapped && !sp.entries[i].present && Unused(sp, f)
    requires sp.entries[i].frame < SLOTS && Ok(BroughtIn(sp, i, f), Mark(used, sp.entries[i].frame, false))
    ensures View(BroughtIn(sp, i, f), Mark(used, sp.entries[i].frame, false)) == View(sp, used)
  {
    var sp', used' := BroughtIn(sp, i, f), Mark(used, sp.entries[i].frame, false);
    forall j | 0 <= j < |sp'.entries|
      ensures See(sp', used', j) == See(sp, used, j)
    {
      assert EntryOk(sp, used, j) && EntryOk(sp', used', j);
      hide IsUsed, Mark, SlotBytes;
    }
    hide Ok, See;
    SameView(sp, used, sp', used');
  }
}
