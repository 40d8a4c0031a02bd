/** What creating and removing a file do to a volume, in terms of its contents. */
module FatWrites {
  import opened Basics
  import opened FatNames
  import opened FatVolume
  import opened FatChains
  import opened FatTrails
  import opened FatSteps

  // --- directory entries ------------------------------------------------------------------

  /** The entry written for a file. */
  function NewSlot(name: seq<Byte>, first: nat, size: nat): (r: Slot)
    requires Short(name) && first < 0x10000 && size < 0x1_0000_0000
  {
    Encoded(name) + [0x20] + seq(14, _ => 0) + Little(first) + Little32(size)
  }

  /** Names under which a file is found once it is stored. */
  predicate Storable(name: seq<Byte>) { Plain(name) && name[0] != 0 }

  lemma NewSlotParts(name: seq<Byte>, first: nat, size: nat)
    requires Fits83(name) && first < 0x10000 && size < 0x1_0000_0000
    ensures var s := NewSlot(name, first, size);
            && s[..11] == Encoded(name) && s[11] == 0x20 && U16(s, 26) == first && U32(s, 28) == size
  {
    var s := NewSlot(name, first, size);
    assert s[26..28] == Little(first);
    assert s[28..32] == Little32(size);
    assert s[26] == first % 256 && s[27] == first / 256;
    assert s[28] == Little(size % 0x10000)[0] && s[29] == Little(size % 0x10000)[1];
    assert s[30] == Little(size / 0x10000)[0] && s[31] == Little(size / 0x10000)[1];
  }

  lemma NewSlotEntry(name: seq<Byte>, first: nat, size: nat)
    requires Fits83(name) && first < 0x10000 && size < 0x1_0000_0000
    ensures EntryOf(NewSlot(name, first, size)) == Entry(Decoded(Encoded(name)), first, size)
  {
    NewSlotParts(name, first, size);
    hide NewSlot;
  }

  /** A stored file is found under its name exactly when the name is plain ASCII without spaces, does
      not end in a dot and does not start with a zero byte. */
  lemma FoundWhenStorable(name: seq<Byte>, first: nat, size: nat)
    requires Fits83(name) && first < 0x10000 && size < 0x1_0000_0000
    ensures Matches(NewSlot(name, first, size), name) <==> Storable(name)
  {
    FitsIsShort(name);
    hide NewSlot, Encoded, Decoded, SameName, Fits83, Short, U16, U32, IsFile, Plain;
    NewSlotEntry(name, first, size);
    NewSlotIsFile(name, first, size);
    NameRoundTrip(name);
    PlainFirst(name);
  }

  lemma NewSlotIsFile(name: seq<Byte>, first: nat, size: nat)
    requires Fits83(name) && first < 0x10000 && size < 0x1_0000_0000
    ensures name != [] && (IsFile(NewSlot(name, first, size)) <==> name[0] != 0 && name[0] != 0xE5)
  {
    FirstByte(name);
    NewSlotParts(name, first, size);
    var s := NewSlot(name, first, size);
    hide NewSlot, Encoded, Fits83, Short;
    assert s[0] == s[..11][0];
  }

  lemma PlainFirst(name: seq<Byte>)
    requires name != []
    ensures Plain(name) ==> name[0] < 0x80
  {
  }

  lemma FirstByte(name: seq<Byte>)
    requires Fits83(name)
    ensures name != [] && Encoded(name)[0] == Upper(name[0])
  {
    assert Encoded(name)[0] == Upper(Stem(name)[0]) && Stem(name)[0] == name[0];
  }

  // --- creating -----------------------------------------------------------------------------

  function First(chain: seq<nat>): nat { if chain == [] then 0 else chain[0] }

  ghost function OldChain(chains: map<nat, seq<nat>>, k: nat): seq<nat> { if k in chains then chains[k] else [] }

  function Wanted(data: seq<Byte>, bytes: nat): nat
    requires bytes > 0
  {
    if data == [] then 0 else Needed(|data|, bytes)
  }

  /** The clusters of `chain`, and nothing else, have gone from free to holding `data`. */
  ghost predicate Written(a0: Image, a: Image, chain: seq<nat>, data: seq<Byte>, bytes: nat)
    requires bytes > 0
  {
    && Claimed(a0, a, chain) && |chain| == Wanted(data, bytes)
    && (chain != [] ==> IsChain(a.fat, chain) && Holds(a, chain, data, bytes, |chain|))
  }

  lemma WrittenNothing(a: Image, bytes: nat)
    requires bytes > 0
    ensures Written(a, a, [], [], bytes)
  {
  }

  /** What creating a file leaves behind, its own old chain freed. */
  ghost predicate Created(a0: Image, chains: map<nat, seq<nat>>, bytes: nat, name: seq<Byte>, data: seq<Byte>,
                          k: nat, chain: seq<nat>, a: Image)
    requires bytes > 0
  {
    && Fits83(name) && SlotFor(a0.dir, name, k) && First(chain) < 0x10000 && |data| < 0x1_0000_0000
    && a.dir == a0.dir[k := NewSlot(name, First(chain), |data|)] && |chain| == Wanted(data, bytes)
    && Shaped(a, bytes) && EntryOk(a, Entry(Decoded(Encoded(name)), First(chain), |data|), chain, bytes)
    && ReadBack(a, Entry(Decoded(Encoded(name)), First(chain), |data|), chain, bytes) == data
    && Agrees(a0, a.(dir := a0.dir), chains - {k})
    && (forall c | c in chain :: 2 <= c < |a0.fat| && a0.fat[c] == 0)
    && (forall c | 0 <= c < |a0.fat| == |a.fat| && c !in chain && c !in OldChain(chains, k) :: a.fat[c] == a0.fat[c])
    && CountFree(a.fat) + |chain| == CountFree(a0.fat) + |OldChain(chains, k)|
  }

  lemma SizeFits(a0: Image, a: Image, chain: seq<nat>, data: seq<Byte>, bytes: nat)
    requires Shaped(a, bytes) && bytes <= 65536 && Written(a0, a, chain, data, bytes)
    ensures |data| < 0x1_0000_0000 && First(chain) < 0x10000
  {
    if data != [] {
      ChainLength(a.fat, chain);
      var n := |chain|;
      assert |data| <= n * bytes;
      assert n * bytes <= 65524 * 65536 by { MulBoth(n, 65524, bytes, 65536); }
    }
  }

  lemma MulBoth(a: nat, b: nat, c: nat, d: nat)
    requires a <= b && c <= d
    ensures a * c <= b * d
  {
    assert a * c <= a * d;
    assert a * d <= b * d;
  }

  /** The new entry describes the new chain, and reading it gives the data. */
  lemma WrittenReads(a0: Image, a: Image, chain: seq<nat>, data: seq<Byte>, bytes: nat, name: seq<Byte>)
    requires Shaped(a, bytes) && Written(a0, a, chain, data, bytes)
    ensures var e := Entry(name, First(chain), |data|);
            EntryOk(a, e, chain, bytes) && ReadBack(a, e, chain, bytes) == data
  {
    if data != [] {
      PiecesJoin(a, chain, data, bytes, |chain|);
      assert chain[..|chain|] == chain;
      var e := Entry(name, First(chain), |data|);
      hide Claimed, Holds, IsChain, Needed, Gathered;
      assert Gathered(a.data, chain)[..|data|] == data;
    }
  }

  /** Freeing the old chain does not touch the new one or anybody else's. */
  lemma ReplaceOld(a0: Image, chains: map<nat, seq<nat>>, bytes: nat, a1: Image, chain: seq<nat>, k: nat, a2: Image)
    requires WellFormed(a0, chains, bytes) && Claimed(a0, a1, chain) && Freeing(a1, a2, OldChain(chains, k))
    ensures forall c | c in chain :: 2 <= c < |a0.fat| && a2.fat[c] == a1.fat[c]
    ensures forall c | 0 <= c < |a0.fat| == |a2.fat| && c !in chain && c !in OldChain(chains, k) ::
              a2.fat[c] == a0.fat[c]
    ensures a2.data == a1.data && a2.dir == a0.dir && |a2.fat| == |a0.fat|
    ensures Agrees(a0, a2, chains - {k})
  {
    OldNotFree(a0, chains, bytes, k);
    hide WellFormed, CountFree;
    ReplaceAgrees(a0, chains, bytes, a1, chain, k, a2);
  }

  lemma OldNotFree(a0: Image, chains: map<nat, seq<nat>>, bytes: nat, k: nat)
    requires WellFormed(a0, chains, bytes)
    ensures forall c | c in OldChain(chains, k) :: 2 <= c < |a0.fat| && a0.fat[c] != 0
  {
    forall c | c in OldChain(chains, k)
      ensures 2 <= c < |a0.fat| && a0.fat[c] != 0
    {
      ChainsNotFree(a0, a0.dir[k], chains[k], bytes, c);
    }
  }

  lemma OthersNotOld(a0: Image, chains: map<nat, seq<nat>>, bytes: nat, k: nat, j: nat, c: nat)
    requires WellFormed(a0, chains, bytes) && j in chains && j != k && c in chains[j]
    ensures 2 <= c < |a0.fat| && a0.fat[c] != 0 && c !in OldChain(chains, k)
  {
    ChainsNotFree(a0, a0.dir[j], chains[j], bytes, c);
    if k in chains { assert Apart(chains[j], chains[k]); }
  }

  lemma ReplaceAgrees(a0: Image, chains: map<nat, seq<nat>>, bytes: nat, a1: Image, chain: seq<nat>, k: nat, a2: Image)
    requires WellFormed(a0, chains, bytes) && Claimed(a0, a1, chain) && Freeing(a1, a2, OldChain(chains, k))
    ensures Agrees(a0, a2, chains - {k})
  {
    hide WellFormed, CountFree, OldChain;
    var rest := chains - {k};
    forall j | j in rest
      ensures Keeps(a0, a2, rest[j])
    {
      forall c | c in rest[j] && 2 <= c < |a0.fat| && c < |a0.data| + 2
        ensures a2.fat[c] == a0.fat[c] && a2.data[c - 2] == a0.data[c - 2]
      {
        OthersNotOld(a0, chains, bytes, k, j, c);
      }
    }
  }

  /** The old chain is still a chain once the new one has been written. */
  lemma OldStillThere(a0: Image, chains: map<nat, seq<nat>>, bytes: nat, a1: Image, chain: seq<nat>, k: nat)
    requires WellFormed(a0, chains, bytes) && Claimed(a0, a1, chain) && k in chains && chains[k] != []
    ensures IsChain(a1.fat, chains[k]) && chains[k][0] == EntryOf(a0.dir[k]).first >= 2
  {
    forall c | c in chains[k]
      ensures 2 <= c < |a0.fat| && a1.fat[c] == a0.fat[c]
    {
      ChainsNotFree(a0, a0.dir[k], chains[k], bytes, c);
    }
    ChainKept(a0.fat, a1.fat, chains[k]);
  }

  lemma ChainMoved(a1: Image, a2: Image, chain: seq<nat>, bytes: nat, e: Entry)
    requires Shaped(a1, bytes) && EntryOk(a1, e, chain, bytes) && a2.data == a1.data && |a2.fat| == |a1.fat|
    requires forall c | c in chain && c < |a1.fat| :: a2.fat[c] == a1.fat[c]
    ensures Shaped(a2, bytes) && EntryOk(a2, e, chain, bytes)
            && ReadBack(a2, e, chain, bytes) == ReadBack(a1, e, chain, bytes)
  {
    if e.first >= 2 { ChainKept(a1.fat, a2.fat, chain); }
    hide Gathered, IsChain;
  }

  /** Writing a chain, freeing the old one and rewriting the slot add up to creating the file. */
  lemma CreationAddsUp(a0: Image, chains: map<nat, seq<nat>>, bytes: nat, name: seq<Byte>, data: seq<Byte>,
                       k: nat, chain: seq<nat>, a1: Image, a2: Image)
    requires WellFormed(a0, chains, bytes) && Fits83(name) && SlotFor(a0.dir, name, k) && bytes <= 65536
    requires Shaped(a1, bytes) && Written(a0, a1, chain, data, bytes) && Freeing(a1, a2, OldChain(chains, k))
    requires CountFree(a2.fat) == CountFree(a1.fat) + |OldChain(chains, k)|
    ensures First(chain) < 0x10000 && |data| < 0x1_0000_0000
    ensures Created(a0, chains, bytes, name, data, k, chain, WithSlot(a2, k, NewSlot(name, First(chain), |data|)))
  {
    SizeFits(a0, a1, chain, data, bytes);
    WrittenReads(a0, a1, chain, data, bytes, Decoded(Encoded(name)));
    ReplaceOld(a0, chains, bytes, a1, chain, k, a2);
    var a, e := WithSlot(a2, k, NewSlot(name, First(chain), |data|)),
      Entry(Decoded(Encoded(name)), First(chain), |data|);
    CountedUp(a0, a1, chain, data, bytes, a2, |OldChain(chains, k)|);
    hide WellFormed, Encoded, Decoded, NewSlot, Agrees, SlotFor, Fits83, EntryOk, ReadBack, CountFree, Shaped, Freeing,
         Written, Short;
    ChainMoved(a1, a, chain, bytes, e);
  }

  lemma CountedUp(a0: Image, a1: Image, chain: seq<nat>, data: seq<Byte>, bytes: nat, a2: Image, n: nat)
    requires bytes > 0 && Written(a0, a1, chain, data, bytes) && CountFree(a2.fat) == CountFree(a1.fat) + n
    ensures CountFree(a2.fat) + |chain| == CountFree(a0.fat) + n && |chain| == Wanted(data, bytes)
    ensures forall c | c in chain :: 2 <= c < |a0.fat| && a0.fat[c] == 0
  {
    hide CountFree, IsChain, Holds, OnlyFree, Wanted;
  }

  /** A created file is there with its contents, the volume is in order, and no other name has changed. */
  lemma CreatedIsStored(a0: Image, chains: map<nat, seq<nat>>, bytes: nat, name: seq<Byte>, data: seq<Byte>,
                        k: nat, chain: seq<nat>, a: Image)
    requires WellFormed(a0, chains, bytes) && Created(a0, chains, bytes, name, data, k, chain, a) && Storable(name)
    ensures WellFormed(a, chains[k := chain], bytes)
    ensures Lookup(a, chains[k := chain], bytes, name) == Some(data)
    ensures forall other | !SameName(other, name) ::
              Lookup(a, chains[k := chain], bytes, other) == Lookup(a0, chains, bytes, other)
  {
    var s := NewSlot(name, First(chain), |data|);
    NewSlotEntry(name, First(chain), |data|);
    FoundWhenStorable(name, First(chain), |data|);
    forall j | j in chains && j != k
      ensures Apart(chains[j], chain) && Apart(chain, chains[j])
    {
      forall c | c in chains[j]
        ensures c !in chain
      {
        ChainsNotFree(a0, a0.dir[j], chains[j], bytes, c);
      }
    }
    var b := a.(dir := a0.dir);
    assert WithSlot(b, k, s) == a;
    assert Content(b, s, chain, bytes) == data;
    hide NewSlot, Encoded, Decoded, WellFormed, Lookup, CountFree, Storable, Matches;
    SlotRewritten(a0, chains, bytes, b, name, k, s, chain);
  }

  // --- crashes ---------------------------------------------------------------------------------

  /** Every state in `t[n..m]` is in order, with the same chains and the same contents under every name. */
  ghost predicate SameFiles(v: Geometry, t: seq<Disk>, n: nat, m: nat, a0: Image, chains: map<nat, seq<nat>>,
                            bytes: nat)
    requires WellFormed(a0, chains, bytes)
  {
    m <= |t| && Sized(v, t, n) &&
    forall i | n <= i < m ::
      WellFormed(ImageOf(v, t[i]), chains, bytes)
      && forall name :: Lookup(ImageOf(v, t[i]), chains, bytes, name) == Lookup(a0, chains, bytes, name)
  }

  lemma ImageShaped(v: Geometry, d: Disk)
    requires Sound(v, |d|)
    ensures Shaped(ImageOf(v, d), ClusterBytes(v)) && ClusterBytes(v) <= 65536
  {
    var a := ImageOf(v, d);
    forall i | 0 <= i < |a.data|
      ensures |a.data[i]| == ClusterBytes(v)
    {
      assert a.data[i + 2 - 2] == ClusterAt(v, d, i + 2);
    }
  }

  /** Changing free clusters only is invisible at every step. */
  lemma UnseenIsSafe(v: Geometry, t: seq<Disk>, n: nat, a0: Image, chains: map<nat, seq<nat>>)
    requires WellFormed(a0, chains, ClusterBytes(v)) && Unseen(v, t, n, a0)
    ensures SameFiles(v, t, n, |t|, a0, chains, ClusterBytes(v))
  {
    forall i | n <= i < |t|
      ensures WellFormed(ImageOf(v, t[i]), chains, ClusterBytes(v))
      ensures forall name :: Lookup(ImageOf(v, t[i]), chains, ClusterBytes(v), name) ==
                Lookup(a0, chains, ClusterBytes(v), name)
    {
      ImageShaped(v, t[i]);
      FreeChangesUnseen(a0, ImageOf(v, t[i]), chains, ClusterBytes(v));
    }
    hide WellFormed, Lookup;
  }

  /** So is freeing the chain of a file that is gone from the directory. */
  lemma FreeingIsSafe(v: Geometry, t: seq<Disk>, n: nat, a: Image, chains: map<nat, seq<nat>>, chain: seq<nat>)
    requires WellFormed(a, chains, ClusterBytes(v)) && AllFreeing(v, t, n, a, chain)
    requires forall j | j in chains :: Apart(chains[j], chain)
    ensures SameFiles(v, t, n, |t|, a, chains, ClusterBytes(v))
  {
    forall i | n <= i < |t|
      ensures WellFormed(ImageOf(v, t[i]), chains, ClusterBytes(v))
      ensures forall name :: Lookup(ImageOf(v, t[i]), chains, ClusterBytes(v), name) ==
                Lookup(a, chains, ClusterBytes(v), name)
    {
      ImageShaped(v, t[i]);
      FreeingAgrees(a, ImageOf(v, t[i]), chains, chain);
      AgreesKeeps(a, ImageOf(v, t[i]), chains, ClusterBytes(v));
    }
    hide WellFormed, Lookup;
  }

  lemma FreeingAgrees(a: Image, a': Image, chains: map<nat, seq<nat>>, chain: seq<nat>)
    requires Freeing(a, a', chain) && forall j | j in chains :: Apart(chains[j], chain)
    ensures Agrees(a, a', chains)
  {
  }

  /** Some state in the trail is not in order. */
  ghost predicate Broken(v: Geometry, t: seq<Disk>, n: nat) {
    exists i :: n <= i < |t| && Sound(v, |t[i]|) && !Consistent(ImageOf(v, t[i]), ClusterBytes(v))
  }

  ghost predicate AlwaysConsistent(v: Geometry, t: seq<Disk>, n: nat) {
    forall i | n <= i < |t| && Sound(v, |t[i]|) :: Consistent(ImageOf(v, t[i]), ClusterBytes(v))
  }

  /** Creating a file keeps the volume in order at every step exactly when there is no old chain to free. */
  lemma AtomicUnlessReplacing(v: Geometry, t: seq<Disk>, n: nat, a0: Image, chains: map<nat, seq<nat>>, name: seq<Byte>,
                              data: seq<Byte>, k: nat, chain: seq<nat>)
    requires n < |t| && Sound(v, |t[|t| - 1]|) && WellFormed(a0, chains, ClusterBytes(v)) && ClusterBytes(v) > 0
    requires Created(a0, chains, ClusterBytes(v), name, data, k, chain, ImageOf(v, t[|t| - 1])) && Storable(name)
    requires OldChain(chains, k) == [] ==> SameFiles(v, t, n, |t| - 1, a0, chains, ClusterBytes(v))
    requires OldChain(chains, k) != [] ==> Broken(v, t, n)
    ensures AlwaysConsistent(v, t, n) <==> OldChain(chains, k) == []
  {
    hide WellFormed, Created, Lookup, Sound, Storable, ImageOf, OldChain, ClusterBytes, Consistent;
    CreatedIsStored(a0, chains, ClusterBytes(v), name, data, k, chain, ImageOf(v, t[|t| - 1]));
    InOrder(ImageOf(v, t[|t| - 1]), chains[k := chain], ClusterBytes(v));
    if OldChain(chains, k) == [] {
      forall i | n <= i < |t| && Sound(v, |t[i]|)
        ensures Consistent(ImageOf(v, t[i]), ClusterBytes(v))
      {
        if i < |t| - 1 { InOrder(ImageOf(v, t[i]), chains, ClusterBytes(v)); }
      }
    }
  }

  lemma InOrder(a: Image, chains: map<nat, seq<nat>>, bytes: nat)
    requires WellFormed(a, chains, bytes)
    ensures Consistent(a, bytes)
  {
  }

  /** Once the first cluster of a chain is free its entry, still there, names a free cluster. */
  lemma OldEntryDangles(v: Geometry, t: seq<Disk>, i: nat, a: Image, k: nat, chain: seq<nat>)
    requires i < |t| && AllFreeing(v, t, i, a, chain) && k < |a.dir| && IsFile(a.dir[k])
    requires 2 <= EntryOf(a.dir[k]).first < |a.fat| && ImageOf(v, t[i]).fat[EntryOf(a.dir[k]).first] == 0
    ensures Broken(v, t, i)
  {
    assert Freeing(a, ImageOf(v, t[i]), chain);
    DanglingEntry(ImageOf(v, t[i]), k, ClusterBytes(v));
  }

  /** There is a slot to put the name in. */
  predicate HasSlot(dir: seq<Slot>, name: seq<Byte>) { Position(dir, name, 0) < |dir| || FirstEmpty(dir, 0) < |dir| }

  lemma NoSlot(dir: seq<Slot>, name: seq<Byte>)
    requires ChosenSlot(dir, name) == |dir|
    ensures !HasSlot(dir, name)
  {
  }

  lemma SlotTaken(a: Image, chains: map<nat, seq<nat>>, bytes: nat, name: seq<Byte>, k: nat)
    requires WellFormed(a, chains, bytes) && SlotFor(a.dir, name, k)
    ensures k < |a.dir| && HasSlot(a.dir, name) && (k in chains <==> Position(a.dir, name, 0) < |a.dir|)
  {
    assert k in chains <==> IsFile(a.dir[k]);
  }

  lemma OldEntry(a: Image, chains: map<nat, seq<nat>>, bytes: nat, k: nat)
    requires WellFormed(a, chains, bytes) && k < |a.dir|
    ensures OldChain(chains, k) != [] <==> k in chains && EntryOf(a.dir[k]).first >= 2
    ensures k in chains ==> IsFile(a.dir[k])
  {
    assert k in chains ==> FileOk(a, a.dir[k], chains[k], bytes);
  }

  lemma FreeingSelf(a: Image, chain: seq<nat>)
    ensures Freeing(a, a, chain)
  {
  }

  lemma OldInTable(a0: Image, a1: Image, chain: seq<nat>, former: seq<nat>)
    requires Claimed(a0, a1, chain) && IsChain(a1.fat, former)
    ensures 2 <= former[0] < |a1.fat| && a1.dir == a0.dir
  {
  }

  lemma WrittenClaims(a0: Image, a: Image, chain: seq<nat>, data: seq<Byte>, bytes: nat)
    requires bytes > 0 && Written(a0, a, chain, data, bytes)
    ensures Claimed(a0, a, chain)
  {
  }

  lemma NothingWritten(v: Geometry, t: seq<Disk>, a: Image, chains: map<nat, seq<nat>>)
    requires WellFormed(a, chains, ClusterBytes(v))
    ensures SameFiles(v, t, |t|, |t|, a, chains, ClusterBytes(v)) && OnlyFree(a, a)
  {
  }

  /** The last write of a creation, after the free clusters have been filled (`t1`) and the old chain freed (`t2`). */
  lemma LastStep(v: Geometry, t0: seq<Disk>, t1: seq<Disk>, t2: seq<Disk>, d: Disk, a: Image,
                 chains: map<nat, seq<nat>>)
    requires WellFormed(a, chains, ClusterBytes(v)) && SameFiles(v, t1, |t0|, |t1|, a, chains, ClusterBytes(v))
             && Sound(v, |d|)
    requires Extends(t0, t1) && Extends(t1, t2)
    ensures Extends(t0, t2 + [d])
    ensures t2 == t1 ==> SameFiles(v, t2 + [d], |t0|, |t2|, a, chains, ClusterBytes(v))
    ensures Broken(v, t2, |t1|) ==> Broken(v, t2 + [d], |t0|)
  {
    var t := t2 + [d];
    assert t[..|t2|] == t2;
    ExtendsTwice(t0, t1, t2);
    ExtendsTwice(t0, t2, t);
    hide WellFormed, Lookup, Sound;
    if t2 == t1 {
      assert forall i | |t0| <= i < |t2| :: t[i] == t1[i];
    }
    if Broken(v, t2, |t1|) {
      var i :| |t1| <= i < |t2| && Sound(v, |t2[i]|) && !Consistent(ImageOf(v, t2[i]), ClusterBytes(v));
      assert t[i] == t2[i];
    }
  }

  // --- the other files, whatever happens to this one ----------------------------------------------

  /** In every state from `n` on the files in slots other than `k` have their entries, chains and contents. */
  ghost predicate OthersReadAlike(v: Geometry, t: seq<Disk>, n: nat, a: Image, chains: map<nat, seq<nat>>, k: nat)
    requires WellFormed(a, chains, ClusterBytes(v))
  {
    Sized(v, t, n) && forall i | n <= i < |t| :: OthersAlike(a, chains, ClusterBytes(v), k, ImageOf(v, t[i]))
  }

  ghost predicate OthersAlike(a: Image, chains: map<nat, seq<nat>>, bytes: nat, k: nat, b: Image)
    requires WellFormed(a, chains, bytes)
  {
    && |b.dir| == |a.dir| && (forall j | 0 <= j < |a.dir| && j != k :: b.dir[j] == a.dir[j])
    && OthersKept(a, chains, bytes, k, b)
  }

  lemma AgreesRest(a: Image, b: Image, chains: map<nat, seq<nat>>, k: nat)
    requires Agrees(a, b, chains)
    ensures Agrees(a, b, chains - {k})
  {
    var rest := chains - {k};
    forall j | j in rest
      ensures Keeps(a, b, rest[j])
    {
      assert Keeps(a, b, chains[j]);
    }
  }

  lemma AgreesIsAlike(v: Geometry, d: Disk, a: Image, chains: map<nat, seq<nat>>, k: nat)
    requires WellFormed(a, chains, ClusterBytes(v)) && Sound(v, |d|)
    requires Agrees(a, ImageOf(v, d).(dir := a.dir), chains - {k})
    requires var b := ImageOf(v, d); |b.dir| == |a.dir| && forall j | 0 <= j < |a.dir| && j != k :: b.dir[j] == a.dir[j]
    ensures OthersAlike(a, chains, ClusterBytes(v), k, ImageOf(v, d))
  {
    hide WellFormed, Sound, ImageOf, Agrees;
    ImageShaped(v, d);
    AgreesOthers(a, chains, ClusterBytes(v), k, ImageOf(v, d));
  }

  /** While only free clusters have changed, ... */
  lemma AlikeBefore(v: Geometry, d: Disk, a: Image, chains: map<nat, seq<nat>>, k: nat)
    requires WellFormed(a, chains, ClusterBytes(v)) && Sound(v, |d|) && OnlyFree(a, ImageOf(v, d))
    ensures OthersAlike(a, chains, ClusterBytes(v), k, ImageOf(v, d))
  {
    ImageShaped(v, d);
    FreeChangesUnseen(a, ImageOf(v, d), chains, ClusterBytes(v));
    hide WellFormed, Sound, ImageOf, Lookup, Shaped;
    assert ImageOf(v, d).(dir := a.dir) == ImageOf(v, d);
    hide OnlyFree;
    AgreesRest(a, ImageOf(v, d), chains, k);
    AgreesIsAlike(v, d, a, chains, k);
  }

  /** ... while the old chain is being freed, ... */
  lemma AlikeFreeing(v: Geometry, d: Disk, a: Image, chains: map<nat, seq<nat>>, k: nat, chain: seq<nat>, a1: Image)
    requires WellFormed(a, chains, ClusterBytes(v)) && Sound(v, |d|) && Claimed(a, a1, chain)
    requires Freeing(a1, ImageOf(v, d), OldChain(chains, k))
    ensures OthersAlike(a, chains, ClusterBytes(v), k, ImageOf(v, d))
  {
    hide WellFormed, Sound, ImageOf, CountFree, OldChain;
    assert ImageOf(v, d).dir == a.dir;
    assert ImageOf(v, d).(dir := a.dir) == ImageOf(v, d);
    hide OnlyFree, Freeing, Claimed;
    ReplaceAgrees(a, chains, ClusterBytes(v), a1, chain, k, ImageOf(v, d));
    AgreesIsAlike(v, d, a, chains, k);
  }

  /** ... and once the entry is rewritten, the other files read alike. */
  lemma OthersAllAlong(v: Geometry, t0: seq<Disk>, t1: seq<Disk>, t2: seq<Disk>, d: Disk, a: Image,
                       chains: map<nat, seq<nat>>,
                       name: seq<Byte>, data: seq<Byte>, k: nat, chain: seq<nat>, a1: Image)
    requires WellFormed(a, chains, ClusterBytes(v)) && ClusterBytes(v) > 0 && Claimed(a, a1, chain)
    requires Extends(t0, t1) && Extends(t1, t2) && Unseen(v, t1, |t0|, a)
             && AllFreeing(v, t2, |t1|, a1, OldChain(chains, k))
    requires Sound(v, |d|) && Created(a, chains, ClusterBytes(v), name, data, k, chain, ImageOf(v, d))
    ensures OthersReadAlike(v, t2 + [d], |t0|, a, chains, k)
  {
    var t := t2 + [d];
    CreatedAlike(v, d, a, chains, name, data, k, chain);
    hide WellFormed, Sound, ImageOf, OnlyFree, Freeing, Claimed, Created, OthersAlike, OldChain;
    forall i | |t0| <= i < |t|
      ensures Sound(v, |t[i]|) && OthersAlike(a, chains, ClusterBytes(v), k, ImageOf(v, t[i]))
    {
      if i < |t1| {
        assert t[i] == t2[..|t1|][i] == t1[i];
        AlikeBefore(v, t[i], a, chains, k);
      } else if i < |t2| {
        assert t[i] == t2[i];
        AlikeFreeing(v, t[i], a, chains, k, chain, a1);
      }
    }
  }

  lemma CreatedAlike(v: Geometry, d: Disk, a: Image, chains: map<nat, seq<nat>>, name: seq<Byte>, data: seq<Byte>,
                     k: nat, chain: seq<nat>)
    requires WellFormed(a, chains, ClusterBytes(v)) && ClusterBytes(v) > 0
    requires Sound(v, |d|) && Created(a, chains, ClusterBytes(v), name, data, k, chain, ImageOf(v, d))
    ensures OthersAlike(a, chains, ClusterBytes(v), k, ImageOf(v, d))
  {
    hide WellFormed, Sound, ImageOf, CountFree, NewSlot, EntryOk, ReadBack, Agrees, Encoded, Decoded, Wanted;
    AgreesIsAlike(v, d, a, chains, k);
  }

  // --- removing ----------------------------------------------------------------------------------

  function DeadSlot(s: Slot): Slot { s[0 := 0xE5] }

  /** The name is gone and every other name stands for what it stood for. */
  ghost predicate WithoutName(a: Image, chains: map<nat, seq<nat>>, bytes: nat, name: seq<Byte>, b: Image,
                              chains': map<nat, seq<nat>>)
    requires WellFormed(a, chains, bytes) && WellFormed(b, chains', bytes)
  {
    && Lookup(b, chains', bytes, name) == None
    && forall other | !SameName(other, name) :: Lookup(b, chains', bytes, other) == Lookup(a, chains, bytes, other)
  }

  lemma RemovalStarts(a: Image, chains: map<nat, seq<nat>>, bytes: nat, name: seq<Byte>, k: nat)
    requires WellFormed(a, chains, bytes) && k == Position(a.dir, name, 0) < |a.dir|
    ensures WellFormed(WithSlot(a, k, DeadSlot(a.dir[k])), chains - {k}, bytes)
    ensures k in chains && forall j | j in chains - {k} :: Apart((chains - {k})[j], OldChain(chains, k))
    ensures WithoutName(a, chains, bytes, name, WithSlot(a, k, DeadSlot(a.dir[k])), chains - {k})
  {
    SlotDeleted(a, chains, bytes, name, k, DeadSlot(a.dir[k]));
    assert IsFile(a.dir[k]);
    assert k in chains;
    hide SlotFor, FileOk, Shaped;
  }

  lemma OldIsChain(a: Image, chains: map<nat, seq<nat>>, bytes: nat, k: nat)
    requires WellFormed(a, chains, bytes) && k in chains && EntryOf(a.dir[k]).first >= 2
    ensures IsChain(a.fat, OldChain(chains, k)) && OldChain(chains, k)[0] == EntryOf(a.dir[k]).first && |a.fat| <= 65526
  {
    assert FileOk(a, a.dir[k], chains[k], bytes);
  }

  /** From the moment the slot is dead, every state is in order without the file. */
  lemma RemovalSteps(v: Geometry, t0: seq<Disk>, d: Disk, t: seq<Disk>, gone: Image, chains: map<nat, seq<nat>>,
                     chain: seq<nat>, a: Image)
    requires Sound(v, |d|) && ImageOf(v, d) == gone && WellFormed(gone, chains, ClusterBytes(v))
    requires Extends(t0 + [d], t) && AllFreeing(v, t, |t0| + 1, gone, chain) && Freeing(gone, a, chain)
             && Shaped(a, ClusterBytes(v))
    requires forall j | j in chains :: Apart(chains[j], chain)
    ensures Extends(t0, t) && |t0| < |t| && SameFiles(v, t, |t0|, |t|, gone, chains, ClusterBytes(v))
    ensures WellFormed(a, chains, ClusterBytes(v))
    ensures forall n :: Lookup(a, chains, ClusterBytes(v), n) == Lookup(gone, chains, ClusterBytes(v), n)
  {
    var bytes := ClusterBytes(v);
    FreeingAgrees(gone, a, chains, chain);
    AgreesKeeps(gone, a, chains, bytes);
    hide WellFormed, Lookup, Sound;
    FreeingIsSafe(v, t, |t0| + 1, gone, chains, chain);
    assert (t0 + [d])[..|t0|] == t0;
    ExtendsTwice(t0, t0 + [d], t);
    assert t[|t0|] == d by { assert t[..|t0| + 1][|t0|] == d; }
  }

  /** Copy `s`, in upper case, over `text` from `at` on. */
  method PutUpper(text: seq<Byte>, at: nat, s: seq<Byte>) returns (r: seq<Byte>)
    requires at + |s| <= |text|
    ensures r == Splice(text, at, UpperAll(s))
  {
    r := text;
    for index := 0 to |s|
      invariant |r| == |text|
      invariant forall i | 0 <= i < |text| :: r[i] == if at <= i < at + index then Upper(s[i - at]) else text[i]
    {
      r := r[at + index := Upper(s[index])];
    }
  }

  /** The directory entry of a new file. */
  method BuildSlot(name: seq<Byte>, first: nat, size: nat) returns (slot: Slot)
    requires Short(name) && first < 0x10000 && size < 0x1_0000_0000
    ensures slot == NewSlot(name, first, size)
  {
    var blank := seq(11, _ => SPACE);
    var text := PutUpper(blank, 0, Stem(name));
    text := PutUpper(text, 8, Extension(name));
    EncodedIs(name);
    slot := text + [0x20] + seq(14, _ => 0) + Little(first) + Little32(size);
  }

  lemma EncodedIs(name: seq<Byte>)
    requires Short(name)
    ensures Splice(Splice(seq(11, _ => SPACE), 0, UpperAll(Stem(name))), 8, UpperAll(Extension(name))) == Encoded(name)
  {
    var stem, extension := UpperAll(Stem(name)), UpperAll(Extension(name));
    hide Stem, Extension;
  }

  /** A name that is there leads to an entry and a chain that read back as its contents. */
  lemma StoredEntry(a: Image, chains: map<nat, seq<nat>>, bytes: nat, name: seq<Byte>, data: seq<Byte>)
    requires WellFormed(a, chains, bytes) && Lookup(a, chains, bytes, name) == Some(data)
    ensures Shaped(a, bytes)
    ensures var k := Position(a.dir, name, 0);
            && k < |a.dir| && k in chains && EntryOk(a, EntryOf(a.dir[k]), chains[k], bytes)
            && ReadBack(a, EntryOf(a.dir[k]), chains[k], bytes) == data
  {
  }
}
