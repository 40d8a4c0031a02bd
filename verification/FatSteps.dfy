/** Single steps of the FAT16 driver: where a sector write lands, and what claiming, linking, freeing,
    scanning and reading do to a volume. */
module FatSteps {
  import opened Basics
  import opened FatNames
  import opened FatVolume
  import opened FatChains
  import opened FatTrails

  // --- where a sector write lands -------------------------------------------------------

  /** Every copy up to `n` has the new value for `c`; the others are as they were. */
  ghost predicate CopiesSet(v: Geometry, d0: Disk, d: Disk, n: nat, c: nat, value: nat)
    requires Sound(v, |d0|) && Sound(v, |d|) && c < v.clusters + 2 && value < 0x10000
  {
    forall j | 0 <= j < v.fatCount ::
      Table(v, d, j) == if j < n then Splice(Table(v, d0, j), 2 * c, Little(value)) else Table(v, d0, j)
  }

  lemma EntryPlace(v: Geometry, size: nat, c: nat, copy: nat)
    requires Sound(v, size) && c < v.clusters + 2 && copy < v.fatCount
    ensures var target := v.fatStart + 2 * c / 512 + copy * v.sectorsPerFat;
            && 512 * target + 2 * c % 512 == TableByte(v, copy) + 2 * c
            && 512 * target + 512 <= size && 2 * c % 512 + 2 <= 512 && 2 * c + 2 <= 512 * v.sectorsPerFat
    ensures copy == 0 ==> TableByte(v, copy) + 2 * c == FatByte(v, c)
  {
    CopyFits(v, size, copy);
    assert 2 * c / 512 < v.sectorsPerFat;
  }

  lemma CopyStep(v: Geometry, d0: Disk, d: Disk, c: nat, value: nat, copy: nat)
    requires Sound(v, |d0|) && |d| == |d0| && c < v.clusters + 2 && value < 0x10000 && copy < v.fatCount
    requires CopiesSet(v, d0, d, copy, c, value)
    ensures TableByte(v, copy) + 2 * c + 2 <= |d|
    ensures CopiesSet(v, d0, Splice(d, TableByte(v, copy) + 2 * c, Little(value)), copy + 1, c, value)
  {
    assert 2 * c + 2 <= 512 * v.sectorsPerFat && TableByte(v, copy) + 512 * v.sectorsPerFat <= |d| by {
      EntryPlace(v, |d|, c, copy);
      CopyFits(v, |d|, copy);
    }
    hide Sound, Splice, Table, Little, TableByte;
    var d' := Splice(d, TableByte(v, copy) + 2 * c, Little(value));
    forall j | 0 <= j < v.fatCount
      ensures Table(v, d', j) == if j < copy + 1 then Splice(Table(v, d0, j), 2 * c, Little(value)) else Table(v, d0, j)
    {
      TableWritten(v, d, copy, 2 * c, Little(value), j);
    }
  }

  /** Writing the entry for `c` into copy `copy`. */
  lemma EntryWritten(v: Geometry, d0: Disk, d: Disk, c: nat, value: nat, copy: nat)
    requires Sound(v, |d0|) && |d| == |d0| && c < v.clusters + 2 && value < 0x10000 && copy < v.fatCount
    requires CopiesSet(v, d0, d, copy, c, value)
    requires ImageOf(v, d) == if copy == 0 then ImageOf(v, d0)
             else ImageOf(v, d0).(fat := ImageOf(v, d0).fat[c := value])
    ensures TableByte(v, copy) + 2 * c + 2 <= |d|
    ensures var d' := Splice(d, TableByte(v, copy) + 2 * c, Little(value));
            && CopiesSet(v, d0, d', copy + 1, c, value)
            && ImageOf(v, d') == ImageOf(v, d0).(fat := ImageOf(v, d0).fat[c := value])
  {
    EntryPlace(v, |d|, c, copy);
    CopyFits(v, |d|, copy);
    hide Sound, Mounted, Splice, Table, Little, CopiesSet;
    CopyStep(v, d0, d, c, value, copy);
    if copy == 0 {
      FatWritten(v, d, c, value);
    } else {
      CopyWritten(v, d, TableByte(v, copy) + 2 * c, Little(value));
    }
  }

  lemma EntryStep(v: Geometry, d0: Disk, d: Disk, c: nat, value: nat, copy: nat, target: nat)
    requires Sound(v, |d0|) && |d| == |d0| && c < v.clusters + 2 && value < 0x10000 && copy < v.fatCount
    requires 512 * target + 2 * c % 512 == TableByte(v, copy) + 2 * c
    requires 512 * target + 512 <= |d| && 2 * c % 512 + 2 <= 512
    requires CopiesSet(v, d0, d, copy, c, value)
    requires ImageOf(v, d) == if copy == 0 then ImageOf(v, d0)
             else ImageOf(v, d0).(fat := ImageOf(v, d0).fat[c := value])
    ensures var d' := Splice(d, 512 * target, Splice(d[512 * target..512 * target + 512], 2 * c % 512, Little(value)));
            && CopiesSet(v, d0, d', copy + 1, c, value)
            && ImageOf(v, d') == ImageOf(v, d0).(fat := ImageOf(v, d0).fat[c := value])
  {
    hide Sound, CopiesSet, TableByte, Splice, Little;
    SpliceWithin(d, 512 * target, 512, 2 * c % 512, Little(value));
    EntryWritten(v, d0, d, c, value, copy);
  }

  lemma AllCopiesSet(v: Geometry, d0: Disk, d: Disk, c: nat, value: nat)
    requires Sound(v, |d0|) && |d| == |d0| && c < v.clusters + 2 && value < 0x10000
    requires CopiesSet(v, d0, d, v.fatCount, c, value) && Mirrored(v, d0)
    ensures Mirrored(v, d)
  {
    hide Splice, Table;
    assert v.fatCount > 0;
  }

  lemma CopiesNone(v: Geometry, d: Disk, c: nat, value: nat)
    requires Sound(v, |d|) && c < v.clusters + 2 && value < 0x10000
    ensures CopiesSet(v, d, d, 0, c, value)
  {
  }

  lemma SettledNone(v: Geometry, t: seq<Disk>, a: Image)
    ensures Settled(v, t, |t|, a)
  {
  }

  lemma SettledOne(v: Geometry, t: seq<Disk>, n: nat, d: Disk, a: Image)
    requires Sound(v, |d|) && Settled(v, t, n, a) && n <= |t| && ImageOf(v, d) == a
    ensures Settled(v, t + [d], n, a)
  {
    hide Sound;
  }

  lemma UnseenOne(v: Geometry, t: seq<Disk>, n: nat, d: Disk, a: Image)
    requires Sound(v, |d|) && Unseen(v, t, n, a) && n <= |t| && OnlyFree(a, ImageOf(v, d))
    ensures Unseen(v, t + [d], n, a)
  {
    hide Sound, OnlyFree;
  }

  lemma PastTables(v: Geometry, d: Disk, at: nat, b: seq<Byte>)
    requires Sound(v, |d|) && 512 * v.dataStart <= at && at + |b| <= |d|
    ensures Mirrored(v, d) <==> Mirrored(v, Splice(d, at, b))
  {
    hide Mirrored, Splice;
    TablesKept(v, d, at, b);
  }

  /** The first `n` bytes already replaced. */
  function Mixed(before: seq<Byte>, after: seq<Byte>, n: nat): seq<Byte>
    requires n <= |before| == |after|
  {
    after[..n] + before[n..]
  }

  lemma MixedStep(before: seq<Byte>, after: seq<Byte>, n: nat)
    requires n + 512 <= |before| == |after|
    ensures Splice(Mixed(before, after, n), n, after[n..n + 512]) == Mixed(before, after, n + 512)
  {
  }

  // --- reserving, filling, linking and freeing, in terms of the volume's contents ------------

  /** Clusters free in `a0` have been claimed: they are `chain`, and all other entries are as they were. */
  ghost predicate Claimed(a0: Image, a: Image, chain: seq<nat>) {
    && OnlyFree(a0, a) && NoRepeats(chain)
    && (forall c | c in chain :: 2 <= c < |a0.fat| && a0.fat[c] == 0 && a.fat[c] != 0)
    && (forall c | 0 <= c < |a0.fat| && c !in chain :: a.fat[c] == a0.fat[c])
    && CountFree(a.fat) + |chain| == CountFree(a0.fat)
  }

  /** ... and they are all the free ones below `n`. */
  ghost predicate ClaimedTo(a0: Image, a: Image, chain: seq<nat>, n: nat) {
    && Claimed(a0, a, chain) && 2 <= n <= |a0.fat|
    && (forall c | c in chain :: c < n)
    && |chain| == FreeBelow(a0.fat, n)
  }

  lemma ClaimNone(a: Image)
    requires |a.fat| >= 2
    ensures ClaimedTo(a, a, [], 2)
  {
  }

  lemma UnseenNone(v: Geometry, t: seq<Disk>, a: Image)
    ensures Unseen(v, t, |t|, a)
  {
  }

  lemma ClaimOne(a0: Image, a: Image, chain: seq<nat>, n: nat, c: nat)
    requires ClaimedTo(a0, a, chain, n) && n <= c < |a.fat| && a.fat[c] == 0 && forall x | n <= x < c :: a.fat[x] != 0
    ensures ClaimedTo(a0, a.(fat := a.fat[c := 0xFFFF]), chain + [c], c + 1)
    ensures OnlyFree(a0, a.(fat := a.fat[c := 0xFFFF]))
  {
    assert c !in chain;
    assert forall x | n <= x < c :: x !in chain && a0.fat[x] == a.fat[x];
    NoneFreeAbove(a0.fat, n, c);
    FreeBelowSet(a.fat, |a.fat|, c, 0xFFFF);
    hide FreeBelow;
    assert FreeBelow(a0.fat, c + 1) == FreeBelow(a0.fat, c) + 1 by { FreeNext(a0.fat, c); }
  }

  lemma FreeNext(fat: seq<nat>, c: nat)
    requires 2 <= c < |fat|
    ensures FreeBelow(fat, c + 1) == FreeBelow(fat, c) + if fat[c] == 0 then 1 else 0
  {
  }

  lemma ClaimAll(a0: Image, a: Image, chain: seq<nat>, n: nat)
    requires ClaimedTo(a0, a, chain, n) && forall x | n <= x < |a.fat| :: a.fat[x] != 0
    ensures |chain| == CountFree(a0.fat) && Claimed(a0, a, chain)
  {
    assert forall x | n <= x < |a.fat| :: x !in chain && a0.fat[x] == a.fat[x];
    NoneFreeAbove(a0.fat, n, |a.fat|);
  }

  lemma ClaimedFacts(a0: Image, a: Image, chain: seq<nat>, n: nat)
    requires ClaimedTo(a0, a, chain, n)
    ensures Claimed(a0, a, chain) && |chain| <= CountFree(a0.fat)
  {
  }

  lemma ClaimedData(a0: Image, a: Image, a': Image, chain: seq<nat>)
    requires Claimed(a0, a, chain) && a'.fat == a.fat && OnlyFree(a0, a')
    ensures Claimed(a0, a', chain)
  {
    hide OnlyFree, FreeBelow;
  }

  lemma ClaimedUnseen(a0: Image, a: Image, chain: seq<nat>)
    requires Claimed(a0, a, chain)
    ensures OnlyFree(a0, a) && NoRepeats(chain)
  {
  }

  lemma PieceStarts(size: nat, bytes: nat, i: nat)
    requires bytes > 0 && i < Needed(size, bytes)
    ensures i * bytes <= size
  {
    var n := Needed(size, bytes);
    hide Needed;
    if i < n - 1 { MulStep(i, n - 1, bytes); }
  }

  lemma PieceIsFrom(data: seq<Byte>, i: nat, bytes: nat)
    requires i * bytes <= |data|
    ensures Piece(data, i, bytes) == PieceFrom(data, i * bytes, bytes)
  {
  }

  lemma HoldsNone(a: Image, chain: seq<nat>, data: seq<Byte>, bytes: nat)
    requires bytes > 0
    ensures Holds(a, chain, data, bytes, 0)
  {
  }

  lemma HoldsOne(a: Image, a': Image, chain: seq<nat>, data: seq<Byte>, bytes: nat, n: nat)
    requires bytes > 0 && n < |chain| && NoRepeats(chain) && n * bytes <= |data| && Holds(a, chain, data, bytes, n)
    requires 2 <= chain[n] < |a.data| + 2 && a'.data == a.data[chain[n] - 2 := Piece(data, n, bytes)]
    ensures Holds(a', chain, data, bytes, n + 1)
  {
    hide Piece;
    forall i | 0 <= i < n + 1
      ensures HoldsPiece(a', chain[i], data, bytes, i)
    {
      assert i < n ==> HoldsPiece(a, chain[i], data, bytes, i);
    }
  }

  lemma HoldsStill(a: Image, a': Image, chain: seq<nat>, data: seq<Byte>, bytes: nat, n: nat)
    requires bytes > 0 && n <= |chain| && a'.data == a.data && Holds(a, chain, data, bytes, n)
    ensures Holds(a', chain, data, bytes, n)
  {
    hide Piece;
    forall i | 0 <= i < n
      ensures HoldsPiece(a', chain[i], data, bytes, i)
    {
      assert HoldsPiece(a, chain[i], data, bytes, i);
    }
  }

  lemma ShapedBytes(a: Image, bytes: nat)
    requires Shaped(a, bytes)
    ensures bytes > 0
  {
  }

  ghost predicate LinkedFrom(fat: seq<nat>, chain: seq<nat>, n: nat) {
    InTable(fat, chain) && forall i {:trigger Linked(fat, chain, i)} | n <= i < |chain| :: Linked(fat, chain, i)
  }

  lemma LinkNone(a0: Image, a: Image, chain: seq<nat>)
    requires Claimed(a0, a, chain)
    ensures LinkedFrom(a.fat, chain, |chain|)
  {
    forall i | 0 <= i < |chain|
      ensures 2 <= chain[i] < |a.fat|
    {
      assert chain[i] in chain;
    }
  }

  lemma ClaimedEntry(a0: Image, a: Image, chain: seq<nat>, i: nat)
    requires Claimed(a0, a, chain) && i < |chain|
    ensures 2 <= chain[i] < |a0.fat| == |a.fat| && a0.fat[chain[i]] == 0
    ensures i + 1 < |chain| ==> 2 <= chain[i + 1] < |a0.fat|
  {
    assert chain[i] in chain;
    assert i + 1 < |chain| ==> chain[i + 1] in chain;
  }

  lemma LinkOne(a0: Image, a: Image, chain: seq<nat>, i: nat, value: nat)
    requires Claimed(a0, a, chain) && i < |chain| && LinkedFrom(a.fat, chain, i + 1) && chain[i] < |a.fat|
    requires value == if i + 1 == |chain| then 0xFFFF else chain[i + 1]
    ensures value != 0
    ensures Claimed(a0, a.(fat := a.fat[chain[i] := value]), chain) && OnlyFree(a0, a.(fat := a.fat[chain[i] := value]))
    ensures LinkedFrom(a.fat[chain[i] := value], chain, i)
  {
    var fat := a.fat[chain[i] := value];
    assert chain[i] in chain;
    FreeBelowSet(a.fat, |a.fat|, chain[i], value);
    forall j | i <= j < |chain|
      ensures Linked(fat, chain, j)
    {
      assert j > i ==> Linked(a.fat, chain, j);
    }
    hide FreeBelow;
  }

  lemma ClaimedChain(a0: Image, a: Image, chain: seq<nat>)
    requires Claimed(a0, a, chain) && LinkedFrom(a.fat, chain, 0) && chain != []
    ensures IsChain(a.fat, chain)
  {
  }

  ghost predicate Names(c: nat) { 2 <= c < END_OF_CHAIN }

  /** The clusters met on the way from `first`: inside the table and each once.  What the last one names is no cluster,
      or one already met. */
  ghost predicate IsTour(fat: seq<nat>, first: nat, tour: seq<nat>) {
    && InTable(fat, tour) && NoRepeats(tour)
    && (tour == [] ==> !Names(first))
    && (tour != [] ==> tour[0] == first && Stops(fat, tour))
    && (forall i | 0 <= i < |tour| - 1 :: fat[tour[i]] == tour[i + 1])
  }

  ghost predicate Stops(fat: seq<nat>, tour: seq<nat>)
    requires tour != [] && InTable(fat, tour)
  {
    !Names(fat[tour[|tour| - 1]]) || fat[tour[|tour| - 1]] in tour
  }

  lemma ChainIsTour(fat: seq<nat>, chain: seq<nat>)
    requires IsChain(fat, chain)
    ensures IsTour(fat, chain[0], chain) && Already(fat, chain, |chain|) == 0
  {
    assert Linked(fat, chain, |chain| - 1);
    forall i | 0 <= i < |chain| - 1 ensures fat[chain[i]] == chain[i + 1] { assert Linked(fat, chain, i); }
  }

  /** Whatever the table holds, as long as its entries stay inside it, there is such a walk. */
  lemma TourExists(fat: seq<nat>, first: nat)
    requires Names(first) ==> first < |fat|
    requires forall c | 2 <= c < |fat| :: Names(fat[c]) ==> fat[c] < |fat|
    ensures exists tour :: IsTour(fat, first, tour)
  {
    if Names(first) {
      TourOn(fat, first, [first]);
    } else {
      assert IsTour(fat, first, []);
    }
  }

  lemma {:induction false} TourOn(fat: seq<nat>, first: nat, met: seq<nat>)
    requires forall c | 2 <= c < |fat| :: Names(fat[c]) ==> fat[c] < |fat|
    requires met != [] && met[0] == first && InTable(fat, met) && NoRepeats(met)
    requires forall i | 0 <= i < |met| - 1 :: fat[met[i]] == met[i + 1]
    ensures exists tour :: IsTour(fat, first, tour)
    decreases |fat| - |met|
  {
    if Stops(fat, met) {
      assert IsTour(fat, first, met);
    } else {
      ChainLength(fat, met);
      TourOn(fat, first, met + [fat[met[|met| - 1]]]);
    }
  }

  /** One when the last cluster of the walk was free before it was freed. */
  ghost function Already(fat: seq<nat>, walk: seq<nat>, n: nat): nat
    requires n <= |walk|
  {
    if 0 < n == |walk| && walk[n - 1] < |fat| && fat[walk[n - 1]] == 0 then 1 else 0
  }

  /** The first `n` clusters of the chain are free again, and nothing else has changed. */
  ghost predicate Freed(a: Image, a': Image, chain: seq<nat>, n: nat)
    requires n <= |chain|
  {
    && a'.dir == a.dir && a'.data == a.data && |a'.fat| == |a.fat|
    && (forall i | 0 <= i < n && chain[i] < |a.fat| :: a'.fat[chain[i]] == 0)
    && (forall c | 0 <= c < |a.fat| && c !in chain[..n] :: a'.fat[c] == a.fat[c])
    && CountFree(a'.fat) == CountFree(a.fat) + n - Already(a.fat, chain, n)
  }

  lemma FreedNone(a: Image, chain: seq<nat>)
    ensures Freed(a, a, chain, 0)
  {
  }

  lemma FreeingNone(v: Geometry, t: seq<Disk>, a: Image, chain: seq<nat>)
    ensures AllFreeing(v, t, |t|, a, chain)
  {
  }

  lemma FreedOne(a: Image, a': Image, chain: seq<nat>, n: nat)
    requires n < |chain| && IsTour(a.fat, chain[0], chain) && Freed(a, a', chain, n)
    ensures 2 <= chain[n] < |a'.fat| == |a.fat|
    ensures Freed(a, a'.(fat := a'.fat[chain[n] := 0]), chain, n + 1)
    ensures if n + 1 < |chain| then a'.fat[chain[n]] == chain[n + 1]
            else !Names(a'.fat[chain[n]]) || a'.fat[chain[n]] in chain
  {
    assert chain[n] !in chain[..n];
    assert a'.fat[chain[n]] == a.fat[chain[n]];
    assert n + 1 < |chain| ==> a.fat[chain[n]] == chain[n + 1] >= 2;
    FreeBelowSet(a'.fat, |a'.fat|, chain[n], 0);
    assert chain[..n + 1] == chain[..n] + [chain[n]];
    hide FreeBelow;
  }

  lemma FreedIsFreeing(a: Image, a': Image, chain: seq<nat>, n: nat)
    requires n <= |chain| && Freed(a, a', chain, n)
    ensures Freeing(a, a', chain)
    ensures n == |chain| ==> CountFree(a'.fat) == CountFree(a.fat) + n - Already(a.fat, chain, n)
                             && forall c | c in chain && c < |a.fat| :: a'.fat[c] == 0
    ensures n > 0 && chain[0] < |a.fat| ==> a'.fat[chain[0]] == 0
  {
  }

  /** A walk that comes back finds the cluster freed and ends there. */
  lemma FreedAgain(a: Image, a': Image, chain: seq<nat>, c: nat)
    requires Freed(a, a', chain, |chain|) && InTable(a.fat, chain) && c in chain
    ensures 2 <= c < |a'.fat| && a'.fat[c] == 0 && a'.(fat := a'.fat[c := 0]) == a'
  {
  }

  lemma SettledAt(v: Geometry, t: seq<Disk>, n: nat, a: Image)
    requires Settled(v, t, n, a) && n < |t|
    ensures Sound(v, |t[n]|) && ImageOf(v, t[n]) == a
  {
  }

  // --- scanning the directory -----------------------------------------------------------

  /** The usable entries from slot `k` on. */
  function Listing(dir: seq<Slot>, k: nat): seq<Entry>
    requires k <= |dir|
    decreases |dir| - k
  {
    if k == |dir| || Never(dir[k]) then []
    else if IsFile(dir[k]) then [EntryOf(dir[k])] + Listing(dir, k + 1)
    else Listing(dir, k + 1)
  }

  lemma ListingStep(dir: seq<Slot>, k: nat, entries: seq<Entry>)
    requires k < |dir|
    ensures Never(dir[k]) ==> Listing(dir, k) == []
    ensures !Never(dir[k]) ==>
              entries + Listing(dir, k) ==
                (if IsFile(dir[k]) then entries + [EntryOf(dir[k])] else entries) + Listing(dir, k + 1)
  {
  }

  lemma ListingEnd(dir: seq<Slot>, entries: seq<Entry>)
    ensures entries + Listing(dir, |dir|) == entries
  {
  }

  function FirstNamed(entries: seq<Entry>, name: seq<Byte>): Option<Entry> {
    if entries == [] then None
    else if SameName(entries[0].name, name) then Some(entries[0])
    else FirstNamed(entries[1..], name)
  }

  /** Searching the listing finds what searching the directory finds. */
  lemma {:induction false} ListingFinds(dir: seq<Slot>, name: seq<Byte>, k: nat)
    requires k <= |dir|
    ensures var p := Position(dir, name, k);
            FirstNamed(Listing(dir, k), name) == if p < |dir| then Some(EntryOf(dir[p])) else None
    decreases |dir| - k
  {
    if k < |dir| && !Never(dir[k]) {
      ListingFinds(dir, name, k + 1);
      assert IsFile(dir[k]) ==> Listing(dir, k)[1..] == Listing(dir, k + 1);
    }
  }

  /** A scan for `name` that has passed the slots below `n`. */
  ghost predicate Scanned(v: Geometry, dir: seq<Slot>, name: seq<Byte>, n: nat, firstEmpty: Option<(nat, nat)>,
                          k: nat) {
    && n <= |dir| && Position(dir, name, 0) == Position(dir, name, n)
    && match firstEmpty
       case None => FirstEmpty(dir, 0) == FirstEmpty(dir, n)
       case Some(place) => k < n && k == FirstEmpty(dir, 0) && place == (v.rootStart + k / 16, 32 * (k % 16))
  }

  function Place(v: Geometry, k: nat): (nat, nat) { (v.rootStart + k / 16, 32 * (k % 16)) }

  lemma ScanStarts(v: Geometry, dir: seq<Slot>, name: seq<Byte>)
    ensures Scanned(v, dir, name, 0, None, 0)
  {
  }

  lemma ScanStep(v: Geometry, dir: seq<Slot>, name: seq<Byte>, n: nat, firstEmpty: Option<(nat, nat)>, k: nat)
    requires n < |dir| && Scanned(v, dir, name, n, firstEmpty, k)
    ensures Place(v, n) == (v.rootStart + n / 16, 32 * (n % 16))
    ensures var free := Never(dir[n]) || Deleted(dir[n]);
            var noted := if free && firstEmpty.None? then Some(Place(v, n)) else firstEmpty;
            var k' := if free && firstEmpty.None? then n else k;
            && (Matches(dir[n], name) ==> SlotFor(dir, name, n) && Position(dir, name, 0) == n)
            && (Never(dir[n]) ==> noted == Some(Place(v, k')) && SlotFor(dir, name, k')
                                  && Position(dir, name, 0) == |dir|)
            && (!Never(dir[n]) && !Matches(dir[n], name) ==> Scanned(v, dir, name, n + 1, noted, k'))
  {
    ScanAt(v, dir, name, n);
  }

  lemma ScanAt(v: Geometry, dir: seq<Slot>, name: seq<Byte>, n: nat)
    requires n < |dir|
    ensures Never(dir[n]) || Deleted(dir[n]) ==> FirstEmpty(dir, n) == n
    ensures !Never(dir[n]) && !Deleted(dir[n]) ==> FirstEmpty(dir, n) == FirstEmpty(dir, n + 1)
    ensures Never(dir[n]) ==> Position(dir, name, n) == |dir|
    ensures Matches(dir[n], name) ==> Position(dir, name, n) == n
    ensures !Never(dir[n]) && !Matches(dir[n], name) ==> Position(dir, name, n) == Position(dir, name, n + 1)
  {
  }

  lemma ScanEnds(v: Geometry, dir: seq<Slot>, name: seq<Byte>, firstEmpty: Option<(nat, nat)>, k: nat)
    requires Scanned(v, dir, name, |dir|, firstEmpty, k)
    ensures Position(dir, name, 0) == |dir|
    ensures firstEmpty.None? ==> ChosenSlot(dir, name) == |dir|
    ensures firstEmpty.Some? ==> SlotFor(dir, name, k) && firstEmpty.value == Place(v, k)
  {
  }

  function SlotIn(buffer: seq<Byte>, at: nat): (r: Slot)
    requires at + 32 <= |buffer|
    ensures r == buffer[at..at + 32]
  {
    buffer[at..at + 32]
  }

  lemma SlotNumbers(k: nat, n: nat)
    requires k < 16 * n
    ensures k / 16 < n && 32 * (k % 16) + 32 <= 512 && 512 * (k / 16) + 32 * (k % 16) == 32 * k
  {
  }

  lemma SlotPlace(v: Geometry, size: nat, sector: nat, offset: nat, k: nat)
    requires Sound(v, size) && k < Slots(v) && sector == v.rootStart + k / 16 && offset == 32 * (k % 16)
    ensures 512 * sector + 512 <= size && offset + 32 <= 512 && 512 * sector + offset == SlotByte(v, k)
    ensures 512 * v.rootStart <= SlotByte(v, k)
  {
    Regions(v, size);
    SlotNumbers(k, RootSectors(v.rootEntries));
    hide Sound, Mounted, RootSectors;
  }

  /** Rewriting a slot within its sector. */
  lemma SlotStep(v: Geometry, d: Disk, sector: nat, offset: nat, slot: Slot, k: nat)
    requires Sound(v, |d|) && k < Slots(v) && sector == v.rootStart + k / 16 && offset == 32 * (k % 16)
    ensures 512 * sector + 512 <= |d| && offset + 32 <= 512
    ensures var d' := Splice(d, 512 * sector, Splice(d[512 * sector..512 * sector + 512], offset, slot));
            ImageOf(v, d') == WithSlot(ImageOf(v, d), k, slot) && (Mirrored(v, d) <==> Mirrored(v, d'))
  {
    SlotPlace(v, |d|, sector, offset, k);
    hide Sound, Splice, Mirrored, SlotByte;
    SpliceWithin(d, 512 * sector, 512, offset, slot);
    SlotWritten(v, d, k, slot);
    TablesKept(v, d, SlotByte(v, k), slot);
  }

  datatype Error = NoSuchFile | ChainLeftVolume | ChainLoops | ChainTooShort | VolumeFull | DirectoryFull | BadName

  // --- following the table, chain or not ----------------------------------------------------

  /** Where the table leads after `path`, which starts at `first`. */
  ghost function LeadsTo(fat: seq<nat>, first: nat, path: seq<nat>): nat
    requires InTable(fat, path)
  {
    if path == [] then first else fat[path[|path| - 1]]
  }

  /** The clusters met by following the table from `first`, all of them on the volume. */
  ghost predicate IsWalk(fat: seq<nat>, first: nat, path: seq<nat>) {
    InTable(fat, path) && forall i {:trigger Follows(fat, first, path, i)} | 0 <= i < |path| ::
      Follows(fat, first, path, i)
  }

  ghost predicate Follows(fat: seq<nat>, first: nat, path: seq<nat>, i: nat)
    requires i < |path| && InTable(fat, path)
  {
    path[i] == if i == 0 then first else fat[path[i - 1]]
  }

  /** The bytes along a walk that ends with the cluster the last byte is in. */
  ghost predicate ReadsAlong(a: Image, e: Entry, bytes: nat, path: seq<nat>, data: seq<Byte>) {
    && |a.fat| == |a.data| + 2 && IsWalk(a.fat, e.first, path) && |data| == e.size && data <= Gathered(a.data, path)
    && if e.size == 0 then path == [] else path != [] && (|path| - 1) * bytes < e.size
  }

  /** Why reading stops short after the clusters of `path`: the table leads off the volume, ends, or has led through as
      many clusters as there are. */
  ghost predicate Derails(a: Image, e: Entry, bytes: nat, path: seq<nat>, error: Error) {
    && IsWalk(a.fat, e.first, path) && |path| * bytes < e.size
    && var next := LeadsTo(a.fat, e.first, path);
    match error
    case ChainLeftVolume => !(2 <= next < |a.fat|) && (path == [] || next < END_OF_CHAIN)
    case ChainTooShort => path != [] && next >= END_OF_CHAIN
    case ChainLoops => |path| == |a.fat| - 2 && 2 <= next < |a.fat|
    case _ => false
  }

  /** Reading has come along `path`, all of it needed, and goes on at `cluster`. */
  ghost predicate Walking(a: Image, e: Entry, bytes: nat, path: seq<nat>, data: seq<Byte>, cluster: nat) {
    && |a.fat| == |a.data| + 2 && IsWalk(a.fat, e.first, path) && LeadsTo(a.fat, e.first, path) == cluster
    && data == Gathered(a.data, path) && |data| == |path| * bytes && |data| < e.size
    && (path != [] ==> cluster < END_OF_CHAIN)
  }

  lemma WalkStarts(a: Image, e: Entry, bytes: nat)
    requires Shaped(a, bytes)
    ensures if e.size == 0 then ReadsAlong(a, e, bytes, [], []) else Walking(a, e, bytes, [], [], e.first)
  {
  }

  /** Where reading may stop before it takes another cluster. */
  lemma WalkEnds(a: Image, e: Entry, bytes: nat, path: seq<nat>, data: seq<Byte>, cluster: nat)
    requires Walking(a, e, bytes, path, data, cluster)
    ensures !(2 <= cluster < |a.fat|) ==> Derails(a, e, bytes, path, ChainLeftVolume)
    ensures 2 <= cluster < |a.fat| && |path| == |a.fat| - 2 ==> Derails(a, e, bytes, path, ChainLoops)
  {
  }

  lemma WalkOn(a: Image, e: Entry, bytes: nat, path: seq<nat>, data: seq<Byte>, cluster: nat)
    requires Shaped(a, bytes) && Walking(a, e, bytes, path, data, cluster) && 2 <= cluster < |a.fat|
    ensures |a.data[cluster - 2]| == bytes
    ensures var wanted := if e.size - |data| < bytes then e.size - |data| else bytes;
            var data', path' := data + a.data[cluster - 2][..wanted], path + [cluster];
            if |data'| >= e.size then ReadsAlong(a, e, bytes, path', data')
            else if a.fat[cluster] >= END_OF_CHAIN then Derails(a, e, bytes, path', ChainTooShort)
            else Walking(a, e, bytes, path', data', a.fat[cluster])
  {
    var path' := path + [cluster];
    assert path'[..|path|] == path;
    GatheredLength(a.data, path', bytes);
    assert |path'| * bytes == |path| * bytes + bytes;
    assert a.data[cluster - 2][..bytes] == a.data[cluster - 2];
    WalkLonger(a.fat, e.first, path, cluster);
    hide IsWalk;
  }

  lemma WalkLonger(fat: seq<nat>, first: nat, path: seq<nat>, c: nat)
    requires IsWalk(fat, first, path) && LeadsTo(fat, first, path) == c && 2 <= c < |fat|
    ensures IsWalk(fat, first, path + [c]) && LeadsTo(fat, first, path + [c]) == fat[c]
  {
    var longer := path + [c];
    forall i | 0 <= i < |longer|
      ensures Follows(fat, first, longer, i)
    {
      assert i < |path| ==> Follows(fat, first, path, i);
    }
  }

  // --- reading a chain --------------------------------------------------------------------

  ghost function ReadBack(a: Image, e: Entry, chain: seq<nat>, bytes: nat): seq<Byte>
    requires Shaped(a, bytes) && EntryOk(a, e, chain, bytes)
  {
    GatheredLength(a.data, chain, bytes);
    Gathered(a.data, chain)[..e.size]
  }

  lemma WalkShorter(fat: seq<nat>, first: nat, path: seq<nat>)
    requires IsWalk(fat, first, path) && path != []
    ensures IsWalk(fat, first, path[..|path| - 1])
  {
    var rest := path[..|path| - 1];
    forall i | 0 <= i < |rest|
      ensures Follows(fat, first, rest, i)
    {
      assert Follows(fat, first, path, i);
    }
  }

  /** A walk in a table that has a chain goes along the chain. */
  lemma {:induction false} WalkIsChain(fat: seq<nat>, chain: seq<nat>, path: seq<nat>)
    requires IsChain(fat, chain) && |fat| <= 65526 && IsWalk(fat, chain[0], path)
    ensures |path| <= |chain| && path == chain[..|path|]
    decreases |path|
  {
    if path != [] {
      var n := |path| - 1;
      WalkShorter(fat, chain[0], path);
      WalkIsChain(fat, chain, path[..n]);
      assert Follows(fat, chain[0], path, n);
      if n > 0 { assert Linked(fat, chain, n - 1); }
      assert path == path[..n] + [path[n]];
    }
  }

  lemma ChainGoesOn(fat: seq<nat>, chain: seq<nat>, path: seq<nat>)
    requires IsChain(fat, chain) && |fat| <= 65526 && IsWalk(fat, chain[0], path) && |path| < |chain|
    ensures LeadsTo(fat, chain[0], path) == chain[|path|] && 2 <= chain[|path|] < |fat|
  {
    WalkIsChain(fat, chain, path);
    if path != [] { assert Linked(fat, chain, |path| - 1); }
  }

  lemma Shorter(n: nat, m: nat, bytes: nat)
    requires n * bytes < m * bytes
    ensures n < m
  {
    if m <= n { MulUp(m, n, bytes); }
  }

  lemma MulUp(m: nat, n: nat, bytes: nat)
    requires m <= n
    ensures m * bytes <= n * bytes
  {
    if m < n { MulStep(m, n, bytes); }
  }

  /** With a proper chain reading never derails, ... */
  lemma GoodNeverDerails(a: Image, e: Entry, chain: seq<nat>, bytes: nat, path: seq<nat>, error: Error)
    requires Shaped(a, bytes) && EntryOk(a, e, chain, bytes)
    ensures !Derails(a, e, bytes, path, error)
  {
    if Derails(a, e, bytes, path, error) {
      Shorter(|path|, |chain|, bytes);
      ChainGoesOn(a.fat, chain, path);
      ChainLength(a.fat, chain);
    }
  }

  /** ... and reads the bytes of the chain. */
  lemma GoodReadsBack(a: Image, e: Entry, chain: seq<nat>, bytes: nat, path: seq<nat>, data: seq<Byte>)
    requires Shaped(a, bytes) && EntryOk(a, e, chain, bytes) && ReadsAlong(a, e, bytes, path, data)
    ensures data == ReadBack(a, e, chain, bytes)
  {
    if e.size > 0 {
      WalkIsChain(a.fat, chain, path);
      GatheredPrefix(a.data, chain, |path|);
      hide IsChain, IsWalk, Gathered;
    }
  }

  lemma GoodChainReads(a: Image, e: Entry, chain: seq<nat>, bytes: nat)
    requires Shaped(a, bytes)
    ensures EntryOk(a, e, chain, bytes) ==>
              && (forall path, error :: !Derails(a, e, bytes, path, error))
              && (forall path, data | ReadsAlong(a, e, bytes, path, data) :: data == ReadBack(a, e, chain, bytes))
  {
    if EntryOk(a, e, chain, bytes) {
      forall path, error
        ensures !Derails(a, e, bytes, path, error)
      {
        GoodNeverDerails(a, e, chain, bytes, path, error);
      }
      forall path, data | ReadsAlong(a, e, bytes, path, data)
        ensures data == ReadBack(a, e, chain, bytes)
      {
        GoodReadsBack(a, e, chain, bytes, path, data);
      }
    }
  }

  lemma {:induction false} GatheredPrefix(data: seq<seq<Byte>>, chain: seq<nat>, n: nat)
    requires n <= |chain| && forall i | 0 <= i < |chain| :: 2 <= chain[i] < |data| + 2
    ensures Gathered(data, chain[..n]) <= Gathered(data, chain)
  {
    if n < |chain| {
      GatheredPrefix(data, chain[..|chain| - 1], n);
      assert chain[..|chain| - 1][..n] == chain[..n];
    } else {
      assert chain[..n] == chain;
    }
  }
}
