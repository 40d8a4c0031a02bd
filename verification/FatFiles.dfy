/** The FAT16 driver: reading files, and writing them one sector at a time. */
module FatFiles {
  import opened Basics
  import opened FatNames
  import opened FatVolume
  import opened FatChains
  import opened FatTrails
  import opened FatSteps
  import opened FatWrites

  datatype Result<+T> = Ok(value: T) | Err(error: Error)

  class Volume {
    const v: Geometry
    var disk: Disk
    ghost var trail: seq<Disk>

    constructor (v: Geometry, disk: Disk)
      ensures this.v == v && this.disk == disk && trail == []
    {
      this.v := v;
      this.disk := disk;
      trail := [];
    }

    ghost predicate Valid()
      reads this
    {
      Sound(v, |disk|)
    }

    ghost function Image(): Image
      reads this
      requires Valid()
    {
      ImageOf(v, disk)
    }

    method WriteSector(sector: nat, buffer: seq<Byte>)
      requires |buffer| == 512 && 512 * sector + 512 <= |disk|
      modifies this`disk, this`trail
      ensures disk == Splice(old(disk), 512 * sector, buffer) && trail == old(trail) + [disk]
    {
      disk := Splice(disk, 512 * sector, buffer);
      trail := trail + [disk];
    }

    /** Point `c` at `value` in every copy of the table, the one that is read first. */
    method SetFatEntry(c: nat, value: nat)
      requires Valid() && c < v.clusters + 2 && value < 0x10000
      modifies this`disk, this`trail
      ensures Valid() && |disk| == |old(disk)|
      ensures Image() == old(Image()).(fat := old(Image()).fat[c := value])
      ensures Extends(old(trail), trail) && |old(trail)| < |trail| && Settled(v, trail, |old(trail)|, Image())
      ensures Mirrored(v, old(disk)) ==> Mirrored(v, disk)
    {
      assert v.fatCount > 0;
      CopiesNone(v, disk, c, value);
      hide Splice, Table, Mounted, Mirrored, CopiesSet, Little, Settled, TableByte;
      SettledNone(v, trail, ImageOf(v, disk).(fat := ImageOf(v, disk).fat[c := value]));
      ghost var d0, t0 := disk, trail;
      ghost var a := ImageOf(v, d0).(fat := ImageOf(v, d0).fat[c := value]);
      var sector, within := v.fatStart + 2 * c / 512, 2 * c % 512;
      for copy := 0 to v.fatCount
        invariant |disk| == |d0| && Valid() && CopiesSet(v, d0, disk, copy, c, value)
        invariant Image() == if copy == 0 then ImageOf(v, d0) else a
        invariant Extends(t0, trail) && Settled(v, trail, |t0|, a) && |trail| == |t0| + copy
      {
        hide Sound;
        var target := sector + copy * v.sectorsPerFat;
        EntryPlace(v, |disk|, c, copy);
        EntryStep(v, d0, disk, c, value, copy, target);
        var buffer := disk[512 * target..512 * target + 512];
        buffer := Splice(buffer, within, Little(value));
        SettledOne(v, trail, |t0|, Splice(disk, 512 * target, buffer), a);
        WriteSector(target, buffer);
      }
      if Mirrored(v, d0) { AllCopiesSet(v, d0, disk, c, value); }
    }

    /** What comes after this cluster. */
    method NextCluster(c: nat) returns (next: nat)
      requires Valid() && c < v.clusters + 2
      ensures next == Image().fat[c]
    {
      EntryPlace(v, |disk|, c, 0) by { assert v.fatCount > 0; }
      var sector, within := v.fatStart + 2 * c / 512, 2 * c % 512;
      var buffer := disk[512 * sector..512 * sector + 512];
      next := U16(buffer, within);
    }

    /** The first free cluster from `after` on. */
    method FindFreeCluster(after: nat) returns (r: Result<nat>)
      requires Valid()
      ensures var a, from := Image(), if after < 2 then 2 else after;
              match r
              case Ok(c) => from <= c < |a.fat| && a.fat[c] == 0 && forall x | from <= x < c :: a.fat[x] != 0
              case Err(e) => e == VolumeFull && forall x | from <= x < |a.fat| :: a.fat[x] != 0
    {
      var c := if after < 2 then 2 else after;
      while c < v.clusters + 2
        invariant forall x | (if after < 2 then 2 else after) <= x < c && x < v.clusters + 2 :: Image().fat[x] != 0
      {
        var next := NextCluster(c);
        if next == 0 {
          return Ok(c);
        }
        c := c + 1;
      }
      return Err(VolumeFull);
    }

    /** How many clusters are unused. */
    method CountFreeClusters() returns (n: nat)
      requires Valid()
      ensures n == CountFree(Image().fat)
    {
      n := 0;
      for c := 2 to v.clusters + 2
        invariant n == FreeBelow(Image().fat, c)
      {
        var next := NextCluster(c);
        if next == 0 {
          n := n + 1;
        }
      }
    }

    /** Write one cluster that was free in `a0`. */
    method WriteCluster(c: nat, buffer: seq<Byte>, ghost a0: FatVolume.Image)
      requires Valid() && 2 <= c < v.clusters + 2 && |buffer| == ClusterBytes(v)
      requires OnlyFree(a0, Image()) && |a0.fat| == |a0.data| + 2 && c < |a0.fat| && a0.fat[c] == 0
      modifies this`disk, this`trail
      ensures Valid() && |disk| == |old(disk)| && OnlyFree(a0, Image())
      ensures Image() == old(Image()).(data := old(Image()).data[c - 2 := buffer])
      ensures Extends(old(trail), trail) && Unseen(v, trail, |old(trail)|, a0)
      ensures Mirrored(v, old(disk)) ==> Mirrored(v, disk)
    {
      hide Splice, Mounted, Mirrored, OnlyFree, Sound;
      ghost var a, t0 := Image(), trail;
      var first := v.dataStart + (c - 2) * v.sectorsPerCluster;
      ghost var before := a.data[c - 2];
      assert Mixed(before, buffer, 0) == before && a.data[c - 2 := before] == a.data;
      for i := 0 to v.sectorsPerCluster
        invariant Valid() && |disk| == |old(disk)| && OnlyFree(a0, Image())
        invariant Image() == a.(data := a.data[c - 2 := Mixed(before, buffer, 512 * i)])
        invariant Extends(t0, trail) && Unseen(v, trail, |t0|, a0)
        invariant Mirrored(v, old(disk)) ==> Mirrored(v, disk)
      {
        var part := buffer[512 * i..512 * i + 512];
        ghost var at, a1 := ClusterByte(v, c) + 512 * i, Image();
        assert 512 * (first + i) == at;
        ClusterWritten(v, disk, c, 512 * i, part);
        ClusterFits(v, |disk|, c);
        MixedStep(before, buffer, 512 * i);
        PastTables(v, disk, at, part);
        OnlyFreeData(a0, a1, c, Mixed(before, buffer, 512 * i + 512));
        assert a1.data[c - 2 := Mixed(before, buffer, 512 * i + 512)] ==
                 a.data[c - 2 := Mixed(before, buffer, 512 * i + 512)];
        UnseenOne(v, trail, |t0|, Splice(disk, at, part), a0);
        WriteSector(first + i, part);
      }
      assert Mixed(before, buffer, 512 * v.sectorsPerCluster) == buffer;
    }

    // --- writing a chain ---------------------------------------------------------------

    /** Claim the first `needed` free clusters. */
    method Reserve(needed: nat) returns (r: Result<seq<nat>>, ghost taken: seq<nat>)
      requires Valid() && needed > 0
      modifies this`disk, this`trail
      ensures Valid() && |disk| == |old(disk)| && (Mirrored(v, old(disk)) ==> Mirrored(v, disk))
      ensures Claimed(old(Image()), Image(), taken)
      ensures Extends(old(trail), trail) && Unseen(v, trail, |old(trail)|, old(Image()))
      ensures r.Ok? ==> r.value == taken && |taken| == needed
      ensures r.Err? ==> r.error == VolumeFull && |taken| < needed
      ensures r.Err? <==> CountFree(old(Image()).fat) < needed
    {
      hide Mirrored, Sound, Unseen, CountFree, FreeBelow, Claimed, ClaimedTo;
      ghost var a0, t0 := Image(), trail;
      var chain, searchFrom := [], 2;
      ClaimNone(a0);
      UnseenNone(v, trail, a0);
      while |chain| < needed
        invariant |chain| <= needed && 2 <= searchFrom && Valid() && |disk| == |old(disk)|
                  && (Mirrored(v, old(disk)) ==> Mirrored(v, disk))
        invariant ClaimedTo(a0, Image(), chain, searchFrom)
        invariant Extends(t0, trail) && Unseen(v, trail, |t0|, a0)
      {
        ghost var a1, t1 := Image(), trail;
        var found := FindFreeCluster(searchFrom);
        if found.Err? {
          ClaimAll(a0, a1, chain, searchFrom);
          return Err(VolumeFull), chain;
        }
        var c := found.value;
        ClaimOne(a0, a1, chain, searchFrom, c);
        SetFatEntry(c, 0xFFFF);
        ExtendsTwice(t0, t1, trail);
        UnseenGrows(v, t1, trail, |t0|, a0, Image());
        searchFrom := c + 1;
        chain := chain + [c];
      }
      ClaimedFacts(a0, Image(), chain, searchFrom);
      return Ok(chain), chain;
    }

    /** The part of the data that goes into one cluster. */
    method PieceOf(data: seq<Byte>, start: nat, bytes: nat) returns (buffer: seq<Byte>)
      requires start <= |data|
      ensures buffer == PieceFrom(data, start, bytes)
    {
      var end := if start + bytes < |data| then start + bytes else |data|;
      buffer := seq(bytes, _ => 0);
      if start < |data| {
        buffer := data[start..end] + buffer[end - start..];
      }
    }

    /** Write the data into the clusters of the chain. */
    method Fill(chain: seq<nat>, data: seq<Byte>, ghost a0: FatVolume.Image)
      requires Valid() && Claimed(a0, Image(), chain) && Shaped(a0, ClusterBytes(v))
               && |chain| == Needed(|data|, ClusterBytes(v))
      modifies this`disk, this`trail
      ensures Valid() && |disk| == |old(disk)| && (Mirrored(v, old(disk)) ==> Mirrored(v, disk))
      ensures Claimed(a0, Image(), chain) && Image().fat == old(Image()).fat
      ensures Holds(Image(), chain, data, ClusterBytes(v), |chain|)
      ensures Extends(old(trail), trail) && Unseen(v, trail, |old(trail)|, a0)
    {
      hide Mirrored, Sound, Unseen, OnlyFree, Piece, Needed, Claimed, Holds;
      ghost var t0 := trail;
      UnseenNone(v, trail, a0);
      ClaimedUnseen(a0, Image(), chain);
      var bytes := ClusterBytes(v);
      HoldsNone(Image(), chain, data, bytes);
      for index := 0 to |chain|
        invariant Valid() && |disk| == |old(disk)| && (Mirrored(v, old(disk)) ==> Mirrored(v, disk))
        invariant Claimed(a0, Image(), chain) && OnlyFree(a0, Image()) && Image().fat == old(Image()).fat
        invariant Holds(Image(), chain, data, bytes, index)
        invariant Extends(t0, trail) && Unseen(v, trail, |t0|, a0)
      {
        ghost var a1, t1 := Image(), trail;
        PieceStarts(|data|, bytes, index);
        var buffer := PieceOf(data, index * bytes, bytes);
        PieceIsFrom(data, index, bytes);
        ClaimedEntry(a0, a1, chain, index);
        WriteCluster(chain[index], buffer, a0);
        ClaimedData(a0, a1, Image(), chain);
        HoldsOne(a1, Image(), chain, data, bytes, index);
        ExtendsTwice(t0, t1, trail);
        UnseenMore(v, t1, trail, |t0|, a0);
      }
    }

    /** Link the clusters, last to first. */
    method LinkUp(chain: seq<nat>, ghost a0: FatVolume.Image)
      requires Valid() && Claimed(a0, Image(), chain) && chain != []
      modifies this`disk, this`trail
      ensures Valid() && |disk| == |old(disk)| && (Mirrored(v, old(disk)) ==> Mirrored(v, disk))
      ensures Claimed(a0, Image(), chain) && Image().data == old(Image()).data && IsChain(Image().fat, chain)
      ensures Extends(old(trail), trail) && Unseen(v, trail, |old(trail)|, a0)
    {
      assert v.clusters < 65525;
      hide Mirrored, Sound, Unseen, OnlyFree, Claimed, Linked;
      ghost var t0 := trail;
      LinkNone(a0, Image(), chain);
      UnseenNone(v, trail, a0);
      var index := |chain|;
      while index > 0
        invariant 0 <= index <= |chain| && Valid() && |disk| == |old(disk)|
                  && (Mirrored(v, old(disk)) ==> Mirrored(v, disk))
        invariant Claimed(a0, Image(), chain) && Image().data == old(Image()).data
        invariant LinkedFrom(Image().fat, chain, index)
        invariant Extends(t0, trail) && Unseen(v, trail, |t0|, a0)
      {
        index := index - 1;
        ghost var a1, t1 := Image(), trail;
        ClaimedEntry(a0, a1, chain, index);
        var value := if index + 1 == |chain| then 0xFFFF else chain[index + 1];
        LinkOne(a0, a1, chain, index, value);
        SetFatEntry(chain[index], value);
        ExtendsTwice(t0, t1, trail);
        UnseenGrows(v, t1, trail, |t0|, a0, Image());
      }
      ClaimedChain(a0, Image(), chain);
    }

    /** Write data into a chain of clusters nobody uses. */
    method WriteChain(data: seq<Byte>) returns (r: Result<nat>, ghost chain: seq<nat>)
      requires Valid() && Shaped(Image(), ClusterBytes(v))
      modifies this`disk, this`trail
      ensures Valid() && |disk| == |old(disk)| && (Mirrored(v, old(disk)) ==> Mirrored(v, disk))
      ensures Claimed(old(Image()), Image(), chain)
      ensures Extends(old(trail), trail) && Unseen(v, trail, |old(trail)|, old(Image()))
      ensures r.Ok? ==> && |chain| == Needed(|data|, ClusterBytes(v)) && r.value == chain[0]
                        && IsChain(Image().fat, chain) && Holds(Image(), chain, data, ClusterBytes(v), |chain|)
      ensures r.Err? ==> r.error == VolumeFull
      ensures r.Err? <==> CountFree(old(Image()).fat) < Needed(|data|, ClusterBytes(v))
    {
      hide Mirrored, Sound, Unseen, OnlyFree, Claimed, Holds, IsChain, Needed, CountFree, Shaped;
      ghost var a0, t0 := Image(), trail;
      assert ClusterBytes(v) > 0 by { ShapedBytes(a0, ClusterBytes(v)); }
      var reserved, taken := Reserve(Needed(|data|, ClusterBytes(v)));
      if reserved.Err? {
        return Err(reserved.error), taken;
      }
      chain := taken;
      var list := reserved.value;
      ghost var t1 := trail;
      Fill(list, data, a0);
      ghost var a2, t2 := Image(), trail;
      ExtendsTwice(t0, t1, t2);
      UnseenMore(v, t1, t2, |t0|, a0);
      LinkUp(list, a0);
      HoldsStill(a2, Image(), chain, data, ClusterBytes(v), |chain|);
      ExtendsTwice(t0, t2, trail);
      UnseenMore(v, t2, trail, |t0|, a0);
      return Ok(list[0]), chain;
    }

    /** Give the clusters met from `first` on back.  A chain that loops is not reported: the walk comes back to a
        cluster it has freed itself, and ends there. */
    method FreeChain(first: nat, ghost tour: seq<nat>) returns (r: Result<()>)
      requires Valid() && IsTour(Image().fat, first, tour) && |Image().fat| <= 65526
      modifies this`disk, this`trail
      ensures Valid() && |disk| == |old(disk)| && (Mirrored(v, old(disk)) ==> Mirrored(v, disk))
      ensures r.Ok? && Freeing(old(Image()), Image(), tour)
              && forall c | c in tour && c < |Image().fat| :: Image().fat[c] == 0
      ensures CountFree(Image().fat) == CountFree(old(Image()).fat) + |tour| - Already(old(Image()).fat, tour, |tour|)
      ensures Extends(old(trail), trail) && AllFreeing(v, trail, |old(trail)|, old(Image()), tour)
      ensures tour == [] ==> trail == old(trail)
      ensures tour != [] ==> |old(trail)| < |trail| && ImageOf(v, trail[|old(trail)|]).fat[first] == 0
    {
      hide Mirrored, Sound, AllFreeing, Freed, CountFree, Already;
      ghost var a, t0 := Image(), trail;
      var cluster: nat, visited := first, 0;
      ghost var n := 0;
      ChainLength(a.fat, tour);
      FreedNone(a, tour);
      FreeingNone(v, trail, a, tour);
      while cluster >= 2 && cluster < END_OF_CHAIN
        invariant 0 <= n <= |tour| && Valid() && |disk| == |old(disk)|
                  && (Mirrored(v, old(disk)) ==> Mirrored(v, disk))
        invariant n < |tour| ==> cluster == tour[n]
        invariant n == |tour| && Names(cluster) ==> cluster in tour
        invariant Names(cluster) ==> visited == n
        invariant Freed(a, Image(), tour, n)
        invariant Extends(t0, trail) && AllFreeing(v, trail, |t0|, a, tour)
        invariant n == 0 ==> trail == t0
        invariant n > 0 ==> |t0| < |trail| && Sound(v, |trail[|t0|]|) && ImageOf(v, trail[|t0|]).fat[first] == 0
        decreases |tour| - n, if Names(cluster) then 1 else 0
      {
        if visited > v.clusters {
          return Err(ChainLoops);
        }
        ghost var a1, t1, back := Image(), trail, n == |tour|;
        if back { FreedAgain(a, a1, tour, cluster); } else { FreedOne(a, a1, tour, n); }
        visited := visited + 1;
        var next := NextCluster(cluster);
        SetFatEntry(cluster, 0);
        cluster := next;
        n := if back then n else n + 1;
        FreedIsFreeing(a, Image(), tour, n);
        ExtendsTwice(t0, t1, trail);
        FreeingGrows(v, t1, trail, |t0|, a, Image(), tour);
        assert n > 1 || back ==> trail[|t0|] == trail[..|t1|][|t0|] == t1[|t0|];
        if n == 1 && !back { SettledAt(v, trail, |t1|, Image()); }
      }
      FreedIsFreeing(a, Image(), tour, n);
      r := Ok(());
    }

    // --- the directory --------------------------------------------------------------------

    /** Slot `s` of directory sector `index`. */
    method ReadSlot(index: nat, s: nat) returns (slot: Slot)
      requires Valid() && s < 16 && index < RootSectors(v.rootEntries)
      ensures 16 * index + s < |Image().dir| && slot == Image().dir[16 * index + s]
    {
      Regions(v, |disk|);
      var sector := v.rootStart + index;
      var buffer: seq<Byte> := disk[512 * sector..512 * sector + 512];
      slot := SlotIn(buffer, 32 * s);
      assert SlotByte(v, 16 * index + s) == 512 * sector + 32 * s;
    }

    /** Every usable entry in the root directory. */
    method List() returns (entries: seq<Entry>)
      requires Valid()
      ensures entries == Listing(Image().dir, 0)
    {
      hide Sound, Listing;
      entries := [];
      for index := 0 to RootSectors(v.rootEntries)
        invariant entries + Listing(Image().dir, 16 * index) == Listing(Image().dir, 0)
      {
        for s := 0 to 16
          invariant entries + Listing(Image().dir, 16 * index + s) == Listing(Image().dir, 0)
        {
          var slot := ReadSlot(index, s);
          ListingStep(Image().dir, 16 * index + s, entries);
          if Never(slot) {
            return;
          }
          if !Deleted(slot) && Ordinary(slot) {
            entries := entries + [EntryOf(slot)];
          }
        }
      }
      ListingEnd(Image().dir, entries);
    }

    method Find(name: seq<Byte>) returns (r: Result<Entry>)
      requires Valid()
      ensures var dir := Image().dir; var k := Position(dir, name, 0);
              r == if k < |dir| then Ok(EntryOf(dir[k])) else Err(NoSuchFile)
    {
      hide Sound, Listing;
      var entries := List();
      ListingFinds(Image().dir, name, 0);
      for i := 0 to |entries|
        invariant FirstNamed(entries, name) == FirstNamed(entries[i..], name)
      {
        if SameName(entries[i].name, name) {
          return Ok(entries[i]);
        }
        assert entries[i..][1..] == entries[i + 1..];
      }
      return Err(NoSuchFile);
    }

    /** A slot for `name`: its own if it has one, or else the first free one. */
    method DirectorySlot(name: seq<Byte>) returns (r: Result<(nat, nat, Option<Entry>)>)
      requires Valid()
      ensures var dir := Image().dir; var k := ChosenSlot(dir, name);
              if k == |dir| then r == Err(DirectoryFull)
              else r == Ok((v.rootStart + k / 16, 32 * (k % 16),
                            if Position(dir, name, 0) < |dir| then Some(EntryOf(dir[k])) else None))
    {
      hide Sound, Scanned, ChosenSlot, EntryOf, SameName;
      var firstEmpty: Option<(nat, nat)> := None;
      ghost var k: nat := 0;
      ghost var dir := Image().dir;
      ScanStarts(v, dir, name);
      for index := 0 to RootSectors(v.rootEntries)
        invariant Scanned(v, dir, name, 16 * index, firstEmpty, k)
      {
        for s := 0 to 16
          invariant Scanned(v, dir, name, 16 * index + s, firstEmpty, k)
        {
          ghost var at := 16 * index + s;
          var slot := ReadSlot(index, s);
          ScanStep(v, dir, name, at, firstEmpty, k);
          if Never(slot) || Deleted(slot) {
            if firstEmpty.None? {
              firstEmpty, k := Some((v.rootStart + index, 32 * s)), at;
            }
            if Never(slot) {
              return Ok((firstEmpty.value.0, firstEmpty.value.1, None));
            }
          } else if Ordinary(slot) && SameName(EntryOf(slot).name, name) {
            return Ok((v.rootStart + index, 32 * s, Some(EntryOf(slot))));
          }
        }
      }
      ScanEnds(v, dir, name, firstEmpty, k);
      if firstEmpty.None? {
        return Err(DirectoryFull);
      }
      return Ok((firstEmpty.value.0, firstEmpty.value.1, None));
    }

    /** Rewrite slot `k` of the directory: one sector. */
    method WriteSlot(sector: nat, offset: nat, slot: Slot, ghost k: nat)
      requires Valid() && k < |Image().dir| && sector == v.rootStart + k / 16 && offset == 32 * (k % 16)
      modifies this`disk, this`trail
      ensures Valid() && |disk| == |old(disk)| && (Mirrored(v, old(disk)) ==> Mirrored(v, disk))
      ensures Image() == WithSlot(old(Image()), k, slot) && trail == old(trail) + [disk]
    {
      hide Sound, Splice, Mirrored;
      SlotStep(v, disk, sector, offset, slot, k);
      var buffer := disk[512 * sector..512 * sector + 512];
      buffer := Splice(buffer, offset, slot);
      WriteSector(sector, buffer);
    }

    method ReadCluster(c: nat) returns (buffer: seq<Byte>)
      requires Valid() && 2 <= c < v.clusters + 2
      ensures buffer == Image().data[c - 2] && |buffer| == ClusterBytes(v)
    {
      ClusterFits(v, |disk|, c);
      var first := v.dataStart + (c - 2) * v.sectorsPerCluster;
      buffer := disk[512 * first..512 * first + ClusterBytes(v)];
      assert buffer == ClusterAt(v, disk, c);
    }

    /** Read a whole file by walking its chain. */
    method ReadFile(entry: Entry, ghost chain: seq<nat>) returns (r: Result<seq<Byte>>)
      requires Valid()
      ensures r.Ok? ==> exists path :: ReadsAlong(Image(), entry, ClusterBytes(v), path, r.value)
      ensures r.Err? ==> exists path :: Derails(Image(), entry, ClusterBytes(v), path, r.error)
      ensures var a, bytes := Image(), ClusterBytes(v);
              Shaped(a, bytes) && EntryOk(a, entry, chain, bytes) ==> r == Ok(ReadBack(a, entry, chain, bytes))
    {
      hide Sound, EntryOk, Shaped, ReadBack, ImageOf, ReadsAlong, Derails;
      ImageShaped(v, disk);
      GoodChainReads(Image(), entry, chain, ClusterBytes(v));
      ghost var path;
      r, path := FollowFile(entry);
    }

    /** Follow the table from the first cluster until there are enough bytes, and say along which clusters. */
    method FollowFile(entry: Entry) returns (r: Result<seq<Byte>>, ghost path: seq<nat>)
      requires Valid()
      ensures if r.Ok? then ReadsAlong(Image(), entry, ClusterBytes(v), path, r.value)
              else Derails(Image(), entry, ClusterBytes(v), path, r.error)
    {
      ImageShaped(v, disk);
      ShapedBytes(Image(), ClusterBytes(v));
      hide Sound, Shaped, ImageOf, ReadsAlong, Derails, Walking, Gathered, ClusterBytes;
      ghost var a, bytes := Image(), ClusterBytes(v);
      path := [];
      WalkStarts(a, entry, bytes);
      if entry.size == 0 {
        return Ok([]), path;
      }
      var data: seq<Byte>, cluster: nat, visited: nat := [], entry.first, 0;
      while |data| < entry.size
        invariant |data| < entry.size && |path| == visited <= v.clusters
                  && Walking(a, entry, bytes, path, data, cluster)
        decreases entry.size - |data|
      {
        WalkEnds(a, entry, bytes, path, data, cluster);
        if cluster < 2 || cluster >= v.clusters + 2 {
          return Err(ChainLeftVolume), path;
        }
        visited := visited + 1;
        if visited > v.clusters {
          return Err(ChainLoops), path;
        }
        WalkOn(a, entry, bytes, path, data, cluster);
        var buffer := ReadCluster(cluster);
        var wanted := if entry.size - |data| < |buffer| then entry.size - |data| else |buffer|;
        data := data + buffer[..wanted];
        path := path + [cluster];
        if |data| >= entry.size {
          break;
        }
        cluster := NextCluster(cluster);
        if cluster >= END_OF_CHAIN {
          return Err(ChainTooShort), path;
        }
      }
      return Ok(data), path;
    }

    // --- creating and removing -------------------------------------------------------------

    /** Write a file's data, if there is any. */
    method StoreData(data: seq<Byte>) returns (r: Result<nat>, ghost chain: seq<nat>)
      requires Valid()
      modifies this`disk, this`trail
      ensures Valid() && |disk| == |old(disk)| && (Mirrored(v, old(disk)) ==> Mirrored(v, disk))
      ensures Extends(old(trail), trail) && Unseen(v, trail, |old(trail)|, old(Image()))
              && OnlyFree(old(Image()), Image())
      ensures ClusterBytes(v) > 0
      ensures r.Ok? ==> Written(old(Image()), Image(), chain, data, ClusterBytes(v)) && r.value == First(chain)
      ensures r.Err? ==> r.error == VolumeFull
      ensures r.Err? <==> CountFree(old(Image()).fat) < Wanted(data, ClusterBytes(v))
    {
      hide Sound, Mirrored, Unseen, Claimed, IsChain, Holds, CountFree, Needed;
      ImageShaped(v, disk);
      ghost var a0 := Image();
      if data == [] {
        WrittenNothing(a0, ClusterBytes(v));
        UnseenNone(v, trail, a0);
        return Ok(0), [];
      }
      r, chain := WriteChain(data);
      ClaimedUnseen(a0, Image(), chain);
    }

    /** Free the chain of the file being replaced, if it has one. */
    method ReleaseOld(existing: Option<Entry>, ghost a0: FatVolume.Image, ghost chains: map<nat, seq<nat>>,
                      ghost k: nat, ghost chain: seq<nat>)
      requires Valid() && WellFormed(a0, chains, ClusterBytes(v)) && Claimed(a0, Image(), chain)
      requires k < |a0.dir| && existing == if k in chains then Some(EntryOf(a0.dir[k])) else None
      modifies this`disk, this`trail
      ensures Valid() && |disk| == |old(disk)| && (Mirrored(v, old(disk)) ==> Mirrored(v, disk))
      ensures Extends(old(trail), trail) && Freeing(old(Image()), Image(), OldChain(chains, k))
      ensures CountFree(Image().fat) == CountFree(old(Image()).fat) + |OldChain(chains, k)|
      ensures OldChain(chains, k) == [] ==> trail == old(trail)
      ensures OldChain(chains, k) != [] ==> Broken(v, trail, |old(trail)|)
      ensures AllFreeing(v, trail, |old(trail)|, old(Image()), OldChain(chains, k))
    {
      hide Sound, Mirrored, WellFormed, Broken, AllFreeing, Freeing, Claimed, IsChain, CountFree;
      ghost var a1, t1 := Image(), trail;
      OldEntry(a0, chains, ClusterBytes(v), k);
      ImageShaped(v, disk);
      FreeingSelf(a1, OldChain(chains, k));
      FreeingNone(v, trail, a1, OldChain(chains, k));
      if existing.Some? && existing.value.first >= 2 {
        OldStillThere(a0, chains, ClusterBytes(v), a1, chain, k);
        OldInTable(a0, a1, chain, chains[k]);
        ChainIsTour(a1.fat, chains[k]);
        var freed := FreeChain(existing.value.first, chains[k]);
        OldEntryDangles(v, trail, |t1|, a1, k, chains[k]);
      }
    }

    /** Create or replace a file.

        The other files read alike at every step.  The volume as a whole is in order at every step, and the file itself
        either as it was or complete, exactly when there is no old chain to free. */
    method Create(name: seq<Byte>, data: seq<Byte>, ghost chains: map<nat, seq<nat>>)
      returns (r: Result<()>, ghost k: nat, ghost chain: seq<nat>)
      requires Valid() && WellFormed(Image(), chains, ClusterBytes(v))
      modifies this`disk, this`trail
      ensures Valid() && |disk| == |old(disk)| && (Mirrored(v, old(disk)) ==> Mirrored(v, disk))
      ensures Extends(old(trail), trail) && ClusterBytes(v) > 0
      ensures r == if !Fits83(name) then Err(BadName)
                   else if !HasSlot(old(Image()).dir, name) then Err(DirectoryFull)
                   else if CountFree(old(Image()).fat) < Wanted(data, ClusterBytes(v)) then Err(VolumeFull)
                   else Ok(())
      ensures r.Err? ==> && OnlyFree(old(Image()), Image())
                         && SameFiles(v, trail, |old(trail)|, |trail|, old(Image()), chains, ClusterBytes(v))
      ensures r.Ok? ==> && Created(old(Image()), chains, ClusterBytes(v), name, data, k, chain, Image())
                        && |old(trail)| < |trail| && trail[|trail| - 1] == disk
                           && k == ChosenSlot(old(Image()).dir, name)
      ensures r.Ok? && OldChain(chains, k) == [] ==>
                SameFiles(v, trail, |old(trail)|, |trail| - 1, old(Image()), chains, ClusterBytes(v))
      ensures r.Ok? && OldChain(chains, k) != [] ==> Broken(v, trail, |old(trail)|)
      ensures r.Ok? && Storable(name) ==> (AlwaysConsistent(v, trail, |old(trail)|) <==> OldChain(chains, k) == [])
      ensures r.Ok? ==> OthersReadAlike(v, trail, |old(trail)|, old(Image()), chains, k)
    {
      hide AlwaysConsistent, Storable, Short, AllFreeing, OthersReadAlike;
      hide Sound, Mirrored, WellFormed, Created, SameFiles, Broken, Unseen, Freeing, Claimed,
           OnlyFree, CountFree, Wanted, Fits83, Position, FirstEmpty, ChosenSlot, Written, OldChain, HasSlot, Shaped,
             ImageOf, EntryOf, NewSlot, First;
      ghost var a0, t0, bytes := Image(), trail, ClusterBytes(v);
      ImageShaped(v, disk);
      NothingWritten(v, trail, a0, chains);
      k, chain := 0, [];
      if !Fits83(name) {
        return Err(BadName), k, chain;
      }
      var place := DirectorySlot(name);
      k := ChosenSlot(a0.dir, name);
      if place.Err? {
        NoSlot(a0.dir, name);
        return Err(place.error), k, chain;
      }
      SlotTaken(a0, chains, bytes, name, k);
      var sector, offset, existing := place.value.0, place.value.1, place.value.2;
      var stored;
      stored, chain := StoreData(data);
      UnseenIsSafe(v, trail, |t0|, a0, chains);
      if stored.Err? {
        return Err(stored.error), k, chain;
      }
      ghost var a1, t1 := Image(), trail;
      WrittenClaims(a0, a1, chain, data, bytes);
      ImageShaped(v, disk);
      ReleaseOld(existing, a0, chains, k, chain);
      ghost var a2, t2 := Image(), trail;
      ExtendsTwice(t0, t1, t2);
      CreationAddsUp(a0, chains, bytes, name, data, k, chain, a1, a2);
      FitsIsShort(name);
      var slot := BuildSlot(name, stored.value, |data| % 0x1_0000_0000);
      WriteSlot(sector, offset, slot, k);
      LastStep(v, t0, t1, t2, disk, a0, chains);
      OthersAllAlong(v, t0, t1, t2, disk, a0, chains, name, data, k, chain, a1);
      if Storable(name) { AtomicUnlessReplacing(v, trail, |t0|, a0, chains, name, data, k, chain); }
      r := Ok(());
    }

    /** Delete a file: mark its slot dead, then release its clusters. */
    method Remove(name: seq<Byte>, ghost chains: map<nat, seq<nat>>) returns (r: Result<()>, ghost k: nat,
                                                                              ghost gone: FatVolume.Image)
      requires Valid() && WellFormed(Image(), chains, ClusterBytes(v))
      modifies this`disk, this`trail
      ensures Valid() && |disk| == |old(disk)| && (Mirrored(v, old(disk)) ==> Mirrored(v, disk))
      ensures Extends(old(trail), trail)
      ensures k == Position(old(Image()).dir, name, 0)
      ensures r == if k == |old(Image()).dir| then Err(NoSuchFile) else Ok(())
      ensures r.Err? ==> disk == old(disk) && trail == old(trail)
      ensures r.Ok? ==> && gone == WithSlot(old(Image()), k, DeadSlot(old(Image()).dir[k]))
                        && WellFormed(gone, chains - {k}, ClusterBytes(v))
                           && WellFormed(Image(), chains - {k}, ClusterBytes(v))
                        && WithoutName(old(Image()), chains, ClusterBytes(v), name, gone, chains - {k})
                        && SameFiles(v, trail, |old(trail)|, |trail|, gone, chains - {k}, ClusterBytes(v))
                        && (forall n ::
                              Lookup(Image(), chains - {k}, ClusterBytes(v), n)
                              == Lookup(gone, chains - {k}, ClusterBytes(v), n))
                        && CountFree(Image().fat) == CountFree(old(Image()).fat) + |OldChain(chains, k)|
                        && |old(trail)| < |trail|
    {
      hide Sound, Mirrored, WellFormed, SameFiles, AllFreeing, Freeing, IsChain, CountFree, Position, FirstEmpty,
           OldChain, Shaped, Lookup,
           ImageOf, EntryOf, Apart, RootSectors, WithoutName;
      ghost var a0, t0, bytes := Image(), trail, ClusterBytes(v);
      gone := a0;
      var place := DirectorySlot(name);
      k := ChosenSlot(a0.dir, name);
      if place.Err? || place.value.2.None? {
        return Err(NoSuchFile), Position(a0.dir, name, 0), gone;
      }
      var sector, offset, entry := place.value.0, place.value.1, place.value.2.value;
      RemovalStarts(a0, chains, bytes, name, k);
      assert k / 16 < RootSectors(v.rootEntries) by { SlotNumbers(k, RootSectors(v.rootEntries)); }
      var slot := ReadSlot(sector - v.rootStart, offset / 32);
      WriteSlot(sector, offset, DeadSlot(slot), k);
      gone := Image();
      ghost var d1, t1 := disk, trail;
      OldEntry(a0, chains, bytes, k);
      ImageShaped(v, disk);
      FreeingSelf(gone, OldChain(chains, k));
      FreeingNone(v, trail, gone, OldChain(chains, k));
      if entry.first >= 2 {
        OldIsChain(a0, chains, bytes, k);
        ChainIsTour(gone.fat, OldChain(chains, k));
        var freed := FreeChain(entry.first, OldChain(chains, k));
      }
      ImageShaped(v, disk);
      RemovalSteps(v, t0, d1, trail, gone, chains - {k}, OldChain(chains, k), Image());
      r := Ok(());
    }

    /** Store a file and read it back by name. */
    method CreateAndRead(name: seq<Byte>, data: seq<Byte>, ghost chains: map<nat, seq<nat>>)
      returns (r: Result<seq<Byte>>, ghost chains': map<nat, seq<nat>>)
      requires Valid() && WellFormed(Image(), chains, ClusterBytes(v)) && Storable(name)
      modifies this`disk, this`trail
      ensures Valid()
      ensures r.Ok? ==> r.value == data && WellFormed(Image(), chains', ClusterBytes(v))
      ensures r.Ok? ==> forall other | !SameName(other, name) ::
                Lookup(Image(), chains', ClusterBytes(v), other) == Lookup(old(Image()), chains, ClusterBytes(v), other)
      ensures r.Err? <==> !HasSlot(old(Image()).dir, name)
                          || CountFree(old(Image()).fat) < Wanted(data, ClusterBytes(v))
      ensures r.Err? ==> r.error in {DirectoryFull, VolumeFull} && chains' == chains && OnlyFree(old(Image()), Image())
    {
      hide Sound, Mirrored, WellFormed, Created, SameFiles, Broken, AlwaysConsistent, Lookup, OldChain, ImageOf,
           Position, HasSlot, EntryOk, ReadBack, Shaped;
      ghost var a0, bytes := Image(), ClusterBytes(v);
      var made, k, chain := Create(name, data, chains);
      if made.Err? {
        return Err(made.error), chains;
      }
      chains' := chains[k := chain];
      CreatedIsStored(a0, chains, bytes, name, data, k, chain, Image());
      StoredEntry(Image(), chains', bytes, name, data);
      var found := Find(name);
      r := ReadFile(found.value, chains'[Position(Image().dir, name, 0)]);
    }
  }
}
