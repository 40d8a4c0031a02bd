/** A FAT16 volume as bytes on a disk, and the table, directory and clusters those bytes stand for. */
module FatVolume {
  import opened Basics
  import opened FatNames

  type Disk = seq<Byte>

  type Slot = s: seq<Byte> | |s| == 32 witness seq(32, _ => 0)

  /** Where everything is, in sectors of 512 bytes. */
  datatype Geometry = Geometry(sectorsPerCluster: nat, fatCount: nat, fatStart: nat, sectorsPerFat: nat,
                               rootStart: nat, rootEntries: nat, dataStart: nat, clusters: nat)

  function RootSectors(entries: nat): nat { (entries * 32 + 511) / 512 }

  function Slots(v: Geometry): nat { 16 * RootSectors(v.rootEntries) }

  function ClusterBytes(v: Geometry): nat { v.sectorsPerCluster * 512 }

  /** What mounting a volume establishes. */
  predicate Mounted(v: Geometry) {
    && 1 <= v.sectorsPerCluster <= 128 && v.fatCount > 0 && v.fatStart > 0 && v.sectorsPerFat > 0
    && v.rootStart == v.fatStart + v.fatCount * v.sectorsPerFat
    && v.dataStart == v.rootStart + RootSectors(v.rootEntries)
    && 4085 <= v.clusters < 65525
  }

  /** A mounted volume whose table has an entry for every cluster and which the disk holds. */
  predicate Sound(v: Geometry, size: nat) {
    && Mounted(v)
    && v.clusters + 2 <= v.sectorsPerFat * 256
    && 512 * (v.dataStart + v.clusters * v.sectorsPerCluster) <= size
  }

  // --- bytes ------------------------------------------------------------------------

  function Splice(d: seq<Byte>, at: nat, b: seq<Byte>): (r: seq<Byte>)
    requires at + |b| <= |d|
    ensures |r| == |d|
  {
    d[..at] + b + d[at + |b|..]
  }

  lemma SpliceElsewhere(d: Disk, at: nat, b: seq<Byte>, from: nat, to: nat)
    requires at + |b| <= |d| && from <= to <= |d| && (to <= at || at + |b| <= from)
    ensures Splice(d, at, b)[from..to] == d[from..to]
  {
  }

  lemma SpliceHere(d: Disk, at: nat, b: seq<Byte>)
    requires at + |b| <= |d|
    ensures Splice(d, at, b)[at..at + |b|] == b
  {
  }

  /** Reading a stretch, changing part of it and writing it back changes that part. */
  lemma SpliceWithin(d: Disk, at: nat, n: nat, within: nat, b: seq<Byte>)
    requires at + n <= |d| && within + |b| <= n
    ensures Splice(d, at, Splice(d[at..at + n], within, b)) == Splice(d, at + within, b)
  {
  }

  function Little(v: nat): (r: seq<Byte>)
    requires v < 0x10000
    ensures |r| == 2
  {
    [v % 256, v / 256]
  }

  function U16(s: seq<Byte>, at: nat): (r: nat)
    requires at + 2 <= |s|
    ensures r < 0x10000
  {
    var low: int, high: int := s[at], s[at + 1];
    low + 256 * high
  }

  function Little32(v: nat): (r: seq<Byte>)
    requires v < 0x1_0000_0000
    ensures |r| == 4
  {
    Little(v % 0x10000) + Little(v / 0x10000)
  }

  function U32(s: seq<Byte>, at: nat): (r: nat)
    requires at + 4 <= |s|
  {
    U16(s, at) + 0x10000 * U16(s, at + 2)
  }

  // --- what the bytes stand for ----------------------------------------------------------

  function FatByte(v: Geometry, c: nat): nat { 512 * v.fatStart + 2 * c }

  function SlotByte(v: Geometry, k: nat): nat { 512 * v.rootStart + 32 * k }

  function ClusterByte(v: Geometry, c: nat): nat
    requires c >= 2
  {
    512 * (v.dataStart + (c - 2) * v.sectorsPerCluster)
  }

  /** A volume's contents: the first copy of the table, the directory, and cluster `c` at `data[c - 2]`. */
  datatype Image = Image(fat: seq<nat>, dir: seq<Slot>, data: seq<seq<Byte>>)

  lemma Regions(v: Geometry, size: nat)
    requires Sound(v, size)
    ensures FatByte(v, v.clusters + 2) <= 512 * (v.fatStart + v.sectorsPerFat) <= 512 * v.rootStart
    ensures SlotByte(v, Slots(v)) == 512 * v.dataStart <= size
  {
    MulStep(0, v.fatCount, v.sectorsPerFat);
    hide RootSectors;
  }

  lemma MulStep(a: nat, b: nat, n: nat)
    requires a < b
    ensures a * n + n <= b * n
  {
    assert (b - a - 1) * n >= 0;
    assert b * n == a * n + n + (b - a - 1) * n;
  }

  lemma ClusterFits(v: Geometry, size: nat, c: nat)
    requires Sound(v, size) && 2 <= c < v.clusters + 2
    ensures 512 * v.dataStart <= ClusterByte(v, c) && ClusterByte(v, c) + ClusterBytes(v) <= size
  {
    hide Mounted;
    MulStep(c - 2, v.clusters, v.sectorsPerCluster);
  }

  lemma ClustersApart(v: Geometry, c: nat, e: nat)
    requires 2 <= c < e
    ensures ClusterByte(v, c) + ClusterBytes(v) <= ClusterByte(v, e)
  {
    MulStep(c - 2, e - 2, v.sectorsPerCluster);
  }

  function FatAt(v: Geometry, d: Disk, c: nat): (r: nat)
    requires Sound(v, |d|) && c < v.clusters + 2
    ensures r < 0x10000
  {
    Regions(v, |d|);
    U16(d, FatByte(v, c))
  }

  function SlotAt(v: Geometry, d: Disk, k: nat): Slot
    requires Sound(v, |d|) && k < Slots(v)
  {
    Regions(v, |d|);
    d[SlotByte(v, k)..SlotByte(v, k) + 32]
  }

  function ClusterAt(v: Geometry, d: Disk, c: nat): (r: seq<Byte>)
    requires Sound(v, |d|) && 2 <= c < v.clusters + 2
    ensures |r| == ClusterBytes(v)
  {
    ClusterFits(v, |d|, c);
    d[ClusterByte(v, c)..ClusterByte(v, c) + ClusterBytes(v)]
  }

  ghost function ImageOf(v: Geometry, d: Disk): (a: Image)
    requires Sound(v, |d|)
    ensures |a.fat| == v.clusters + 2 && |a.dir| == Slots(v) && |a.data| == v.clusters
  {
    Image(seq(v.clusters + 2, c requires 0 <= c < v.clusters + 2 => FatAt(v, d, c)),
          seq(Slots(v), k requires 0 <= k < Slots(v) => SlotAt(v, d, k)),
          seq(v.clusters, i requires 0 <= i < v.clusters => ClusterAt(v, d, i + 2)))
  }

  lemma ImageIs(v: Geometry, d: Disk)
    requires Sound(v, |d|)
    ensures var a := ImageOf(v, d);
            && (forall c | 0 <= c < |a.fat| :: a.fat[c] == FatAt(v, d, c))
            && (forall k | 0 <= k < |a.dir| :: a.dir[k] == SlotAt(v, d, k))
            && (forall c | 2 <= c < v.clusters + 2 :: a.data[c - 2] == ClusterAt(v, d, c))
  {
    hide FatAt, SlotAt, ClusterAt, Sound;
  }

  /** Bytes that match in all three regions stand for the same volume. */
  lemma SameImage(v: Geometry, d: Disk, a: Image)
    requires Sound(v, |d|) && |a.fat| == v.clusters + 2 && |a.dir| == Slots(v) && |a.data| == v.clusters
    requires forall c | 0 <= c < |a.fat| :: a.fat[c] == FatAt(v, d, c)
    requires forall k | 0 <= k < |a.dir| :: a.dir[k] == SlotAt(v, d, k)
    requires forall c | 2 <= c < v.clusters + 2 :: a.data[c - 2] == ClusterAt(v, d, c)
    ensures ImageOf(v, d) == a
  {
    hide FatAt, SlotAt, ClusterAt;
  }

  // --- writing one thing changes one thing ------------------------------------------------

  lemma KeepsFat(v: Geometry, d: Disk, at: nat, b: seq<Byte>)
    requires Sound(v, |d|) && at + |b| <= |d|
             && (at >= 512 * (v.fatStart + v.sectorsPerFat) || at + |b| <= 512 * v.fatStart)
    ensures forall c | 0 <= c < v.clusters + 2 :: FatAt(v, Splice(d, at, b), c) == FatAt(v, d, c)
  {
    Regions(v, |d|);
    hide Mounted;
  }

  lemma KeepsSlots(v: Geometry, d: Disk, at: nat, b: seq<Byte>)
    requires Sound(v, |d|) && at + |b| <= |d| && (at >= 512 * v.dataStart || at + |b| <= 512 * v.rootStart)
    ensures forall k | 0 <= k < Slots(v) :: SlotAt(v, Splice(d, at, b), k) == SlotAt(v, d, k)
  {
    Regions(v, |d|);
    forall k | 0 <= k < Slots(v)
      ensures SlotAt(v, Splice(d, at, b), k) == SlotAt(v, d, k)
    {
      SpliceElsewhere(d, at, b, SlotByte(v, k), SlotByte(v, k) + 32);
    }
  }

  lemma KeepsClusters(v: Geometry, d: Disk, at: nat, b: seq<Byte>)
    requires Sound(v, |d|) && at + |b| <= 512 * v.dataStart
    ensures at + |b| <= |d|
    ensures forall e | 2 <= e < v.clusters + 2 :: ClusterAt(v, Splice(d, at, b), e) == ClusterAt(v, d, e)
  {
    Regions(v, |d|);
    forall e | 2 <= e < v.clusters + 2
      ensures ClusterAt(v, Splice(d, at, b), e) == ClusterAt(v, d, e)
    {
      ClusterFits(v, |d|, e);
      SpliceElsewhere(d, at, b, ClusterByte(v, e), ClusterByte(v, e) + ClusterBytes(v));
    }
  }

  lemma FatWritten(v: Geometry, d: Disk, c: nat, value: nat)
    requires Sound(v, |d|) && c < v.clusters + 2 && value < 0x10000
    ensures FatByte(v, c) + 2 <= |d|
    ensures var a := ImageOf(v, d); ImageOf(v, Splice(d, FatByte(v, c), Little(value))) == a.(fat := a.fat[c := value])
  {
    Regions(v, |d|);
    var at, b := FatByte(v, c), Little(value);
    KeepsSlots(v, d, at, b);
    KeepsClusters(v, d, at, b);
    forall e | 0 <= e < v.clusters + 2
      ensures FatAt(v, Splice(d, at, b), e) == if e == c then value else FatAt(v, d, e)
    {
      if e != c { assert e < c || e > c; }
    }
    ImageIs(v, d);
    hide FatAt, SlotAt, ClusterAt, Splice, Mounted, ImageOf;
    var a := ImageOf(v, d);
    SameImage(v, Splice(d, at, b), a.(fat := a.fat[c := value]));
  }

  /** The other copies of the table are not part of what the volume stands for. */
  lemma CopyWritten(v: Geometry, d: Disk, at: nat, b: seq<Byte>)
    requires Sound(v, |d|) && 512 * (v.fatStart + v.sectorsPerFat) <= at && at + |b| <= 512 * v.rootStart
    ensures at + |b| <= |d| && ImageOf(v, Splice(d, at, b)) == ImageOf(v, d)
  {
    Regions(v, |d|);
    KeepsFat(v, d, at, b);
    KeepsSlots(v, d, at, b);
    KeepsClusters(v, d, at, b);
    ImageIs(v, d);
    hide FatAt, SlotAt, ClusterAt, Splice, Mounted, ImageOf;
    SameImage(v, Splice(d, at, b), ImageOf(v, d));
  }

  lemma SlotWritten(v: Geometry, d: Disk, k: nat, slot: Slot)
    requires Sound(v, |d|) && k < Slots(v)
    ensures SlotByte(v, k) + 32 <= |d|
    ensures var a := ImageOf(v, d); ImageOf(v, Splice(d, SlotByte(v, k), slot)) == a.(dir := a.dir[k := slot])
  {
    Regions(v, |d|);
    var at := SlotByte(v, k);
    KeepsFat(v, d, at, slot);
    KeepsClusters(v, d, at, slot);
    forall j | 0 <= j < Slots(v)
      ensures SlotAt(v, Splice(d, at, slot), j) == if j == k then slot else SlotAt(v, d, j)
    {
      if j == k { SpliceHere(d, at, slot); } else { SpliceElsewhere(d, at, slot, SlotByte(v, j), SlotByte(v, j) + 32); }
    }
    ImageIs(v, d);
    hide FatAt, SlotAt, ClusterAt, Splice, Mounted, ImageOf;
    var a := ImageOf(v, d);
    SameImage(v, Splice(d, at, slot), a.(dir := a.dir[k := slot]));
  }

  /** Writing part of a cluster changes that cluster only. */
  lemma ClusterWritten(v: Geometry, d: Disk, c: nat, within: nat, b: seq<Byte>)
    requires Sound(v, |d|) && 2 <= c < v.clusters + 2 && within + |b| <= ClusterBytes(v)
    ensures ClusterByte(v, c) + within + |b| <= |d|
    ensures var a := ImageOf(v, d);
            ImageOf(v, Splice(d, ClusterByte(v, c) + within, b)) ==
              a.(data := a.data[c - 2 := Splice(a.data[c - 2], within, b)])
  {
    Regions(v, |d|);
    ClusterFits(v, |d|, c);
    var at := ClusterByte(v, c) + within;
    KeepsFat(v, d, at, b);
    KeepsSlots(v, d, at, b);
    forall e | 2 <= e < v.clusters + 2
      ensures ClusterAt(v, Splice(d, at, b), e) == if e == c then Splice(ClusterAt(v, d, c), within, b)
              else ClusterAt(v, d, e)
    {
      OneCluster(v, d, c, within, b, e);
    }
    ImageIs(v, d);
    hide FatAt, SlotAt, ClusterAt, Splice, Mounted, ImageOf;
    var a := ImageOf(v, d);
    SameImage(v, Splice(d, at, b), a.(data := a.data[c - 2 := Splice(a.data[c - 2], within, b)]));
  }

  lemma OneCluster(v: Geometry, d: Disk, c: nat, within: nat, b: seq<Byte>, e: nat)
    requires Sound(v, |d|) && 2 <= c < v.clusters + 2 && within + |b| <= ClusterBytes(v) && 2 <= e < v.clusters + 2
    ensures ClusterByte(v, c) + within + |b| <= |d|
    ensures ClusterAt(v, Splice(d, ClusterByte(v, c) + within, b), e) ==
            if e == c then Splice(ClusterAt(v, d, c), within, b) else ClusterAt(v, d, e)
  {
    hide Sound, Mounted, ClusterByte, ClusterBytes, Splice;
    ClusterFits(v, |d|, c);
    ClusterFits(v, |d|, e);
    if e < c { ClustersApart(v, e, c); }
    if c < e { ClustersApart(v, c, e); }
    var at, n := ClusterByte(v, c), ClusterBytes(v);
    if e == c {
      SpliceInside(d, at, n, within, b);
    } else {
      SpliceElsewhere(d, at + within, b, ClusterByte(v, e), ClusterByte(v, e) + n);
    }
  }

  lemma SpliceInside(d: Disk, at: nat, n: nat, within: nat, b: seq<Byte>)
    requires at + n <= |d| && within + |b| <= n
    ensures Splice(d, at + within, b)[at..at + n] == Splice(d[at..at + n], within, b)
  {
  }

  // --- the copies of the table ---------------------------------------------------------------

  /** Where copy `copy` of the table starts. */
  function TableByte(v: Geometry, copy: nat): nat { 512 * (v.fatStart + copy * v.sectorsPerFat) }

  function Table(v: Geometry, d: Disk, copy: nat): (r: seq<Byte>)
    requires Sound(v, |d|) && copy < v.fatCount
    ensures |r| == 512 * v.sectorsPerFat
  {
    CopyFits(v, |d|, copy);
    d[TableByte(v, copy)..TableByte(v, copy) + 512 * v.sectorsPerFat]
  }

  lemma CopyFits(v: Geometry, size: nat, copy: nat)
    requires Sound(v, size) && copy < v.fatCount
    ensures TableByte(v, copy) + 512 * v.sectorsPerFat <= 512 * v.rootStart <= size
    ensures copy > 0 ==> 512 * (v.fatStart + v.sectorsPerFat) <= TableByte(v, copy)
  {
    Regions(v, size);
    MulStep(copy, v.fatCount, v.sectorsPerFat);
    if copy > 0 { MulStep(0, copy, v.sectorsPerFat); }
  }

  lemma CopiesApart(v: Geometry, a: nat, b: nat)
    requires a < b
    ensures TableByte(v, a) + 512 * v.sectorsPerFat <= TableByte(v, b)
  {
    MulStep(a, b, v.sectorsPerFat);
  }

  /** All copies of the table agree. */
  ghost predicate Mirrored(v: Geometry, d: Disk)
    requires Sound(v, |d|)
  {
    forall copy | 0 <= copy < v.fatCount :: Table(v, d, copy) == Table(v, d, 0)
  }

  /** Changing one copy changes that copy only. */
  lemma TableWritten(v: Geometry, d: Disk, copy: nat, within: nat, b: seq<Byte>, other: nat)
    requires Sound(v, |d|) && copy < v.fatCount && other < v.fatCount && within + |b| <= 512 * v.sectorsPerFat
    ensures TableByte(v, copy) + within + |b| <= |d|
    ensures Table(v, Splice(d, TableByte(v, copy) + within, b), other) ==
            if other == copy then Splice(Table(v, d, copy), within, b) else Table(v, d, other)
  {
    CopyFits(v, |d|, copy);
    CopyFits(v, |d|, other);
    if other < copy { CopiesApart(v, other, copy); }
    if copy < other { CopiesApart(v, copy, other); }
    var at, from, n := TableByte(v, copy), TableByte(v, other), 512 * v.sectorsPerFat;
    hide Sound, Mounted, TableByte, Splice;
    if other == copy {
      SpliceInside(d, at, n, within, b);
    } else {
      SpliceElsewhere(d, at + within, b, from, from + n);
    }
  }

  /** Writes outside the tables leave them alone. */
  lemma TablesKept(v: Geometry, d: Disk, at: nat, b: seq<Byte>)
    requires Sound(v, |d|) && 512 * v.rootStart <= at && at + |b| <= |d|
    ensures Mirrored(v, d) <==> Mirrored(v, Splice(d, at, b))
  {
    forall copy | 0 <= copy < v.fatCount
      ensures Table(v, Splice(d, at, b), copy) == Table(v, d, copy)
    {
      CopyFits(v, |d|, copy);
      var from := TableByte(v, copy);
      SpliceElsewhere(d, at, b, from, from + 512 * v.sectorsPerFat);
    }
    assert v.fatCount > 0;
  }
}
