/** Building a disk image, and why the kernel reads back what was put on it. */
module Mkfs {
  import opened Basics
  import opened FatNames
  import opened FatVolume
  import opened FatChains
  import opened FatTrails
  import opened FatSteps
  import opened FatWrites
  import opened FatMount
  import opened FatFiles

  /** The layout the tool always uses: one reserved sector, two tables of 32, 512 directory slots, 8167
      clusters of four sectors. */
  const LAYOUT := Geometry(4, 2, 1, 32, 65, 512, 97, 8167)

  /** Sectors of the volume, and of the swap area behind it. */
  const TOTAL_SECTORS := 32768
  const SWAP_SECTORS := 16384
  const IMAGE_BYTES := (TOTAL_SECTORS + SWAP_SECTORS) * 512

  const CLUSTER := 2048

  datatype File = File(name: seq<Byte>, data: seq<Byte>)

  function Clusters(file: File): nat { Needed(|file.data|, CLUSTER) }

  /** The first cluster of file `n`: files are laid out one after the other. */
  function FirstCluster(files: seq<File>, n: nat): (r: nat)
    requires n <= |files|
    ensures r >= 2
  {
    if n == 0 then 2 else FirstCluster(files, n - 1) + Clusters(files[n - 1])
  }

  /** What the tool accepts. */
  predicate Accepts(files: seq<File>, n: nat)
    requires n <= |files|
  {
    forall i | 0 <= i < n :: HasRoom(files, i)
  }

  /** There is a slot for file `i`, its name is not too long, and its clusters end before the last one. */
  predicate HasRoom(files: seq<File>, i: nat)
    requires i < |files|
  {
    i < 512 && Short(files[i].name) && FirstCluster(files, i) + Clusters(files[i]) < LAYOUT.clusters + 2
  }

  /** Names the kernel can find, all of them different. */
  predicate GoodNames(files: seq<File>) {
    && (forall i | 0 <= i < |files| :: Storable(files[i].name))
    && (forall i, j | 0 <= i < j < |files| :: !SameName(files[i].name, files[j].name))
  }

  lemma LayoutSound(size: nat)
    requires size == IMAGE_BYTES
    ensures Sound(LAYOUT, size) && ClusterBytes(LAYOUT) == CLUSTER && Slots(LAYOUT) == 512
  {
  }

  // --- one file ------------------------------------------------------------------------------

  /** `n` clusters from `first` on. */
  function Run(first: nat, n: nat): (r: seq<nat>)
    ensures |r| == n && forall i | 0 <= i < n :: r[i] == first + i
  {
    seq(n, i requires 0 <= i < n => first + i)
  }

  /** The table with a run of clusters chained. */
  ghost predicate RunChained(fat: seq<nat>, fat': seq<nat>, first: nat, n: nat, done: nat)
    requires first + n <= |fat|
  {
    && |fat'| == |fat|
    && forall c | 0 <= c < |fat| ::
         fat'[c] == if first <= c < first + done then (if c + 1 == first + n then 0xFFFF else c + 1) else fat[c]
  }

  lemma RunIsChain(fat: seq<nat>, fat': seq<nat>, first: nat, n: nat, m: nat)
    requires 2 <= first && first + n <= m <= |fat| && n > 0 && RunChained(fat, fat', first, n, n)
    ensures IsChain(fat'[..m], Run(first, n))
  {
    var chain := Run(first, n);
    forall i | 0 <= i < |chain|
      ensures Linked(fat'[..m], chain, i)
    {
    }
  }

  lemma RunFits(v: Geometry, size: nat, first: nat, n: nat)
    requires Sound(v, size) && 2 <= first && first + n <= v.clusters + 2
    ensures ClusterByte(v, first) <= ClusterByte(v, first + n) <= size
    ensures n > 0 ==> ClusterByte(v, first + n) == ClusterByte(v, first + n - 1) + ClusterBytes(v)
  {
    hide Mounted;
    var last := first + n - 3;
    assert n > 0 ==> (last + 1) * v.sectorsPerCluster == last * v.sectorsPerCluster + v.sectorsPerCluster;
    if n > 0 {
      ClustersApart(v, first, first + n);
      ClusterFits(v, size, first + n - 1);
    } else if first < v.clusters + 2 {
      ClusterFits(v, size, first);
    }
  }

  /** A run of clusters is one stretch of the disk. */
  lemma {:induction false} RunGathered(v: Geometry, d: Disk, first: nat, n: nat)
    requires Sound(v, |d|) && 2 <= first && first + n <= v.clusters + 2
    ensures ClusterByte(v, first) <= ClusterByte(v, first + n) <= |d|
    ensures Gathered(ImageOf(v, d).data, Run(first, n)) == d[ClusterByte(v, first)..ClusterByte(v, first + n)]
  {
    RunFits(v, |d|, first, n);
    if n > 0 {
      RunGathered(v, d, first, n - 1);
      ImageIs(v, d);
      var run := Run(first, n);
      assert run[..n - 1] == Run(first, n - 1) && run[n - 1] == first + n - 1;
      hide Sound, ImageOf, ClusterByte, ClusterBytes, Run;
      assert ImageOf(v, d).data[first + n - 1 - 2] == ClusterAt(v, d, first + n - 1);
    }
  }

  // --- the files so far ----------------------------------------------------------------------

  /** The first `n` files are on the volume, in the first `n` slots and one after the other. */
  ghost predicate Progress(files: seq<File>, n: nat, a: Image, chains: map<nat, seq<nat>>) {
    && n <= |files| && WellFormed(a, chains, CLUSTER) && |a.dir| == 512
    && (forall j | 0 <= j < n && j < |a.dir| :: Matches(a.dir[j], files[j].name))
    && (forall j | n <= j < |a.dir| :: Never(a.dir[j]))
    && (forall c | FirstCluster(files, n) <= c < |a.fat| :: a.fat[c] == 0)
    && (forall j | 0 <= j < n :: Lookup(a, chains, CLUSTER, files[j].name) == Some(files[j].data))
  }

  lemma NextSlot(files: seq<File>, n: nat, dir: seq<Slot>)
    requires GoodNames(files) && n < |files| && n < 512 == |dir|
    requires forall j | 0 <= j < n :: Matches(dir[j], files[j].name)
    requires forall j | n <= j < |dir| :: Never(dir[j])
    ensures SlotFor(dir, files[n].name, n)
  {
    NameIsNew(files, n, dir);
    FirstUnused(files, n, dir);
  }

  lemma NameIsNew(files: seq<File>, n: nat, dir: seq<Slot>)
    requires GoodNames(files) && n < |files| && n < |dir|
    requires forall j | 0 <= j < n :: Matches(dir[j], files[j].name)
    requires forall j | n <= j < |dir| :: Never(dir[j])
    ensures Position(dir, files[n].name, 0) == |dir|
  {
    var p := Position(dir, files[n].name, 0);
    hide Position, SameName, EntryOf, Storable;
    if p < n {
      SameNames2(files[p].name, EntryOf(dir[p]).name, files[n].name);
      assert false;
    }
  }

  lemma FirstUnused(files: seq<File>, n: nat, dir: seq<Slot>)
    requires n < |files| && n < |dir|
    requires forall j | 0 <= j < n :: Matches(dir[j], files[j].name)
    requires forall j | n <= j < |dir| :: Never(dir[j])
    ensures FirstEmpty(dir, 0) == n
  {
    var r := FirstEmpty(dir, 0);
    hide FirstEmpty, SameName, EntryOf;
    assert r < n ==> Matches(dir[r], files[r].name);
    assert Never(dir[n]);
  }

  lemma SameNames2(a: seq<Byte>, b: seq<Byte>, c: seq<Byte>)
    requires SameName(b, a) && SameName(b, c)
    ensures SameName(a, c)
  {
  }

  /** Nothing changed but the clusters of a run. */
  ghost predicate OutsideRun(a: Image, a': Image, first: nat, n: nat) {
    && a'.dir == a.dir && |a'.fat| == |a.fat| && |a'.data| == |a.data|
    && (forall c | 0 <= c < |a.fat| && !(first <= c < first + n) :: a'.fat[c] == a.fat[c])
    && (forall i | 0 <= i < |a.data| && !(first <= i + 2 < first + n) :: a'.data[i] == a.data[i])
  }

  /** The run now holds the file's data. */
  ghost predicate Laid(a: Image, file: File, first: nat) {
    && 2 <= first && first + Clusters(file) <= |a.fat| && Shaped(a, CLUSTER)
    && IsChain(a.fat, Run(first, Clusters(file)))
    && file.data <= Gathered(a.data, Run(first, Clusters(file)))
  }

  lemma BeforeNext(files: seq<File>, n: nat, a: Image, chains: map<nat, seq<nat>>, j: nat, c: nat)
    requires Progress(files, n, a, chains) && j in chains && c in chains[j]
    ensures 2 <= c < FirstCluster(files, n) && c < |a.fat|
  {
    ChainsNotFree(a, a.dir[j], chains[j], CLUSTER, c);
  }

  /** The slot for file `n`. */
  function SlotOf(files: seq<File>, n: nat): Slot
    requires n < |files| && Short(files[n].name) && FirstCluster(files, n) < 0x10000 && |files[n].data| < 0x1_0000_0000
  {
    NewSlot(files[n].name, FirstCluster(files, n), |files[n].data|)
  }

  function ChainOf(files: seq<File>, n: nat): seq<nat>
    requires n < |files|
  {
    Run(FirstCluster(files, n), Clusters(files[n]))
  }

  lemma FileStored(files: seq<File>, n: nat, a: Image, chains: map<nat, seq<nat>>, a': Image)
    requires Progress(files, n, a, chains) && GoodNames(files) && n < |files| && n < 512
    requires OutsideRun(a, a', FirstCluster(files, n), Clusters(files[n])) && Laid(a', files[n], FirstCluster(files, n))
    ensures FirstCluster(files, n) < 0x10000 && |files[n].data| < 0x1_0000_0000 && Short(files[n].name) && n < |a'.dir|
    ensures var b, chains' := WithSlot(a', n, SlotOf(files, n)), chains[n := ChainOf(files, n)];
            && WellFormed(b, chains', CLUSTER) && Matches(SlotOf(files, n), files[n].name)
            && Lookup(b, chains', CLUSTER, files[n].name) == Some(files[n].data)
            && forall other | !SameName(other, files[n].name) ::
              Lookup(b, chains', CLUSTER, other) == Lookup(a, chains, CLUSTER, other)
  {
    var first, name, data := FirstCluster(files, n), files[n].name, files[n].data;
    LaidFits(a', files[n], first);
    FitsIsShort(name);
    LaidReads(a', files[n], first);
    FoundWhenStorable(name, first, |data|);
    NextSlot(files, n, a.dir);
    RunApart(files, n, a, chains, a');
    hide NewSlot, Lookup, Content, FileOk, WellFormed, SlotFor, Short, Storable, Agrees, Matches, GoodNames, Run,
         Clusters, FirstCluster, Never;
    SlotRewritten(a, chains, CLUSTER, a', name, n, SlotOf(files, n), ChainOf(files, n));
  }

  /** One more file. */
  lemma FileAdded(files: seq<File>, n: nat, a: Image, chains: map<nat, seq<nat>>, a': Image)
    requires Progress(files, n, a, chains) && GoodNames(files) && n < |files| && n < 512
    requires OutsideRun(a, a', FirstCluster(files, n), Clusters(files[n])) && Laid(a', files[n], FirstCluster(files, n))
    ensures FirstCluster(files, n) < 0x10000 && |files[n].data| < 0x1_0000_0000 && Short(files[n].name) && n < |a'.dir|
    ensures Progress(files, n + 1, WithSlot(a', n, SlotOf(files, n)), chains[n := ChainOf(files, n)])
  {
    hide Lookup, WellFormed, Short, Matches, GoodNames, Run, Clusters, FirstCluster, Never, Laid, SlotOf, ChainOf;
    FileStored(files, n, a, chains, a');
    var b, chains' := WithSlot(a', n, SlotOf(files, n)), chains[n := ChainOf(files, n)];
    StillThere(files, n, a, chains, b, chains');
    SlotsNow(files, n, a, b);
    FreeAfter(files, n, a, chains, b);
  }

  lemma LaidFits(a: Image, file: File, first: nat)
    requires Laid(a, file, first)
    ensures first < 0x10000 && |file.data| < 0x1_0000_0000 && Run(first, Clusters(file))[0] == first
  {
    var n := Clusters(file);
    assert |file.data| <= n * CLUSTER && n <= 65526;
  }

  lemma LaidReads(a: Image, file: File, first: nat)
    requires Laid(a, file, first) && first < 0x10000 && |file.data| < 0x1_0000_0000 && Fits83(file.name)
    ensures Short(file.name)
    ensures var s, chain := NewSlot(file.name, first, |file.data|), Run(first, Clusters(file));
            FileOk(a, s, chain, CLUSTER) && Content(a, s, chain, CLUSTER) == file.data
  {
    FitsIsShort(file.name);
    NewSlotEntry(file.name, first, |file.data|);
    hide NewSlot, IsChain, Short, Fits83, Encoded, Decoded;
  }

  lemma RunApart(files: seq<File>, n: nat, a: Image, chains: map<nat, seq<nat>>, a': Image)
    requires Progress(files, n, a, chains) && n < |files|
    requires OutsideRun(a, a', FirstCluster(files, n), Clusters(files[n]))
    ensures Agrees(a, a', chains - {n})
    ensures forall j | j in chains && j != n ::
              var chain := Run(FirstCluster(files, n), Clusters(files[n]));
              Apart(chains[j], chain) && Apart(chain, chains[j])
  {
    hide Progress, FirstCluster, Clusters;
    forall j, c | j in chains && c in chains[j]
      ensures 2 <= c < FirstCluster(files, n) && c < |a.fat|
    {
      BeforeNext(files, n, a, chains, j, c);
    }
    AgreesBefore(a, a', chains - {n}, FirstCluster(files, n), Clusters(files[n]));
  }

  lemma AgreesBefore(a: Image, a': Image, chains: map<nat, seq<nat>>, first: nat, n: nat)
    requires OutsideRun(a, a', first, n) && forall j, c | j in chains && c in chains[j] :: 2 <= c < first && c < |a.fat|
    ensures Agrees(a, a', chains)
  {
  }

  lemma StillThere(files: seq<File>, n: nat, a: Image, chains: map<nat, seq<nat>>, b: Image,
                   chains': map<nat, seq<nat>>)
    requires Progress(files, n, a, chains) && GoodNames(files) && n < |files| && WellFormed(b, chains', CLUSTER)
    requires Lookup(b, chains', CLUSTER, files[n].name) == Some(files[n].data)
    requires forall other | !SameName(other, files[n].name) ::
               Lookup(b, chains', CLUSTER, other) == Lookup(a, chains, CLUSTER, other)
    ensures forall j | 0 <= j < n + 1 :: Lookup(b, chains', CLUSTER, files[j].name) == Some(files[j].data)
  {
    hide Lookup, WellFormed, SameName;
  }

  lemma SlotsNow(files: seq<File>, n: nat, a: Image, b: Image)
    requires n < |files| && n < |a.dir| == |b.dir| && b.dir == a.dir[n := b.dir[n]] && Matches(b.dir[n], files[n].name)
    requires forall j | 0 <= j < n && j < |a.dir| :: Matches(a.dir[j], files[j].name)
    requires forall j | n <= j < |a.dir| :: Never(a.dir[j])
    ensures forall j | 0 <= j < n + 1 && j < |b.dir| :: Matches(b.dir[j], files[j].name)
    ensures forall j | n + 1 <= j < |b.dir| :: Never(b.dir[j])
  {
    hide Matches;
  }

  lemma FreeAfter(files: seq<File>, n: nat, a: Image, chains: map<nat, seq<nat>>, b: Image)
    requires Progress(files, n, a, chains) && n < |files| && |b.fat| == |a.fat|
    requires var first := FirstCluster(files, n);
             forall c | 0 <= c < |a.fat| && !(first <= c < first + Clusters(files[n])) :: b.fat[c] == a.fat[c]
    ensures forall c | FirstCluster(files, n + 1) <= c < |b.fat| :: b.fat[c] == 0
  {
    hide WellFormed, Matches, Lookup;
  }

  // --- the image -------------------------------------------------------------------------------

  const TABLE_ENTRIES := 8192
  const DIRECTORY_BYTES := 16384

  function SlotsOf(directory: seq<Byte>): (r: seq<Slot>)
    requires |directory| == DIRECTORY_BYTES
    ensures |r| == 512
  {
    seq(512, k requires 0 <= k < 512 => SlotIn(directory, 32 * k))
  }

  lemma SlotSpliced(directory: seq<Byte>, k: nat, s: Slot)
    requires |directory| == DIRECTORY_BYTES && k < 512
    ensures SlotsOf(Splice(directory, 32 * k, s)) == SlotsOf(directory)[k := s]
  {
    forall j | 0 <= j < 512
      ensures SlotIn(Splice(directory, 32 * k, s), 32 * j) == if j == k then s else SlotIn(directory, 32 * j)
    {
      if j == k {
        SpliceHere(directory, 32 * k, s);
      } else {
        SpliceElsewhere(directory, 32 * k, s, 32 * j, 32 * j + 32);
      }
    }
    hide Splice;
  }

  /** The volume the three buffers will make. */
  ghost function Draft(fat: seq<nat>, directory: seq<Byte>, image: Disk): Image
    requires |fat| == TABLE_ENTRIES && |directory| == DIRECTORY_BYTES && Sound(LAYOUT, |image|)
  {
    Image(fat[..LAYOUT.clusters + 2], SlotsOf(directory), ImageOf(LAYOUT, image).data)
  }

  /** Clusters outside the run are as they were; the run starts with `data`. */
  ghost predicate DataLaid(d: seq<seq<Byte>>, d': seq<seq<Byte>>, first: nat, n: nat, data: seq<Byte>) {
    && 2 <= first && first + n <= |d| + 2 && |d'| == |d|
    && (forall i | 0 <= i < |d| && !(first <= i + 2 < first + n) :: d'[i] == d[i])
    && data <= Gathered(d', Run(first, n))
  }

  /** Put bytes down from the start of a run of clusters. */
  lemma RunWritten(d: Disk, first: nat, n: nat, data: seq<Byte>)
    requires Sound(LAYOUT, |d|) && 2 <= first && first + n <= LAYOUT.clusters + 2 && |data| <= n * CLUSTER
    ensures ClusterByte(LAYOUT, first) + |data| <= |d|
    ensures var d' := Splice(d, ClusterByte(LAYOUT, first), data);
            DataLaid(ImageOf(LAYOUT, d).data, ImageOf(LAYOUT, d').data, first, n, data)
  {
    RunFits(LAYOUT, |d|, first, n);
    var at := ClusterByte(LAYOUT, first);
    assert ClusterByte(LAYOUT, first + n) == at + n * CLUSTER;
    var d' := Splice(d, at, data);
    RunGathered(LAYOUT, d', first, n);
    SpliceHere(d, at, data);
    hide ImageOf, Splice, Sound, Gathered, Run;
    assert d'[at..at + n * CLUSTER][..|data|] == d'[at..at + |data|];
    forall i | 0 <= i < LAYOUT.clusters && !(first <= i + 2 < first + n)
      ensures ImageOf(LAYOUT, d').data[i] == ImageOf(LAYOUT, d).data[i]
    {
      OtherCluster(d, first, n, data, i + 2);
    }
  }

  lemma OtherCluster(d: Disk, first: nat, n: nat, data: seq<Byte>, c: nat)
    requires Sound(LAYOUT, |d|) && 2 <= first && first + n <= LAYOUT.clusters + 2 && |data| <= n * CLUSTER
    requires 2 <= c < LAYOUT.clusters + 2 && !(first <= c < first + n) && ClusterByte(LAYOUT, first) + |data| <= |d|
    ensures ImageOf(LAYOUT, Splice(d, ClusterByte(LAYOUT, first), data)).data[c - 2] == ImageOf(LAYOUT, d).data[c - 2]
  {
    var at := ClusterByte(LAYOUT, first);
    ImageIs(LAYOUT, d);
    ImageIs(LAYOUT, Splice(d, at, data));
    ClusterFits(LAYOUT, |d|, c);
    hide ImageOf, Splice, Sound;
    SpliceElsewhere(d, at, data, ClusterByte(LAYOUT, c), ClusterByte(LAYOUT, c) + CLUSTER);
  }

  /** Chain a run of clusters in the table. */
  method ChainRun(fat: seq<nat>, first: nat, needed: nat) returns (r: seq<nat>)
    requires first + needed <= |fat|
    ensures RunChained(fat, r, first, needed, needed)
  {
    r := fat;
    for offset := 0 to needed
      invariant RunChained(fat, r, first, needed, offset)
    {
      var cluster := first + offset;
      r := r[cluster := if offset + 1 == needed then 0xFFFF else cluster + 1];
    }
  }

  function TableBytes(fat: seq<nat>, n: nat): (r: seq<Byte>)
    requires n <= |fat| && forall i | 0 <= i < |fat| :: fat[i] < 0x10000
    ensures |r| == 2 * n
  {
    if n == 0 then [] else TableBytes(fat, n - 1) + Little(fat[n - 1])
  }

  lemma {:induction false} TableBytesAt(fat: seq<nat>, n: nat, c: nat)
    requires c < n <= |fat| && forall i | 0 <= i < |fat| :: fat[i] < 0x10000
    ensures U16(TableBytes(fat, n), 2 * c) == fat[c]
  {
    if c < n - 1 {
      TableBytesAt(fat, n - 1, c);
    }
  }

  lemma SpliceLonger(d: Disk, at: nat, x: seq<Byte>, y: seq<Byte>)
    requires at + |x| + |y| <= |d|
    ensures Splice(Splice(d, at, x), at + |x|, y) == Splice(d, at, x + y)
  {
  }

  /** Both copies of the table. */
  method WriteTables(image: Disk, fat: seq<nat>) returns (r: Disk)
    requires |image| == IMAGE_BYTES && |fat| == TABLE_ENTRIES && forall i | 0 <= i < |fat| :: fat[i] < 0x10000
    ensures |r| == IMAGE_BYTES
    ensures r == Splice(Splice(image, 512, TableBytes(fat, |fat|)), 512 * 33, TableBytes(fat, |fat|))
  {
    hide Splice, TableBytes;
    r := image;
    ghost var whole := TableBytes(fat, |fat|);
    for copy := 0 to 2
      invariant |r| == IMAGE_BYTES
      invariant r == if copy == 0 then image else if copy == 1 then Splice(image, 512, whole)
                else Splice(Splice(image, 512, whole), 512 * 33, whole)
    {
      ghost var before := r;
      var start := (1 + copy * 32) * 512;
      SpliceNothing(before, start, fat);
      for index := 0 to |fat|
        invariant |r| == IMAGE_BYTES && r == Splice(before, start, TableBytes(fat, index))
      {
        TableBytesNext(fat, index);
        SpliceLonger(before, start, TableBytes(fat, index), Little(fat[index]));
        r := Splice(r, start + index * 2, Little(fat[index]));
      }
    }
  }

  lemma SpliceNothing(d: Disk, at: nat, fat: seq<nat>)
    requires at <= |d| && forall i | 0 <= i < |fat| :: fat[i] < 0x10000
    ensures d == Splice(d, at, TableBytes(fat, 0))
  {
  }

  lemma TableBytesNext(fat: seq<nat>, n: nat)
    requires n < |fat| && forall i | 0 <= i < |fat| :: fat[i] < 0x10000
    ensures TableBytes(fat, n + 1) == TableBytes(fat, n) + Little(fat[n])
  {
  }

  /** The finished image, region by region. */
  lemma ImageParts(image: Disk, w: seq<Byte>, d: seq<Byte>)
    requires |image| == IMAGE_BYTES && |w| == 16384 && |d| == DIRECTORY_BYTES
    ensures var r := Splice(Splice(Splice(image, 512, w), 512 * 33, w), 512 * 65, d);
            && |r| == |image| && r[..512] == image[..512] && r[512..512 * 33] == w && r[512 * 33..512 * 65] == w
            && r[512 * 65..512 * 97] == d && r[512 * 97..] == image[512 * 97..]
  {
    var a := Splice(image, 512, w);
    var b := Splice(a, 512 * 33, w);
    assert a[..512] == image[..512] && a[512..512 * 33] == w && a[512 * 33..] == image[512 * 33..];
    SpliceElsewhere(a, 512 * 33, w, 0, 512);
    SpliceElsewhere(a, 512 * 33, w, 512, 512 * 33);
    SpliceHere(a, 512 * 33, w);
    assert b[512 * 65..] == a[512 * 65..] == image[512 * 65..];
    SpliceElsewhere(b, 512 * 65, d, 0, 512);
    SpliceElsewhere(b, 512 * 65, d, 512, 512 * 33);
    SpliceElsewhere(b, 512 * 65, d, 512 * 33, 512 * 65);
    SpliceHere(b, 512 * 65, d);
    assert Splice(b, 512 * 65, d)[512 * 97..] == b[512 * 97..] == image[512 * 97..];
  }

  lemma SliceOfSlice(d: Disk, from: nat, to: nat, a: nat, b: nat)
    requires from <= to <= |d| && a <= b <= to - from
    ensures d[from..to][a..b] == d[from + a..from + b]
  {
    var whole := d[from..to];
    var x, y := whole[a..b], d[from + a..from + b];
    assert |x| == |y|;
    assert forall i | 0 <= i < |x| :: x[i] == whole[a + i] == d[from + (a + i)] == y[i];
  }

  lemma TwoCopies(r: Disk)
    requires Sound(LAYOUT, |r|) && |r| == IMAGE_BYTES && r[512..512 * 33] == r[512 * 33..512 * 65]
    ensures Mirrored(LAYOUT, r)
  {
    hide Sound;
    assert TableByte(LAYOUT, 0) == 512 && TableByte(LAYOUT, 1) == 512 * 33;
    assert Table(LAYOUT, r, 1) == Table(LAYOUT, r, 0);
  }

  lemma FatRead(r: Disk, fat: seq<nat>)
    requires |r| == IMAGE_BYTES && |fat| == TABLE_ENTRIES && forall i | 0 <= i < |fat| :: fat[i] < 0x10000
    requires r[512..512 * 33] == TableBytes(fat, |fat|)
    ensures Sound(LAYOUT, |r|) && forall c | 0 <= c < LAYOUT.clusters + 2 :: FatAt(LAYOUT, r, c) == fat[c]
  {
    LayoutSound(|r|);
    forall c | 0 <= c < LAYOUT.clusters + 2
      ensures FatAt(LAYOUT, r, c) == fat[c]
    {
      TableBytesAt(fat, |fat|, c);
      assert r[512 + 2 * c] == r[512..512 * 33][2 * c] && r[512 + 2 * c + 1] == r[512..512 * 33][2 * c + 1];
    }
  }

  lemma SlotsRead(r: Disk, directory: seq<Byte>)
    requires |r| == IMAGE_BYTES && |directory| == DIRECTORY_BYTES && r[512 * 65..512 * 97] == directory
    ensures Sound(LAYOUT, |r|) && forall k | 0 <= k < 512 :: k < Slots(LAYOUT)
                                                             && SlotAt(LAYOUT, r, k) == SlotsOf(directory)[k]
  {
    LayoutSound(|r|);
    forall k | 0 <= k < 512
      ensures SlotAt(LAYOUT, r, k) == SlotsOf(directory)[k]
    {
      SliceOfSlice(r, 512 * 65, 512 * 97, 32 * k, 32 * k + 32);
    }
  }

  lemma ClustersRead(r: Disk, image: Disk)
    requires |r| == |image| == IMAGE_BYTES && r[512 * 97..|r|] == image[512 * 97..|r|]
    ensures Sound(LAYOUT, |r|) && forall c | 2 <= c < LAYOUT.clusters + 2 ::
              ClusterAt(LAYOUT, r, c) == ClusterAt(LAYOUT, image, c)
  {
    LayoutSound(|r|);
    forall c | 2 <= c < LAYOUT.clusters + 2
      ensures ClusterAt(LAYOUT, r, c) == ClusterAt(LAYOUT, image, c)
    {
      ClusterFits(LAYOUT, |r|, c);
      var at, from := ClusterByte(LAYOUT, c), 512 * 97;
      SliceOfSlice(r, from, |r|, at - from, at - from + CLUSTER);
      SliceOfSlice(image, from, |r|, at - from, at - from + CLUSTER);
    }
  }

  lemma Finished(image: Disk, fat: seq<nat>, directory: seq<Byte>, r: Disk)
    requires |image| == |r| == IMAGE_BYTES && |fat| == TABLE_ENTRIES && |directory| == DIRECTORY_BYTES
    requires forall i | 0 <= i < |fat| :: fat[i] < 0x10000
    requires var w := TableBytes(fat, |fat|);
             r == Splice(Splice(Splice(image, 512, w), 512 * 33, w), 512 * 65, directory)
    ensures Sound(LAYOUT, |r|) && ImageOf(LAYOUT, r) == Draft(fat, directory, image) && Mirrored(LAYOUT, r)
            && r[..512] == image[..512]
  {
    LayoutSound(|r|);
    ImageParts(image, TableBytes(fat, |fat|), directory);
    hide Splice, TableBytes;
    FatRead(r, fat);
    SlotsRead(r, directory);
    assert r[512 * 97..|r|] == r[512 * 97..] && image[512 * 97..|r|] == image[512 * 97..];
    ClustersRead(r, image);
    TwoCopies(r);
    ImageIs(LAYOUT, image);
    hide FatAt, SlotAt, ClusterAt, SlotsOf, ImageOf, Sound, Mirrored;
    SameImage(LAYOUT, r, Draft(fat, directory, image));
  }

  // --- the boot sector ----------------------------------------------------------------------------

  /** What the kernel looks at in the first sector. */
  ghost predicate Bootable(s: seq<Byte>)
    requires |s| == 512
  {
    && Describes(s, LAYOUT) && s[510] == 0x55 && s[511] == 0xAA && U16(s, 11) == 512
  }

  method WriteBootSector(image: Disk) returns (r: Disk)
    requires |image| == IMAGE_BYTES
    ensures |r| == IMAGE_BYTES && r[512..] == image[512..] && Bootable(r[..512])
  {
    var maker := [0x35, 0x41, 0x4D, 0x4F, 0x53, 0x31, 0x2E, 0x30];
    var title := [0x35, 0x41, 0x4D, 0x4F, 0x53, 0x20, 0x20, 0x20, 0x20, 0x20, 0x20];
    var kind := [0x46, 0x41, 0x54, 0x31, 0x36, 0x20, 0x20, 0x20];
    var s: seq<Byte> := image[..512];
    s := Splice(s, 0, [0xEB, 0x3C, 0x90] + maker);
    var fields := Little(512) + [4] + Little(1) + [2] + Little(512) + Little(TOTAL_SECTORS) + [0xF8] + Little(32);
    SpliceHere(s, 11, fields);
    s := Splice(s, 11, fields);
    hide Little, Little32;
    SpliceElsewhere(s, 24, Little(32) + Little(8) + Little32(0) + Little32(0), 11, 24);
    s := Splice(s, 24, Little(32) + Little(8) + Little32(0) + Little32(0));
    SpliceElsewhere(s, 36, [0x80], 11, 24);
    s := Splice(s, 36, [0x80]);
    SpliceElsewhere(s, 38, [0x29] + Little32(0x5A4D05A1) + title + kind, 11, 24);
    s := Splice(s, 38, [0x29] + Little32(0x5A4D05A1) + title + kind);
    SpliceElsewhere(s, 510, [0x55, 0xAA], 11, 24);
    SpliceHere(s, 510, [0x55, 0xAA]);
    s := Splice(s, 510, [0x55, 0xAA]);
    BootFields(s);
    r := s + image[512..];
    assert r[..512] == s;
  }

  lemma BootFields(s: seq<Byte>)
    requires |s| == 512 && s[510..] == [0x55, 0xAA]
    requires s[11..24] == Little(512) + [4] + Little(1) + [2] + Little(512) + Little(TOTAL_SECTORS) + [0xF8]
                          + Little(32)
    ensures Bootable(s)
  {
    var f := s[11..24];
    assert f[0] == 0 && f[1] == 2 && f[2] == 4 && f[3] == 1 && f[4] == 0 && f[5] == 2 && f[6] == 0 && f[7] == 2;
    assert f[8] == 0 && f[9] == 128 && f[10] == 0xF8 && f[11] == 32 && f[12] == 0;
    assert s[11] == f[0] && s[12] == f[1] && s[13] == f[2] && s[14] == f[3] && s[15] == f[4] && s[16] == f[5];
    assert s[17] == f[6] && s[18] == f[7] && s[19] == f[8] && s[20] == f[9] && s[22] == f[11] && s[23] == f[12];
    assert s[510] == s[510..][0] && s[511] == s[510..][1];
  }

  // --- building ---------------------------------------------------------------------------------------

  lemma StartProgress(files: seq<File>, fat: seq<nat>, directory: seq<Byte>, image: Disk)
    requires |fat| == TABLE_ENTRIES && |directory| == DIRECTORY_BYTES && |image| == IMAGE_BYTES
    requires (forall c | 2 <= c < |fat| :: fat[c] == 0) && (forall i | 0 <= i < |directory| :: directory[i] == 0)
    ensures Sound(LAYOUT, |image|) && Progress(files, 0, Draft(fat, directory, image), map[])
  {
    LayoutSound(|image|);
    var a := Draft(fat, directory, image);
    ImageShaped(LAYOUT, image);
    assert Shaped(a, CLUSTER);
    forall k | 0 <= k < |a.dir|
      ensures Never(a.dir[k])
    {
    }
    assert Files(a.dir) == {};
  }

  /** The chain and the data of a file are in place. */
  lemma FileLaid(file: File, fat: seq<nat>, fat': seq<nat>, directory: seq<Byte>, image: Disk, image': Disk, first: nat)
    requires |fat| == |fat'| == TABLE_ENTRIES && |directory| == DIRECTORY_BYTES && |image| == |image'| == IMAGE_BYTES
             && Sound(LAYOUT, IMAGE_BYTES)
    requires 2 <= first && first + Clusters(file) <= LAYOUT.clusters + 2
             && RunChained(fat, fat', first, Clusters(file), Clusters(file))
    requires DataLaid(ImageOf(LAYOUT, image).data, ImageOf(LAYOUT, image').data, first, Clusters(file), file.data)
    ensures Laid(Draft(fat', directory, image'), file, first)
    ensures OutsideRun(Draft(fat, directory, image), Draft(fat', directory, image'), first, Clusters(file))
  {
    hide ImageOf, Sound, SlotsOf, IsChain, Run;
    ImageShaped(LAYOUT, image');
    RunIsChain(fat, fat', first, Clusters(file), LAYOUT.clusters + 2);
  }

  /** One turn of the loop, in terms of the volume being drafted. */
  lemma TurnDone(files: seq<File>, n: nat, fat: seq<nat>, fat': seq<nat>, directory: seq<Byte>, image: Disk,
                 image': Disk, chains: map<nat, seq<nat>>)
    requires |fat| == |fat'| == TABLE_ENTRIES && |directory| == DIRECTORY_BYTES && |image| == |image'| == IMAGE_BYTES
             && Sound(LAYOUT, IMAGE_BYTES)
    requires n < |files| && n < 512 && GoodNames(files) && Progress(files, n, Draft(fat, directory, image), chains)
    requires FirstCluster(files, n) + Clusters(files[n]) <= LAYOUT.clusters + 2
    requires RunChained(fat, fat', FirstCluster(files, n), Clusters(files[n]), Clusters(files[n]))
    requires DataLaid(ImageOf(LAYOUT, image).data, ImageOf(LAYOUT, image').data, FirstCluster(files, n),
                      Clusters(files[n]), files[n].data)
    ensures FirstCluster(files, n) < 0x10000 && |files[n].data| < 0x1_0000_0000 && Short(files[n].name)
    ensures Progress(files, n + 1, Draft(fat', Splice(directory, 32 * n, SlotOf(files, n)), image'),
                     chains[n := ChainOf(files, n)])
  {
    hide ImageOf, Sound, SlotsOf, Progress, FirstCluster, Splice, GoodNames, Short, RunChained, DataLaid, Laid,
         OutsideRun, Clusters, SlotOf, ChainOf;
    FileLaid(files[n], fat, fat', directory, image, image', FirstCluster(files, n));
    FileAdded(files, n, Draft(fat, directory, image), chains, Draft(fat', directory, image'));
    SlotSpliced(directory, n, SlotOf(files, n));
  }

  /** The three buffers while files are being added. */
  ghost predicate Building(files: seq<File>, n: nat, fat: seq<nat>, directory: seq<Byte>, image: Disk,
                           chains: map<nat, seq<nat>>, boot: seq<Byte>) {
    && |fat| == TABLE_ENTRIES && |directory| == DIRECTORY_BYTES && |image| == IMAGE_BYTES && image[..512] == boot
    && Sound(LAYOUT, |image|) && (forall c | 0 <= c < |fat| :: fat[c] < 0x10000)
    && n <= |files| && FirstCluster(files, n) <= LAYOUT.clusters + 2 && Accepts(files, n)
    && (GoodNames(files) ==> Progress(files, n, Draft(fat, directory, image), chains))
  }

  /** Add file `n`, unless it is refused. */
  method AddFile(files: seq<File>, n: nat, fat: seq<nat>, directory: seq<Byte>, image: Disk, first: nat,
                 ghost chains: map<nat, seq<nat>>, ghost boot: seq<Byte>)
    returns (ok: bool, fat': seq<nat>, directory': seq<Byte>, image': Disk, next: nat)
    requires n < |files| && Building(files, n, fat, directory, image, chains, boot) && first == FirstCluster(files, n)
    ensures ok ==> Building(files, n + 1, fat', directory', image', chains[n := ChainOf(files, n)], boot)
                   && next == FirstCluster(files, n + 1)
    ensures !ok ==> !Accepts(files, n + 1)
  {
    hide Draft, Progress, Sound, Splice, GoodNames, Short, RunChained, DataLaid, ImageOf;
    var file, needed := files[n], Needed(|files[n].data|, CLUSTER);
    assert needed == Clusters(file) && (Accepts(files, n + 1) ==> HasRoom(files, n));
    ok, fat', directory', image', next := false, fat, directory, image, first;
    if n >= 512 || !(first + needed < LAYOUT.clusters + 2) {
      return;
    }
    fat' := ChainRun(fat, first, needed);
    RunWritten(image, first, needed, file.data);
    var start := 97 * 512 + (first - 2) * 4 * 512;
    assert start == ClusterByte(LAYOUT, first);
    image' := Splice(image, start, file.data);
    if !Short(file.name) {
      return;
    }
    ChainedSizes(fat, fat', first, needed);
    SpliceElsewhere(image, start, file.data, 0, 512);
    assert |file.data| <= needed * CLUSTER;
    var slot := BuildSlot(file.name, first, |file.data|);
    if GoodNames(files) { TurnDone(files, n, fat, fat', directory, image, image', chains); }
    directory' := Splice(directory, n * 32, slot);
    assert HasRoom(files, n);
    ok, next := true, first + needed;
  }

  /** Build an image holding the files.

      If the tool accepts them and the names are good, the kernel accepts the image and finds every file
      with its exact contents. */
  method Build(files: seq<File>) returns (r: Option<Disk>, ghost chains: map<nat, seq<nat>>)
    ensures r.Some? <==> Accepts(files, |files|)
    ensures r.Some? ==> |r.value| == IMAGE_BYTES && Bootable(r.value[..512]) && Sound(LAYOUT, |r.value|)
                        && Mirrored(LAYOUT, r.value)
    ensures r.Some? && GoodNames(files) ==>
              && WellFormed(ImageOf(LAYOUT, r.value), chains, CLUSTER)
              && (forall i | 0 <= i < |files| ::
                Lookup(ImageOf(LAYOUT, r.value), chains, CLUSTER, files[i].name) == Some(files[i].data))
              && (forall c | FirstCluster(files, |files|) <= c < LAYOUT.clusters + 2 ::
                ImageOf(LAYOUT, r.value).fat[c] == 0)
  {
    var blank: Disk := seq(IMAGE_BYTES, _ => 0);
    var image := WriteBootSector(blank);
    ghost var boot := image[..512];
    var fat: seq<nat> := seq(TABLE_ENTRIES, _ => 0);
    fat := fat[0 := 0xFFF8][1 := 0xFFFF];
    var directory: seq<Byte> := seq(DIRECTORY_BYTES, _ => 0);
    var next := 2;
    StartProgress(files, fat, directory, image);
    chains := map[];
    hide Draft, Progress, Sound, Splice, Bootable, GoodNames, Mirrored, ImageOf, WellFormed, Lookup;
    for index := 0 to |files|
      invariant Building(files, index, fat, directory, image, chains, boot) && next == FirstCluster(files, index)
    {
      var ok;
      ok, fat, directory, image, next := AddFile(files, index, fat, directory, image, next, chains, boot);
      if !ok {
        FewerAccepted(files, index + 1);
        return None, chains;
      }
      chains := chains[index := ChainOf(files, index)];
    }
    var out := WriteTables(image, fat);
    out := Splice(out, 512 * 65, directory);
    Finished(image, fat, directory, out);
    if GoodNames(files) { ProgressEnds(files, Draft(fat, directory, image), chains); }
    return Some(out), chains;
  }

  lemma FewerAccepted(files: seq<File>, n: nat)
    requires n <= |files|
    ensures Accepts(files, |files|) ==> Accepts(files, n)
  {
  }

  lemma ChainedSizes(fat: seq<nat>, fat': seq<nat>, first: nat, n: nat)
    requires first + n <= |fat| <= 0xFFFF && RunChained(fat, fat', first, n, n)
             && forall c | 0 <= c < |fat| :: fat[c] < 0x10000
    ensures |fat'| == |fat| && forall c | 0 <= c < |fat'| :: fat'[c] < 0x10000
  {
  }

  lemma ProgressEnds(files: seq<File>, a: Image, chains: map<nat, seq<nat>>)
    requires Progress(files, |files|, a, chains)
    ensures WellFormed(a, chains, CLUSTER)
            && forall i | 0 <= i < |files| :: Lookup(a, chains, CLUSTER, files[i].name) == Some(files[i].data)
    ensures forall c | FirstCluster(files, |files|) <= c < |a.fat| :: a.fat[c] == 0
  {
  }

  /** Build an image, mount it, and read file `i` by name. */
  method BuildAndRead(files: seq<File>, i: nat) returns (r: Option<Result<seq<Byte>>>)
    requires i < |files|
    ensures r.None? <==> !Accepts(files, |files|)
    ensures r.Some? && GoodNames(files) ==> r.value == Ok(files[i].data)
  {
    hide Accepts, GoodNames, Sound, Mirrored, ImageOf, WellFormed, Lookup, Position, EntryOk, ReadBack, Shaped,
         Describes, EntryOf;
    var built, chains := Build(files);
    if built.None? {
      return None;
    }
    var image := built.value;
    LayoutSound(|image|);
    var mounted := Mount(image[..512]);
    assert mounted == Accepted(LAYOUT);
    var volume := new Volume(mounted.v, image);
    ghost var chain := [];
    if GoodNames(files) {
      StoredEntry(ImageOf(LAYOUT, image), chains, CLUSTER, files[i].name, files[i].data);
      chain := chains[Position(ImageOf(LAYOUT, image).dir, files[i].name, 0)];
    }
    var found := volume.Find(files[i].name);
    if found.Err? {
      return Some(Err(found.error));
    }
    var data := volume.ReadFile(found.value, chain);
    return Some(data);
  }

  // --- a file replaced ----------------------------------------------------------------------------------

  /** One file, `A`, of one byte. */
  const SMALL := [File([0x41], [1])]

  lemma SmallIsAccepted()
    ensures Accepts(SMALL, |SMALL|) && GoodNames(SMALL) && FirstCluster(SMALL, |SMALL|) == 3
  {
    PlainA();
    assert Clusters(SMALL[0]) == 1;
    assert FirstCluster(SMALL, 0) == 2 && FirstCluster(SMALL, 1) == 3;
    assert HasRoom(SMALL, 0);
  }

  lemma PlainA()
    ensures Plain([0x41]) && Short([0x41])
  {
    var name: seq<Byte> := [0x41];
    assert LastDot(name) == -1;
    assert Stem(name) == name && Extension(name) == [];
  }

  lemma SomeFree(fat: seq<nat>, n: nat, c: nat)
    requires 2 <= c < n <= |fat| && fat[c] == 0
    ensures FreeBelow(fat, n) >= 1
  {
    if c < n - 1 { SomeFree(fat, n - 1, c); }
  }

  /** The file on the built image has a chain. */
  lemma SmallHasChain(a: Image, chains: map<nat, seq<nat>>)
    requires WellFormed(a, chains, CLUSTER) && Lookup(a, chains, CLUSTER, SMALL[0].name) == Some([1])
    ensures var k := ChosenSlot(a.dir, SMALL[0].name);
            k < |a.dir| && HasSlot(a.dir, SMALL[0].name) && OldChain(chains, k) != []
  {
    StoredEntry(a, chains, CLUSTER, SMALL[0].name, [1]);
  }

  /** Replacing `A` on that image by another byte succeeds, and on the way there the volume is not in order. */
  method ReplacingBreaks() returns (volume: Volume, r: Result<()>)
    ensures r == Ok(()) && volume.v == LAYOUT && volume.Valid() && Broken(LAYOUT, volume.trail, 0)
  {
    hide Accepts, GoodNames, Sound, Mirrored, ImageOf, WellFormed, Lookup, Broken, Created, SameFiles, CountFree,
         Wanted, HasSlot,
         OldChain, ChosenSlot, FirstCluster, OthersReadAlike, AlwaysConsistent, Storable, Plain, Fits83, Short;
    SmallIsAccepted();
    var built, chains := Build(SMALL);
    var image := built.value;
    LayoutSound(|image|);
    volume := new Volume(LAYOUT, image);
    ghost var a := ImageOf(LAYOUT, image);
    SmallHasChain(a, chains);
    OneWanted(a.fat);
    ghost var k, chain;
    r, k, chain := volume.Create(SMALL[0].name, [2], chains);
  }

  lemma OneWanted(fat: seq<nat>)
    requires |fat| == LAYOUT.clusters + 2 && fat[3] == 0
    ensures CountFree(fat) >= Wanted([2], CLUSTER) && Fits83(SMALL[0].name)
  {
    SomeFree(fat, |fat|, 3);
    PlainA();
    assert Needed(1, CLUSTER) == 1;
  }
}
