/** Recognising a FAT16 volume by its first sector. */
module FatMount {
  import opened Basics
  import opened FatNames
  import opened FatVolume

  datatype Refusal = NotABootSector | SectorSize | ClusterSize | ZeroField | NoDataRegion | NotFat16

  datatype MountResult = Accepted(v: Geometry) | Refused(why: Refusal)

  predicate PowerOfTwo(n: nat) { n in {1, 2, 4, 8, 16, 32, 64, 128} }

  /** Sectors of the volume, from the 16-bit field or, when that is zero, the 32-bit one. */
  function TotalSectors(s: seq<Byte>): nat
    requires |s| == 512
  {
    if U16(s, 19) == 0 then U32(s, 32) else U16(s, 19)
  }

  /** The volume a boot sector describes: regions one after the other, and as many whole clusters as fit. */
  predicate Describes(s: seq<Byte>, v: Geometry)
    requires |s| == 512
  {
    && v.sectorsPerCluster == s[13] && v.fatCount == s[16] && v.fatStart == U16(s, 14)
    && v.sectorsPerFat == U16(s, 22) && v.rootEntries == U16(s, 17)
    && v.rootStart == v.fatStart + v.fatCount * v.sectorsPerFat
    && v.dataStart == v.rootStart + RootSectors(v.rootEntries)
    && v.dataStart + v.clusters * v.sectorsPerCluster <= TotalSectors(s)
    && TotalSectors(s) < v.dataStart + (v.clusters + 1) * v.sectorsPerCluster
  }

  function DataStart(s: seq<Byte>): nat
    requires |s| == 512
  {
    RootStart(s) + RootSectors(U16(s, 17))
  }

  function RootStart(s: seq<Byte>): nat
    requires |s| == 512
  {
    var copies: nat, sectors: nat := s[16], U16(s, 22);
    U16(s, 14) + copies * sectors
  }

  /** The only volume a boot sector can describe. */
  function Derived(s: seq<Byte>, clusters: nat): Geometry
    requires |s| == 512
  {
    Geometry(s[13], s[16], U16(s, 14), U16(s, 22), RootStart(s), U16(s, 17), DataStart(s), clusters)
  }

  /** How many runs of `n` fit in `total`. */
  function Whole(total: nat, n: nat): nat
    requires n > 0
  {
    total / n
  }

  lemma DescribedIsDerived(s: seq<Byte>, v: Geometry)
    requires |s| == 512 && s[13] > 0 && Describes(s, v)
    ensures DataStart(s) <= TotalSectors(s) && v == Derived(s, Whole(TotalSectors(s) - DataStart(s), s[13]))
    ensures v.clusters > 0 ==> DataStart(s) < TotalSectors(s)
  {
    hide RootSectors, TotalSectors, U16, Whole, RootStart;
    ClustersFit(TotalSectors(s), v.dataStart, v.sectorsPerCluster, v.clusters);
    SameRegions(s, v);
  }

  lemma SameRegions(s: seq<Byte>, v: Geometry)
    requires |s| == 512 && Describes(s, v)
    ensures v == Derived(s, v.clusters)
  {
    hide RootSectors, TotalSectors, U16;
    assert v.fatCount * v.sectorsPerFat == RootStart(s) - U16(s, 14);
  }

  lemma ClustersFit(total: nat, start: nat, n: nat, c: nat)
    requires n > 0 && start + c * n <= total < start + (c + 1) * n
    ensures start <= total && c == Whole(total - start, n) && (c > 0 ==> start < total)
  {
    assert c * n >= 0;
    WholeClustersAre(total - start, n, c);
    if c > 0 { MulStep(0, c, n); }
  }

  lemma DerivedIsDescribed(s: seq<Byte>)
    requires |s| == 512 && s[13] > 0 && DataStart(s) <= TotalSectors(s)
    ensures Describes(s, Derived(s, Whole(TotalSectors(s) - DataStart(s), s[13])))
  {
    hide RootSectors, TotalSectors;
    WholeClusters(TotalSectors(s) - DataStart(s), s[13]);
  }

  method Mount(sector: seq<Byte>) returns (r: MountResult)
    requires |sector| == 512
    ensures r.Accepted? ==> Describes(sector, r.v) && Mounted(r.v) && PowerOfTwo(r.v.sectorsPerCluster)
    ensures r.Accepted? ==> sector[510] == 0x55 && sector[511] == 0xAA && U16(sector, 11) == 512
    ensures forall v | Describes(sector, v) && Mounted(v) && PowerOfTwo(v.sectorsPerCluster)
                       && sector[510] == 0x55 && sector[511] == 0xAA && U16(sector, 11) == 512 :: r == Accepted(v)
    ensures r == Refused(NotABootSector) <==> sector[510] != 0x55 || sector[511] != 0xAA
    ensures r == Refused(NotFat16) ==> forall v | Describes(sector, v) :: !(4085 <= v.clusters < 65525)
  {
    hide TotalSectors, RootSectors, U16;
    if sector[510] != 0x55 || sector[511] != 0xAA {
      return Refused(NotABootSector);
    }
    if U16(sector, 11) != 512 {
      return Refused(SectorSize);
    }
    var sectorsPerCluster: nat := sector[13];
    if !PowerOfTwo(sectorsPerCluster) {
      return Refused(ClusterSize);
    }
    forall v | Describes(sector, v)
      ensures DataStart(sector) <= TotalSectors(sector)
              && v == Derived(sector, Whole(TotalSectors(sector) - DataStart(sector), sector[13]))
      ensures v.clusters > 0 ==> DataStart(sector) < TotalSectors(sector)
    {
      DescribedIsDerived(sector, v);
    }
    var reserved, fatCount: nat, rootEntries, sectorsPerFat := U16(sector, 14), sector[16], U16(sector, 17),
      U16(sector, 22);
    var totalSectors := TotalSectors(sector);
    if reserved == 0 || fatCount == 0 || sectorsPerFat == 0 || totalSectors == 0 {
      return Refused(ZeroField);
    }
    var fatStart := reserved;
    var rootStart := fatStart + fatCount * sectorsPerFat;
    var dataStart := rootStart + RootSectors(rootEntries);
    if dataStart >= totalSectors {
      return Refused(NoDataRegion);
    }
    var clusters := (totalSectors - dataStart) / sectorsPerCluster;
    DerivedIsDescribed(sector);
    hide Describes;
    if !(4085 <= clusters < 65525) {
      return Refused(NotFat16);
    }
    return Accepted(Geometry(sectorsPerCluster, fatCount, fatStart, sectorsPerFat, rootStart, rootEntries, dataStart,
                             clusters));
  }

  lemma WholeClusters(total: nat, n: nat)
    requires n > 0
    ensures total / n * n <= total < (total / n + 1) * n
  {
    assert total == total / n * n + total % n;
  }

  lemma WholeClustersAre(total: nat, n: nat, c: nat)
    requires n > 0 && c * n <= total < (c + 1) * n
    ensures c == total / n
  {
    var q := total / n;
    WholeClusters(total, n);
    if c < q { MulStep(c, q, n); }
    if q < c { MulStep(q, c, n); }
  }
}
