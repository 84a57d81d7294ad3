/** The layouts that f12_create chooses by the size of the image (src/create.c). */
module Layouts {
  import opened Bytes
  import opened BiosParameterBlock
  import opened FatSectors
  import M = Multiplication

  /** Sector size, sectors per cluster, root entries, sectors of the image and sectors of a table. */
  datatype Preset = Preset(sectorSize: U16, sectorsPerCluster: Byte, rootDirEntries: U16, sectors: U16, sectorsPerFat: U16)

  /**
   The switch of _f12_initialize_bpb, where the case of 640 falls through to the next, with the two numbers that are
   computed afterwards, see PresetNumbers.
   */
  function PresetOf(kib: nat): Preset
    requires HasPreset(kib)
  {
    if kib == 2880 then Preset(512, 2, 512, 5760, 9)
    else if kib == 1440 then Preset(512, 1, 224, 2880, 9)
    else if kib == 1232 then Preset(1024, 1, 224, 1232, 2)
    else if kib == 1200 then Preset(512, 1, 224, 2400, 7)
    else if kib == 720 then Preset(512, 2, 112, 1440, 3)
    else if kib == 640 then Preset(512, 2, 112, 1280, 2)
    else if kib == 360 then Preset(512, 2, 112, 720, 2)
    else if kib == 320 then Preset(2048, 1, 48, 160, 1)
    else if kib == 180 then Preset(512, 1, 48, 360, 2)
    else Preset(512, 1, 16, 320, 1)
  }

  /** The sizes that have a layout of their own. */
  predicate HasPreset(kib: nat) {
    kib in {2880, 1440, 1232, 1200, 720, 640, 360, 320, 180, 160}
  }

  lemma CeilDivBetween(a: nat, b: nat, q: nat)
    requires 0 < b && a <= q * b && q * b < a + b
    ensures CeilDiv(a, b) == q
  {
    CeilDivCovers(a, b);
    var r := CeilDiv(a, b);
    if q < r {
      M.Spaced(q, r, b);
    } else if r < q {
      M.Spaced(r, q, b);
    }
  }

  /** The sectors of a table from the intermediate results of _f12_sectors_per_fat. */
  lemma TableNumber(shared: nat, spc: nat, size: nat, k: nat, clusters: nat, all: nat, f: nat)
    requires 0 < spc && 0 < size && k == M.Quotient(6, 2 * spc)
    requires shared <= clusters * spc < shared + spc && all == 3 * (clusters + 2) / 2
    requires all <= f * (size + k) < all + size + k
    ensures TableSectors(shared, spc, size, 2) == f
  {
    CeilDivBetween(shared, spc, clusters);
    CeilDivBetween(all, size + k, f);
  }

  /** What f12_create computes for a size: the sectors of the image and those of a table. */
  ghost predicate NumbersOf(kib: nat, d: Preset) {
    && 0 < d.sectorSize && 0 < d.sectorsPerCluster && d.sectors == kib * 1024 / d.sectorSize
    && var shared := d.sectors - CeilDiv(32 * d.rootDirEntries, d.sectorSize) - 1;
       0 <= shared && d.sectorsPerFat == TableSectors(shared, d.sectorsPerCluster, d.sectorSize, 2)
  }

  lemma NumbersFrom(kib: nat, d: Preset, roots: nat, k: nat, clusters: nat, all: nat)
    requires 0 < d.sectorSize && 0 < d.sectorsPerCluster && kib * 1024 == d.sectors * d.sectorSize
    requires 32 * d.rootDirEntries <= roots * d.sectorSize < 32 * d.rootDirEntries + d.sectorSize
    requires k == M.Quotient(6, 2 * d.sectorsPerCluster) && roots + 1 <= d.sectors
    requires d.sectors - roots - 1 <= clusters * d.sectorsPerCluster < d.sectors - roots - 1 + d.sectorsPerCluster
    requires all == 3 * (clusters + 2) / 2
    requires all <= d.sectorsPerFat * (d.sectorSize + k) < all + d.sectorSize + k
    ensures NumbersOf(kib, d)
  {
    CeilDivBetween(32 * d.rootDirEntries, d.sectorSize, roots);
    TableNumber(d.sectors - roots - 1, d.sectorsPerCluster, d.sectorSize, k, clusters, all, d.sectorsPerFat);
    M.QuotientIsDivision(kib * 1024, d.sectorSize);
    Divides(d.sectors, d.sectorSize);
  }

  lemma Divides(q: nat, b: nat)
    requires 0 < b
    ensures M.Quotient(q * b, b) == q
  {
    var r := M.Quotient(q * b, b);
    M.QuotientFits(q * b, b);
    if r < q {
      M.Spaced(r, q, b);
    } else if q < r {
      M.Spaced(q, r, b);
    }
  }

  lemma HalfClusters()
    ensures M.Quotient(6, 2) == 3 && M.Quotient(6, 4) == 1
  {
  }

  lemma Numbers2880(d: Preset)
    requires d == Preset(512, 2, 512, 5760, 9)
    ensures NumbersOf(2880, d)
  {
    HalfClusters();
    NumbersFrom(2880, d, 32, 1, 2864, 4299);
  }

  lemma Numbers1440(d: Preset)
    requires d == Preset(512, 1, 224, 2880, 9)
    ensures NumbersOf(1440, d)
  {
    HalfClusters();
    NumbersFrom(1440, d, 14, 3, 2865, 4300);
  }

  lemma Numbers1232(d: Preset)
    requires d == Preset(1024, 1, 224, 1232, 2)
    ensures NumbersOf(1232, d)
  {
    HalfClusters();
    NumbersFrom(1232, d, 7, 3, 1224, 1839);
  }

  lemma Numbers1200(d: Preset)
    requires d == Preset(512, 1, 224, 2400, 7)
    ensures NumbersOf(1200, d)
  {
    HalfClusters();
    NumbersFrom(1200, d, 14, 3, 2385, 3580);
  }

  lemma Numbers720(d: Preset)
    requires d == Preset(512, 2, 112, 1440, 3)
    ensures NumbersOf(720, d)
  {
    HalfClusters();
    NumbersFrom(720, d, 7, 1, 716, 1077);
  }

  lemma Numbers640(d: Preset)
    requires d == Preset(512, 2, 112, 1280, 2)
    ensures NumbersOf(640, d)
  {
    HalfClusters();
    NumbersFrom(640, d, 7, 1, 636, 957);
  }

  lemma Numbers360(d: Preset)
    requires d == Preset(512, 2, 112, 720, 2)
    ensures NumbersOf(360, d)
  {
    HalfClusters();
    NumbersFrom(360, d, 7, 1, 356, 537);
  }

  lemma Numbers320(d: Preset)
    requires d == Preset(2048, 1, 48, 160, 1)
    ensures NumbersOf(320, d)
  {
    HalfClusters();
    NumbersFrom(320, d, 1, 3, 158, 240);
  }

  lemma Numbers180(d: Preset)
    requires d == Preset(512, 1, 48, 360, 2)
    ensures NumbersOf(180, d)
  {
    HalfClusters();
    NumbersFrom(180, d, 3, 3, 356, 537);
  }

  lemma Numbers160(d: Preset)
    requires d == Preset(512, 1, 16, 320, 1)
    ensures NumbersOf(160, d)
  {
    HalfClusters();
    NumbersFrom(160, d, 1, 3, 318, 480);
  }

  /** The two computed numbers are those of f12_create. */
  lemma PresetNumbers(kib: nat)
    requires HasPreset(kib)
    ensures NumbersOf(kib, PresetOf(kib))
  {
    if kib == 2880 {
      Numbers2880(PresetOf(2880));
    } else if kib == 1440 {
      Numbers1440(PresetOf(1440));
    } else if kib == 1232 {
      Numbers1232(PresetOf(1232));
    } else if kib == 1200 {
      Numbers1200(PresetOf(1200));
    } else if kib == 720 {
      Numbers720(PresetOf(720));
    } else if kib == 640 {
      Numbers640(PresetOf(640));
    } else if kib == 360 {
      Numbers360(PresetOf(360));
    } else if kib == 320 {
      Numbers320(PresetOf(320));
    } else if kib == 180 {
      Numbers180(PresetOf(180));
    } else {
      Numbers160(PresetOf(160));
    }
  }

  /** The layout that _f12_initialize_bpb sets for a size without further options. */
  predicate LaidOut(p: Bpb, d: Preset) {
    && p.sectorSize == d.sectorSize && p.sectorsPerCluster == d.sectorsPerCluster
    && p.rootDirEntries == d.rootDirEntries && p.reservedForBoot == 1 && p.numberOfFats == 2
    && p.logicalSectors == d.sectors && p.largeSectors == d.sectors && p.sectorsPerFat == d.sectorsPerFat
  }

  /** The number of sectors of a table is the one that _f12_sectors_per_fat computes from the other fields. */
  lemma TableIsComputed(p: Bpb, kib: nat)
    requires HasPreset(kib) && LaidOut(p, PresetOf(kib))
    ensures 0 < p.sectorSize && 0 < p.sectorsPerCluster && 0 <= SharedSectors(p)
    ensures p.sectorsPerFat == TableSectors(SharedSectors(p), p.sectorsPerCluster, p.sectorSize, 2)
  {
    PresetNumbers(kib);
  }

  /** The sizes of a layout from its numbers. */
  lemma SizesFrom(p: Bpb, s: nat, f: nat, z: nat, spc: nat)
    requires p.logicalSectors == s && p.sectorsPerFat == f && p.sectorSize == z && p.sectorsPerCluster == spc > 0
    requires p.reservedForBoot == 1 && p.numberOfFats == 2
    ensures ClusterSize(p) == z * spc && FatOffset(p) == z && FatSize(p) == f * z
    ensures RootDirOffset(p) == z * (2 * f + 1) && FatEntries(p) == s / spc && ImageSize(p) == s * z
  {
    SizesAreProducts(p);
    RootOffsetIsProduct(p);
    EntriesAreQuotient(p);
  }

  lemma ClustersFrom(p: Bpb, area: nat, cluster: nat)
    requires 0 < cluster == ClusterSize(p) && DataStart(p) <= ImageSize(p) && ImageSize(p) - DataStart(p) == area
    ensures Limit(p) == area / cluster + 2
  {
    M.QuotientIsDivision(area, cluster);
  }

  lemma Sound2880(p: Bpb)
    requires LaidOut(p, Preset(512, 2, 512, 5760, 9))
    ensures Sound(p)
  {
    SizesFrom(p, 5760, 9, 512, 2);
    ClustersFrom(p, 2923008, 1024);
  }

  lemma Sound1440(p: Bpb)
    requires LaidOut(p, Preset(512, 1, 224, 2880, 9))
    ensures Sound(p)
  {
    SizesFrom(p, 2880, 9, 512, 1);
    ClustersFrom(p, 1457664, 512);
  }

  lemma Sound1232(p: Bpb)
    requires LaidOut(p, Preset(1024, 1, 224, 1232, 2))
    ensures Sound(p)
  {
    SizesFrom(p, 1232, 2, 1024, 1);
    ClustersFrom(p, 1249280, 1024);
  }

  lemma Sound720(p: Bpb)
    requires LaidOut(p, Preset(512, 2, 112, 1440, 3))
    ensures Sound(p)
  {
    SizesFrom(p, 1440, 3, 512, 2);
    ClustersFrom(p, 730112, 1024);
  }

  lemma Sound640(p: Bpb)
    requires LaidOut(p, Preset(512, 2, 112, 1280, 2))
    ensures Sound(p)
  {
    SizesFrom(p, 1280, 2, 512, 2);
    ClustersFrom(p, 649216, 1024);
  }

  lemma Sound360(p: Bpb)
    requires LaidOut(p, Preset(512, 2, 112, 720, 2))
    ensures Sound(p)
  {
    SizesFrom(p, 720, 2, 512, 2);
    ClustersFrom(p, 362496, 1024);
  }

  lemma Sound180(p: Bpb)
    requires LaidOut(p, Preset(512, 1, 48, 360, 2))
    ensures Sound(p)
  {
    SizesFrom(p, 360, 2, 512, 1);
    ClustersFrom(p, 180224, 512);
  }

  lemma Sound160(p: Bpb)
    requires LaidOut(p, Preset(512, 1, 16, 320, 1))
    ensures Sound(p)
  {
    SizesFrom(p, 320, 1, 512, 1);
    ClustersFrom(p, 161792, 512);
  }

  lemma Overrun1200(p: Bpb)
    requires LaidOut(p, Preset(512, 1, 224, 2400, 7))
    ensures FatSize(p) < (3 * FatEntries(p) + 1) / 2
  {
    SizesFrom(p, 2400, 7, 512, 1);
  }

  /** For 320 KiB the offsets of the code put the first data cluster onto the root directory. */
  lemma Overlap320(p: Bpb)
    requires LaidOut(p, PresetOf(320))
    ensures ClusterOffset(p, 2) == RootDirOffset(p) < DataStart(p)
  {
    RootGap(p);
  }

  /**
   Every size with a layout of its own gets a sound one, except two: for 1200 KiB the kept entries overrun the
   table, and for 320 KiB the root directory ends inside a sector.
   */
  lemma PresetsSound(p: Bpb, kib: nat)
    requires HasPreset(kib) && LaidOut(p, PresetOf(kib))
    ensures Sound(p) <==> kib != 1200 && kib != 320
  {
    if kib == 2880 {
      Sound2880(p);
    } else if kib == 1440 {
      Sound1440(p);
    } else if kib == 1232 {
      Sound1232(p);
    } else if kib == 1200 {
      Overrun1200(p);
    } else if kib == 720 {
      Sound720(p);
    } else if kib == 640 {
      Sound640(p);
    } else if kib == 360 {
      Sound360(p);
    } else if kib == 320 {
      Overlap320(p);
      RootGap(p);
    } else if kib == 180 {
      Sound180(p);
    } else {
      Sound160(p);
    }
  }
}
