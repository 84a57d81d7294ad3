/** How large f12_create makes the file allocation table (src/create.c). */
module FatSectors {
  import opened Bytes
  import opened BiosParameterBlock
  import opened FatPacking
  import M = Multiplication

  /** ceil_div; a floating-point argument is cut to an integer first. */
  function CeilDiv(a: nat, b: nat): nat
    requires 0 < b
  {
    (a + b - 1) / b
  }

  function RootSectors(p: Bpb): nat
    requires 0 < p.sectorSize
  {
    CeilDiv(RootDirSize(p), p.sectorSize)
  }

  /** The sectors that are left for the file allocation tables and the data. */
  function SharedSectors(p: Bpb): int
    requires 0 < p.sectorSize
  {
    p.largeSectors - RootSectors(p) - p.reservedForBoot
  }

  /** The clusters that the shared sectors would give as data, and the two reserved entries. */
  function ClustersWithFat(shared: nat, spc: nat): nat
    requires 0 < spc
  {
    CeilDiv(shared, spc) + 2
  }

  /** A sector, and three bytes per two sectors that the tables would give as clusters, rounded down. */
  function Divisor(size: nat, fats: nat, spc: nat): (r: nat)
    requires 0 < spc
    ensures r >= size
  {
    size + M.Quotient(3 * fats, 2 * spc)
  }

  /** The sectors of a table in integers, before the result is cut to 16 bits. */
  function TableSectors(shared: nat, spc: nat, size: nat, fats: nat): nat
    requires 0 < spc && 0 < size
  {
    CeilDiv(3 * ClustersWithFat(shared, spc) / 2, Divisor(size, fats, spc))
  }

  // ----- the code, with the doubles as real numbers -----

  lemma FloorOfHalf(c: nat)
    ensures (1.5 * c as real).Floor == 3 * c / 2
  {
  }

  lemma RealDistributes(x: real, y: real, b: real)
    ensures (x - y) * b == x * b - y * b
  {
  }

  lemma RealProduct(x: real, b: real)
    requires 0.0 < x && 0.0 < b
    ensures 0.0 < x * b
  {
  }

  /** A quotient lies where its dividend does. */
  lemma RealBetween(x: real, b: real, low: real, high: real)
    requires 0.0 < b && low * b <= x < high * b
    ensures low <= x / b < high
  {
    var y := x / b;
    assert y * b == x;
    if y < low {
      RealProduct(low - y, b);
      RealDistributes(low, y, b);
    }
    if high < y {
      RealProduct(y - high, b);
      RealDistributes(y, high, b);
    }
  }

  lemma ProductAsReal(n: nat, b: nat)
    ensures (n * b) as real == n as real * b as real
  {
  }

  lemma RatioBetween(a: nat, b: nat, low: nat, high: nat)
    requires 0 < b && low * b <= a < high * b
    ensures low as real <= a as real / b as real < high as real
  {
    ProductAsReal(low, b);
    ProductAsReal(high, b);
    RealBetween(a as real, b as real, low as real, high as real);
  }

  lemma FloorOfQuotient(a: nat, b: nat)
    requires 0 < b
    ensures (a as real / b as real).Floor == M.Quotient(a, b)
  {
    var q := M.Quotient(a, b);
    M.QuotientFits(a, b);
    M.Distributes(q, 1, b);
    RatioBetween(a, b, q, q + 1);
  }

  lemma FloorOfDivisor(size: nat, fats: nat, spc: nat)
    requires 0 < size && 0 < spc
    ensures spc * size > 0
    ensures (size as real * (1.5 * fats as real / (spc * size) as real + 1.0)).Floor == Divisor(size, fats, spc)
  {
    var s, c, n := size as real, spc as real, fats as real;
    assert (spc * size) as real == c * s && c * s > 0.0;
    Cancel(1.5 * n, c, s);
    Distribute(s, 1.5 * n / (c * s));
    assert 1.5 * n / c == (3 * fats) as real / (2 * spc) as real by {
      Halves(n, c);
    }
    FloorOfQuotient(3 * fats, 2 * spc);
  }

  lemma Cancel(x: real, c: real, s: real)
    requires c > 0.0 && s > 0.0 && c * s > 0.0
    ensures s * (x / (c * s)) == x / c
  {
    var y := x / (c * s);
    assert y * (c * s) == x;
    assert (s * y) * c == x;
  }

  lemma Distribute(s: real, y: real)
    ensures s * (y + 1.0) == s * y + s
  {
  }

  lemma Halves(n: real, c: real)
    requires c > 0.0
    ensures 1.5 * n / c == (3.0 * n) / (2.0 * c)
  {
    var y := 1.5 * n / c;
    assert y * c == 1.5 * n;
    assert y * (2.0 * c) == 3.0 * n;
  }

  /** The divisor in floating point, cut to an integer. */
  method RealDivisor(size: nat, fats: nat, spc: nat) returns (divisor: nat)
    requires 0 < spc && 0 < size
    ensures divisor == Divisor(size, fats, spc)
  {
    FloorOfDivisor(size, fats, spc);
    divisor := (size as real * (1.5 * fats as real / (spc * size) as real + 1.0)).Floor;
  }

  /** The dividend in floating point, cut to an integer. */
  method RealDividend(clusters: nat) returns (dividend: nat)
    ensures dividend == 3 * clusters / 2
  {
    FloorOfHalf(clusters);
    dividend := (1.5 * clusters as real).Floor;
  }

  /** _f12_sectors_per_fat */
  method SectorsPerFat(p: Bpb) returns (fatSectors: U16)
    requires 0 < p.sectorSize && 0 < p.sectorsPerCluster && 0 <= SharedSectors(p)
    ensures fatSectors ==
            TableSectors(SharedSectors(p), p.sectorsPerCluster, p.sectorSize, p.numberOfFats) % 0x1_0000
  {
    var rootDirSectors := CeilDiv(p.rootDirEntries * 32, p.sectorSize);
    var shared := p.largeSectors - rootDirSectors - p.reservedForBoot;
    var clustersWithFat := CeilDiv(shared, p.sectorsPerCluster) + 2;
    var dividend := RealDividend(clustersWithFat);
    var divisor := RealDivisor(p.sectorSize, p.numberOfFats, p.sectorsPerCluster);
    fatSectors := CeilDiv(dividend, divisor) % 0x1_0000;
  }

  // ----- the size of the table -----

  /** The data clusters that are left when the tables take some of the shared sectors. */
  function ClustersLeft(shared: nat, tables: nat, spc: nat): nat
    requires 0 < spc && tables <= shared
  {
    (shared - tables) / spc
  }

  lemma CeilDivCovers(a: nat, b: nat)
    requires 0 < b
    ensures a <= CeilDiv(a, b) * b < a + b
  {
    var q := (a + b - 1) / b;
    assert a + b - 1 == q * b + (a + b - 1) % b;
  }

  /** Sectors given to the tables are missing as clusters. */
  lemma LostClusters(shared: nat, spc: nat, tables: nat)
    requires 0 < spc && tables <= shared
    ensures spc * ((shared - tables) / spc) + tables <= spc * CeilDiv(shared, spc)
  {
    CeilDivCovers(shared, spc);
    var d := (shared - tables) / spc;
    assert shared - tables == spc * d + (shared - tables) % spc;
  }

  /** The bytes of the clusters left and the bytes that the tables' sectors would need are in the bytes of all. */
  lemma SharedBytes(c: nat, left: nat, spc: nat, tables: nat, k: nat, f: nat)
    requires 0 < spc && spc * left + tables <= spc * (c - 2) && 2 <= c && 2 * spc * (k * f) <= 3 * tables
    ensures 3 * (left + 2) / 2 + k * f <= 3 * c / 2
  {
    var kf := k * f;
    assert spc * (3 * left + 2 * kf) <= spc * (3 * (c - 2)) by {
      assert spc * (3 * left + 2 * kf) == 3 * (spc * left) + 2 * spc * kf;
      assert spc * (3 * (c - 2)) == 3 * (spc * (c - 2));
    }
    Smaller(spc, 3 * left + 2 * kf, 3 * (c - 2));
  }

  lemma Smaller(s: nat, a: int, b: int)
    requires 0 < s && s * a <= s * b
    ensures a <= b
  {
    if b < a {
      M.Spaced(b, a, s);
    }
  }

  lemma Scaled(k: nat, s: nat, n: nat, f: nat)
    requires k * s <= n
    ensures s * (k * f) <= n * f
  {
    M.Associates(s, k, f);
    M.Distributes(k * s, n - k * s, f);
    M.NonNegative(n - k * s, f);
  }

  /** The whole quotient of 3/2 FATs per cluster sector, times the sectors of a table. */
  lemma WholePart(fats: nat, spc: nat, f: nat)
    requires 0 < spc
    ensures 2 * spc * (M.Quotient(3 * fats, 2 * spc) * f) <= 3 * (fats * f)
  {
    M.QuotientFits(3 * fats, 2 * spc);
    Scaled(M.Quotient(3 * fats, 2 * spc), 2 * spc, 3 * fats, f);
    M.Associates(3, fats, f);
  }

  lemma WithoutDivisor(f: nat, size: nat, k: nat, all: nat, needed: nat)
    requires all <= f * (size + k) && needed + k * f <= all
    ensures needed <= f * size
  {
    M.Distributes(size, k, f);
  }

  /**
   With the computed number of sectors, a table has one and a half bytes, rounded down, for each of the data
   clusters that are left and the two reserved entries: at most half a byte is missing.
   */
  lemma TableHoldsClusters(shared: nat, spc: nat, size: nat, fats: nat)
    requires 0 < spc && 0 < size
    requires fats * TableSectors(shared, spc, size, fats) <= shared
    ensures var f := TableSectors(shared, spc, size, fats);
            3 * (ClustersLeft(shared, fats * f, spc) + 2) / 2 <= f * size
  {
    var f, k := TableSectors(shared, spc, size, fats), M.Quotient(3 * fats, 2 * spc);
    var left, c := ClustersLeft(shared, fats * f, spc), ClustersWithFat(shared, spc);
    CeilDivCovers(3 * c / 2, size + k);
    LostClusters(shared, spc, fats * f);
    WholePart(fats, spc, f);
    SharedBytes(c, left, spc, fats * f, k, f);
    WithoutDivisor(f, size, k, 3 * c / 2, 3 * (left + 2) / 2);
  }

  // ----- the bound is tight, and the kept entries may need more -----

  /** The layout of floppy disks: sectors of 512 bytes, one boot sector, 224 root entries, two tables. */
  function FloppyShared(sectors: nat): nat
    requires 15 <= sectors
  {
    sectors - CeilDiv(224 * 32, 512) - 1
  }

  /** With 700 sectors the last entry misses its half byte. */
  lemma BoundIsTight()
    ensures TableSectors(FloppyShared(700), 1, 512, 2) == 2 && ClustersLeft(FloppyShared(700), 2 * 2, 1) == 681
    ensures 3 * (681 + 2) / 2 == 2 * 512 < PackedSize(681 + 2)
  {
    assert FloppyShared(700) == 685 && M.Quotient(6, 2) == 3;
    assert ClustersWithFat(685, 1) == 687 && Divisor(512, 2, 1) == 515;
    assert CeilDiv(1030, 515) == 2;
  }

  /** With 2400 sectors the table is too small for the entries that create_fat packs: it stores past the end. */
  lemma KeptEntriesOverrun()
    ensures TableSectors(FloppyShared(2400), 1, 512, 2) == 7
    ensures !(forall i: nat :: i < 2400 ==> EntryOffset(i) + 2 <= 7 * 512)
  {
    StoresInBounds(2400, 7 * 512);
  }
}
