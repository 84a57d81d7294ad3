/**
 The BIOS parameter block (section "Boot Sector and BPB" of fatgen103), its 59 bytes on the image and
 the byte ranges it describes.
 */
module BiosParameterBlock {
  import opened Bytes
  import opened Disks
  import M = Multiplication

  type Label8 = s: seq<Byte> | |s| == 8 witness [0, 0, 0, 0, 0, 0, 0, 0]
  type Label11 = s: seq<Byte> | |s| == 11 witness [0, 0, 0, 0, 0, 0, 0, 0, 0, 0, 0]

  datatype Bpb = Bpb(
    oemLabel: Label8,
    sectorSize: U16,
    sectorsPerCluster: Byte,
    reservedForBoot: U16,
    numberOfFats: Byte,
    rootDirEntries: U16,
    logicalSectors: U16,
    mediumByte: Byte,
    sectorsPerFat: U16,
    sectorsPerTrack: U16,
    numberOfHeads: U16,
    hiddenSectors: U32,
    largeSectors: U32,
    driveNumber: Byte,
    flags: Byte,
    signature: Byte,
    volumeId: U32,
    volumeLabel: Label11,
    fileSystem: Label8)

  const BPB_OFFSET: nat := 3
  const BPB_SIZE: nat := 59

  // ----- packing -----

  function EncodeGeometry(p: Bpb): (b: seq<Byte>)
    ensures |b| == 17
  {
    Le16(p.sectorSize) + [p.sectorsPerCluster] + Le16(p.reservedForBoot) + [p.numberOfFats] +
    Le16(p.rootDirEntries) + Le16(p.logicalSectors) + [p.mediumByte] + Le16(p.sectorsPerFat) +
    Le16(p.sectorsPerTrack) + Le16(p.numberOfHeads)
  }

  function EncodeDrive(p: Bpb): (b: seq<Byte>)
    ensures |b| == 15
  {
    Le32(p.hiddenSectors) + Le32(p.largeSectors) + [p.driveNumber, p.flags, p.signature] + Le32(p.volumeId)
  }

  /** The buffer that write_bpb fills. */
  function EncodeBpb(p: Bpb): (b: seq<Byte>)
    ensures |b| == BPB_SIZE
  {
    p.oemLabel + EncodeGeometry(p) + EncodeDrive(p) + p.volumeLabel + p.fileSystem
  }

  /** What read_bpb takes out of such a buffer. */
  function DecodeBpb(b: seq<Byte>): Bpb
    requires |b| == BPB_SIZE
  {
    Bpb(b[..8], U16At(b, 8), b[10], U16At(b, 11), b[13], U16At(b, 14), U16At(b, 16), b[18], U16At(b, 19),
        U16At(b, 21), U16At(b, 23), U32At(b, 25), U32At(b, 29), b[33], b[34], b[35], U32At(b, 36),
        b[40..51], b[51..59])
  }

  lemma BpbRoundTrip(p: Bpb)
    ensures DecodeBpb(EncodeBpb(p)) == p
  {
    var b := EncodeBpb(p);
    assert b[..8] == p.oemLabel;
    assert b[40..51] == p.volumeLabel;
    assert b[51..59] == p.fileSystem;
    GeometryPart(p, b);
    DrivePart(p, b);
  }

  lemma GeometryPart(p: Bpb, b: seq<Byte>)
    requires |b| == BPB_SIZE && b[8..25] == EncodeGeometry(p)
    ensures U16At(b, 8) == p.sectorSize && b[10] == p.sectorsPerCluster && U16At(b, 11) == p.reservedForBoot
    ensures b[13] == p.numberOfFats && U16At(b, 14) == p.rootDirEntries && U16At(b, 16) == p.logicalSectors
    ensures b[18] == p.mediumByte && U16At(b, 19) == p.sectorsPerFat && U16At(b, 21) == p.sectorsPerTrack
    ensures U16At(b, 23) == p.numberOfHeads
  {
    var g := EncodeGeometry(p);
    assert forall i :: 0 <= i < 17 ==> b[8 + i] == g[i];
    assert g[0..2] == Le16(p.sectorSize) && g[3..5] == Le16(p.reservedForBoot);
    assert g[6..8] == Le16(p.rootDirEntries) && g[8..10] == Le16(p.logicalSectors);
    assert g[11..13] == Le16(p.sectorsPerFat) && g[13..15] == Le16(p.sectorsPerTrack);
    assert g[15..17] == Le16(p.numberOfHeads);
  }

  lemma DrivePart(p: Bpb, b: seq<Byte>)
    requires |b| == BPB_SIZE && b[25..40] == EncodeDrive(p)
    ensures U32At(b, 25) == p.hiddenSectors && U32At(b, 29) == p.largeSectors && U32At(b, 36) == p.volumeId
    ensures b[33] == p.driveNumber && b[34] == p.flags && b[35] == p.signature
  {
    var d := EncodeDrive(p);
    assert forall i :: 0 <= i < 15 ==> b[25 + i] == d[i];
    Le32RoundTrip([], p.hiddenSectors, d[4..]);
    Le32RoundTrip(d[..4], p.largeSectors, d[8..]);
    Le32RoundTrip(d[..11], p.volumeId, []);
    assert d == [] + Le32(p.hiddenSectors) + d[4..];
    assert d == d[..4] + Le32(p.largeSectors) + d[8..];
    assert d == d[..11] + Le32(p.volumeId) + [];
  }

  // ----- byte ranges -----

  // Products and quotients of the layout are kept in recursive form, so that the proofs that use them stay linear;
  // the three lemmas below give them as the source has them.

  function ClusterSize(p: Bpb): nat {
    Span(p.sectorsPerCluster, p.sectorSize)
  }

  function FatOffset(p: Bpb): nat {
    Span(p.reservedForBoot, p.sectorSize)
  }

  function FatSize(p: Bpb): nat {
    Span(p.sectorsPerFat, p.sectorSize)
  }

  function RootDirOffset(p: Bpb): nat {
    Span(Span(p.numberOfFats, p.sectorsPerFat) + p.reservedForBoot, p.sectorSize)
  }

  function RootDirSize(p: Bpb): nat {
    32 * p.rootDirEntries
  }

  /** Number of FAT entries that are kept on the image. */
  function FatEntries(p: Bpb): nat
    requires p.sectorsPerCluster > 0
  {
    M.Quotient(p.logicalSectors, p.sectorsPerCluster)
  }

  lemma SizesAreProducts(p: Bpb)
    ensures ClusterSize(p) == p.sectorSize * p.sectorsPerCluster
    ensures FatOffset(p) == p.sectorSize * p.reservedForBoot
    ensures FatSize(p) == p.sectorsPerFat * p.sectorSize
    ensures ImageSize(p) == p.logicalSectors * p.sectorSize
  {
    SpanIsProduct(p.sectorsPerCluster, p.sectorSize);
    SpanIsProduct(p.reservedForBoot, p.sectorSize);
    SpanIsProduct(p.sectorsPerFat, p.sectorSize);
    SpanIsProduct(p.logicalSectors, p.sectorSize);
  }

  lemma RootOffsetIsProduct(p: Bpb)
    ensures RootDirOffset(p) == p.sectorSize * (p.numberOfFats * p.sectorsPerFat + p.reservedForBoot)
  {
    var n := Span(p.numberOfFats, p.sectorsPerFat);
    SpanIsProduct(p.numberOfFats, p.sectorsPerFat);
    assert n == p.numberOfFats * p.sectorsPerFat;
    SpanIsProduct(n + p.reservedForBoot, p.sectorSize);
  }

  lemma EntriesAreQuotient(p: Bpb)
    requires p.sectorsPerCluster > 0
    ensures FatEntries(p) == p.logicalSectors / p.sectorsPerCluster
  {
    M.QuotientIsDivision(p.logicalSectors, p.sectorsPerCluster);
  }

  /** _lf12_cluster_offset: sector arithmetic that rounds the root directory down to sectors. */
  function ClusterOffset(p: Bpb, cluster: int): int
    requires p.sectorSize > 0
  {
    ((cluster - 2) * p.sectorsPerCluster + p.rootDirEntries * 32 / p.sectorSize) * p.sectorSize + RootDirOffset(p)
  }

  /** First byte after the root directory. */
  function DataStart(p: Bpb): nat {
    RootDirOffset(p) + RootDirSize(p)
  }

  function ImageSize(p: Bpb): nat {
    Span(p.logicalSectors, p.sectorSize)
  }

  /** Number of whole clusters in the data area. */
  function DataClusters(p: Bpb): nat
    requires ClusterSize(p) > 0 && DataStart(p) <= ImageSize(p)
  {
    M.Quotient(ImageSize(p) - DataStart(p), ClusterSize(p))
  }

  /** Data clusters are numbered 2 up to, not including, this limit. */
  function Limit(p: Bpb): nat
    requires ClusterSize(p) > 0 && DataStart(p) <= ImageSize(p)
  {
    DataClusters(p) + 2
  }

  /**
   A layout that the code handles: sectors hold whole directory entries, the root directory fills whole
   sectors, a cluster size fits 16 bits, the reserved area holds the parameter block, there is a FAT, cluster
   numbers fit 12 bits, all kept FAT entries fit the FAT, and every data cluster has a kept FAT entry.
   */
  ghost predicate Sound(p: Bpb) {
    && 0 < p.sectorSize && p.sectorSize % 32 == 0 && 0 < p.sectorsPerCluster
    && ClusterSize(p) < 0x1_0000
    && RootDirSize(p) % p.sectorSize == 0
    && BPB_OFFSET + BPB_SIZE <= FatOffset(p)
    && 0 < p.numberOfFats
    && 2 <= FatEntries(p) && FatEntries(p) + 2 <= 0xfff
    && (3 * FatEntries(p) + 1) / 2 <= FatSize(p)
    && 0 < ClusterSize(p)
    && DataStart(p) <= ImageSize(p)
    && Limit(p) <= FatEntries(p)
  }

  lemma FatAreaSize(p: Bpb)
    ensures RootDirOffset(p) == FatOffset(p) + p.numberOfFats * FatSize(p)
  {
    SpanAdds(Span(p.numberOfFats, p.sectorsPerFat), p.reservedForBoot, p.sectorSize);
    SpanOfSpan(p.numberOfFats, p.sectorsPerFat, p.sectorSize);
    SpanIsProduct(p.numberOfFats, FatSize(p));
  }

  /** The areas that the parameter block describes. */
  function Areas(p: Bpb): Geometry
    requires ClusterSize(p) > 0 && DataStart(p) <= ImageSize(p)
  {
    Geometry(FatOffset(p), RootDirOffset(p), DataStart(p), ClusterSize(p), DataClusters(p))
  }

  /** The areas of a sound layout follow each other in order and end inside the image. */
  lemma AreasFit(p: Bpb, b: seq<Byte>)
    requires Sound(p) && ImageSize(p) <= |b|
    ensures Holds(Areas(p), b)
  {
    FatAreaSize(p);
    M.NonNegative(p.numberOfFats, FatSize(p));
    SpanIsProduct(DataClusters(p), ClusterSize(p));
    M.QuotientFits(ImageSize(p) - DataStart(p), ClusterSize(p));
  }

  /** A root directory of whole sectors is as large as its sectors. */
  lemma WholeRootSectors(size: nat, z: nat)
    requires 0 < z && size % z == 0
    ensures size / z * z == size
  {
  }

  lemma SectorsOfClusters(n: nat, spc: nat, q: nat, z: nat)
    ensures (n * spc + q) * z == Span(n, Span(spc, z)) + q * z
  {
    SpanIsProduct(spc, z);
    SpanIsProduct(n, Span(spc, z));
    M.Associates(n, spc, z);
    M.Distributes(n * spc, q, z);
  }

  /** The sector arithmetic of the code addresses cluster `c` of the data area. */
  lemma OffsetIsClusterStart(p: Bpb, c: int)
    requires Sound(p) && 2 <= c
    ensures ClusterOffset(p, c) == ClusterStart(Areas(p), c - 2)
  {
    SectorsOfClusters(c - 2, p.sectorsPerCluster, p.rootDirEntries * 32 / p.sectorSize, p.sectorSize);
    WholeRootSectors(p.rootDirEntries * 32, p.sectorSize);
  }

  lemma Cut(size: nat, z: nat)
    requires 0 < z
    ensures size / z * z + size % z == size
  {
  }

  /**
   The code puts the first data cluster right behind the root directory if the latter fills whole sectors, and
   otherwise onto its end.
   */
  lemma RootGap(p: Bpb)
    requires 0 < p.sectorSize
    ensures ClusterOffset(p, 2) + RootDirSize(p) % p.sectorSize == DataStart(p)
  {
    Cut(p.rootDirEntries * 32, p.sectorSize);
  }

  /** First byte of copy `k` of the FAT. */
  function FatCopyOffset(p: Bpb, k: nat): nat {
    FatOffset(p) + k * FatSize(p)
  }

  /** The FAT copies follow the boot area one after the other, and the root directory follows them. */
  lemma FatLayout(p: Bpb, k: nat)
    requires k < p.numberOfFats
    ensures FatOffset(p) <= FatCopyOffset(p, k)
    ensures FatCopyOffset(p, k) + FatSize(p) == FatCopyOffset(p, k + 1) <= RootDirOffset(p)
  {
    FatAreaSize(p);
    var f := FatSize(p);
    M.Distributes(k, 1, f);
    M.Spaced(k, p.numberOfFats, f);
    M.NonNegative(k, f);
  }

  /** The FAT copies fill the area between the boot area and the root directory. */
  lemma FatAreaSpan(p: Bpb)
    ensures Span(p.numberOfFats, FatSize(p)) == RootDirOffset(p) - FatOffset(p)
  {
    FatAreaSize(p);
    SpanIsProduct(p.numberOfFats, FatSize(p));
  }

  /** Data cluster `c` lies between the root directory and the end of the image. */
  lemma ClusterInImage(p: Bpb, c: nat)
    requires Sound(p) && 2 <= c < Limit(p)
    ensures RootDirOffset(p) + RootDirSize(p) <= ClusterOffset(p, c)
    ensures ClusterOffset(p, c) + ClusterSize(p) <= ImageSize(p)
  {
    OffsetIsClusterStart(p, c);
    SpanIsProduct(c - 2, ClusterSize(p));
    M.BlockFits(c - 2, ClusterSize(p), ImageSize(p) - DataStart(p));
  }

  /** Data clusters do not overlap. */
  lemma ClustersApart(p: Bpb, c: nat, c': nat)
    requires Sound(p) && 2 <= c < c'
    ensures ClusterOffset(p, c) + ClusterSize(p) <= ClusterOffset(p, c')
  {
    OffsetIsClusterStart(p, c);
    OffsetIsClusterStart(p, c');
    SpanGrows(c - 2, c' - 2, ClusterSize(p));
  }
}
