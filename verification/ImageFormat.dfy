/**
 Where an image holds what: positions counted from the beginning of the image file, with the numbers of fatgen103
 (sections "Boot Sector and BPB", "FAT Data Structure" and "FAT Directory Structure").
 */
module ImageFormat {
  import opened Bytes
  import opened Records
  import opened Options
  import opened BiosParameterBlock
  import opened Fat
  import opened FatPacking
  import opened Disks
  import opened ChainIo
  import opened Trees
  import opened Volumes
  import opened Files
  import opened Contents
  import opened Runs
  import opened MetadataIo
  import DT = DirectoryTables
  import M = Multiplication

  /** The image file `b` stores the metadata `v`. */
  ghost predicate StoredIn(b: seq<Byte>, v: Volume) {
    VolumeSound(v) && Mounted(v.bpb, b) && ReadsVolume(View(Areas(v.bpb), b), v)
  }

  // ----- little-endian numbers -----

  /** Two bytes from `i` on hold `x`, the lower first. */
  predicate Word(b: seq<Byte>, i: nat, x: int) {
    i + 2 <= |b| && x == b[i] as int + b[i + 1] as int * 0x100
  }

  /** Four bytes from `i` on hold `x`, the lowest first. */
  predicate Long(b: seq<Byte>, i: nat, x: int) {
    i + 4 <= |b| && x == b[i] as int + b[i + 1] as int * 0x100 + b[i + 2] as int * 0x1_0000 + b[i + 3] as int * 0x100_0000
  }

  // ----- the parameter block -----

  /** The fields of a parameter block in bytes 3 to 61 of an image file. */
  ghost predicate HoldsBpb(b: seq<Byte>, p: Bpb) {
    && 62 <= |b|
    && b[3..11] == p.oemLabel
    && Word(b, 11, p.sectorSize) && b[13] == p.sectorsPerCluster && Word(b, 14, p.reservedForBoot)
    && b[16] == p.numberOfFats && Word(b, 17, p.rootDirEntries) && Word(b, 19, p.logicalSectors)
    && b[21] == p.mediumByte && Word(b, 22, p.sectorsPerFat) && Word(b, 24, p.sectorsPerTrack)
    && Word(b, 26, p.numberOfHeads) && Long(b, 28, p.hiddenSectors) && Long(b, 32, p.largeSectors)
    && b[36] == p.driveNumber && b[37] == p.flags && b[38] == p.signature && Long(b, 39, p.volumeId)
    && b[43..54] == p.volumeLabel && b[54..62] == p.fileSystem
  }

  lemma DecodedFields(b: seq<Byte>, p: Bpb)
    requires 62 <= |b| && DecodeBpb(b[3..62]) == p
    ensures HoldsBpb(b, p)
  {
    var c := b[3..62];
    assert forall i :: 0 <= i < 59 ==> c[i] == b[3 + i];
    assert c[..8] == b[3..11] && c[40..51] == b[43..54] && c[51..59] == b[54..62];
  }

  lemma BootOfView(b: seq<Byte>, p: Bpb)
    requires Mounted(p, b)
    ensures 62 <= |View(Areas(p), b).boot| <= |b| && View(Areas(p), b).boot[3..62] == b[3..62]
  {
  }

  /** On an image that stores metadata, each field of the parameter block is in its place. */
  lemma BpbOfStored(b: seq<Byte>, v: Volume)
    requires StoredIn(b, v)
    ensures HoldsBpb(b, v.bpb)
  {
    hide HoldsBpb, DecodeBpb, View;
    BootOfView(b, v.bpb);
    DecodedFields(b, v.bpb);
  }

  // ----- where the areas begin -----

  function TableStart(p: Bpb): int {
    p.reservedForBoot * p.sectorSize
  }

  function RootStart(p: Bpb): int {
    (p.reservedForBoot + p.numberOfFats * p.sectorsPerFat) * p.sectorSize
  }

  /** The first byte of cluster `c`. */
  function ClusterPlace(p: Bpb, c: int): int {
    RootStart(p) + 32 * p.rootDirEntries + (c - 2) * (p.sectorsPerCluster * p.sectorSize)
  }

  lemma PlacesFrom(p: Bpb, size: nat, c: int)
    requires size == p.sectorsPerCluster * p.sectorSize && ClusterSize(p) == size && 2 <= c
    ensures RootStart(p) + 32 * p.rootDirEntries + Span(c - 2, size) == ClusterPlace(p, c)
  {
    SpanIsProduct(c - 2, size);
  }

  lemma Swapped(a: int, b: int, c: int, z: int)
    ensures z * (a * b + c) == (c + a * b) * z && z * c == c * z
  {
  }

  /** These are the places that the model and the code use. */
  lemma PlacesOfAreas(p: Bpb, c: int)
    requires Sound(p) && 2 <= c
    ensures var g := Areas(p);
            && g.fatOffset == TableStart(p) && g.rootOffset == RootStart(p) && g.clusterSize == p.sectorsPerCluster * p.sectorSize
            && g.dataStart == RootStart(p) + 32 * p.rootDirEntries && ClusterStart(g, c - 2) == ClusterPlace(p, c)
  {
    hide ClusterPlace, DataClusters;
    SizesAreProducts(p);
    RootOffsetIsProduct(p);
    Swapped(p.numberOfFats, p.sectorsPerFat, p.reservedForBoot, p.sectorSize);
    M.Commutes(p.sectorSize, p.sectorsPerCluster);
    PlacesFrom(p, ClusterSize(p), c);
  }

  // ----- the table -----

  /** Entry `i` of the table that begins at byte `o`: two entries of twelve bits in three bytes. */
  predicate HoldsEntry(b: seq<Byte>, o: int, i: nat, x: int) {
    var k := o + 3 * (i / 2);
    && 0 <= k && k + 2 <= |b|
    && if i % 2 == 0 then x == b[k] as int + b[k + 1] as int % 0x10 * 0x100
       else k + 3 <= |b| && x == b[k + 1] as int / 0x10 + b[k + 2] as int * 0x10
  }

  lemma EntryBytes(fats: seq<Byte>, i: nat)
    requires EntryOffset(i) + 2 <= |fats|
    ensures HoldsEntry(fats, 0, i, ReadFatEntry(fats, i))
  {
    if i % 2 == 0 {
      assert EntryOffset(i) == 3 * (i / 2);
      EvenReadsNibble(fats[3 * (i / 2)], fats[3 * (i / 2) + 1]);
    } else {
      assert EntryOffset(i) == 3 * (i / 2) + 1;
      OddReadsHigh(fats[3 * (i / 2) + 1], fats[3 * (i / 2) + 2]);
    }
  }

  lemma OddReadsHigh(lo: Byte, hi: Byte)
    ensures ReadWord(true, lo as int + hi as int * 0x100) == lo as int / 0x10 + hi as int * 0x10
  {
  }

  lemma EntryShifted(b: seq<Byte>, fats: seq<Byte>, o: nat, i: nat, x: int)
    requires HoldsEntry(fats, 0, i, x) && o + |fats| <= |b| && b[o..o + |fats|] == fats
    ensures HoldsEntry(b, o, i, x)
  {
    assert forall k :: 0 <= k < |fats| ==> b[o + k] == fats[k];
  }

  /** The entries of the table are in the first copy. */
  lemma TableOfStored(b: seq<Byte>, v: Volume, i: nat)
    requires StoredIn(b, v) && i < FatEntries(v.bpb)
    ensures HoldsEntry(b, TableStart(v.bpb), i, v.fat[i])
  {
    var fats := View(Areas(v.bpb), b).fats;
    PlacesOfAreas(v.bpb, 2);
    EntryBytes(fats, i);
    EntryShifted(b, fats, Areas(v.bpb).fatOffset, i, v.fat[i]);
  }

  // ----- directory entries -----

  /** The fields of an entry in 32 bytes from `o` on. */
  ghost predicate HoldsRecord(b: seq<Byte>, o: nat, r: Record) {
    && o + 32 <= |b|
    && b[o..o + 11] == r.name && b[o + 11] == r.attributes && b[o + 12] == r.userAttributes
    && b[o + 13] == r.createTimeOrFirstCharacter && Word(b, o + 14, r.passwordHashOrCreateTime)
    && Word(b, o + 16, r.createDate) && Word(b, o + 18, r.ownerIdOrLastAccessDate) && Word(b, o + 20, r.accessRights)
    && Word(b, o + 22, r.lastModifiedTime) && Word(b, o + 24, r.lastModifiedDate) && Word(b, o + 26, r.firstCluster)
    && Long(b, o + 28, r.fileSize)
  }

  lemma DecodedRecord(b: seq<Byte>, o: nat, r: Record)
    requires o + 32 <= |b| && DecodeRecord(b[o..o + 32]) == r
    ensures HoldsRecord(b, o, r)
  {
    var c := b[o..o + 32];
    assert forall i :: 0 <= i < 32 ==> c[i] == b[o + i];
    assert c[..11] == b[o..o + 11];
  }

  lemma SliceOfSlice(b: seq<Byte>, part: seq<Byte>, o: nat, x: nat, n: nat)
    requires o + |part| <= |b| && b[o..o + |part|] == part && x + n <= |part|
    ensures part[x..x + n] == b[o + x..o + x + n]
  {
    assert forall k :: 0 <= k < |part| ==> part[k] == b[o + k];
  }

  lemma RootSlot(b: seq<Byte>, root: seq<Byte>, o: nat, i: nat, r: Record)
    requires o + |root| <= |b| && b[o..o + |root|] == root && 32 * i + 32 <= |root| && DT.SlotRecord(root, i) == r
    ensures HoldsRecord(b, o + 32 * i, r)
  {
    SliceOfSlice(b, root, o, 32 * i, 32);
    DecodedRecord(b, o + 32 * i, r);
  }

  /** The slots of the root directory follow each other. */
  lemma RootOfStored(b: seq<Byte>, v: Volume, i: nat)
    requires StoredIn(b, v) && i < v.bpb.rootDirEntries
    ensures 0 <= RootStart(v.bpb) && HoldsRecord(b, RootStart(v.bpb) + 32 * i, v.root.kids[i].rec)
  {
    hide HoldsRecord, RootStart;
    PlacesOfAreas(v.bpb, 2);
    RootSlot(b, View(Areas(v.bpb), b).root, Areas(v.bpb).rootOffset, i, v.root.kids[i].rec);
  }

  // ----- clusters -----

  lemma ClusterOfView(b: seq<Byte>, p: Bpb, c: int)
    requires Mounted(p, b) && 2 <= c < Areas(p).dataClusters + 2
    ensures 0 <= ClusterPlace(p, c) && ClusterPlace(p, c) + ClusterSize(p) <= |b|
    ensures View(Areas(p), b).clusters[c - 2] == b[ClusterPlace(p, c)..ClusterPlace(p, c) + ClusterSize(p)]
  {
    hide ClusterPlace;
    PlacesOfAreas(p, c);
    ClusterInside(Areas(p), b, c - 2);
  }

  /** The `i`-th cluster of a chain. */
  lemma {:induction false} ChainBlock(g: Geometry, d: Disk, s: seq<int>, i: nat)
    requires Fits(g, d) && InData(d, s) && i < |s|
    ensures Span(i, g.clusterSize) + g.clusterSize <= |ChainData(d, s)|
    ensures ChainData(d, s)[Span(i, g.clusterSize)..Span(i, g.clusterSize) + g.clusterSize] == d.clusters[s[i] - 2]
    decreases |s|
  {
    ChainDataLength(g, d, s);
    SpanGrows(i, |s|, g.clusterSize);
    var block, more := d.clusters[s[0] - 2], ChainData(d, s[1..]);
    assert ChainData(d, s) == block + more;
    if i > 0 {
      ChainBlock(g, d, s[1..], i - 1);
      var at := Span(i - 1, g.clusterSize);
      assert (block + more)[|block| + at..|block| + at + g.clusterSize] == more[at..at + g.clusterSize];
    }
  }

  /** The same piece of two equal blocks. */
  lemma SamePiece(data: seq<Byte>, b: seq<Byte>, block: seq<Byte>, x: nat, y: nat, k: nat, n: nat)
    requires x + |block| <= |data| && data[x..x + |block|] == block
    requires y + |block| <= |b| && b[y..y + |block|] == block && k + n <= |block|
    ensures data[x + k..x + k + n] == b[y + k..y + k + n]
  {
    SliceOfSlice(data, block, x, k, n);
    SliceOfSlice(b, block, y, k, n);
  }

  lemma ClusterOfChain(b: seq<Byte>, v: Volume, first: int, i: nat)
    requires Mounted(v.bpb, b) && DataChain(v.fat, first, Areas(v.bpb).dataClusters) && i < |ChainOf(v.fat, first)|
    ensures var d := View(Areas(v.bpb), b);
            && Fits(Areas(v.bpb), d) && InData(d, ChainOf(v.fat, first))
            && 2 <= ChainOf(v.fat, first)[i] < |d.clusters| + 2
            && |d.clusters[ChainOf(v.fat, first)[i] - 2]| == ClusterSize(v.bpb) == Areas(v.bpb).clusterSize
  {
    MountedFits(v.bpb, b);
  }

  /** A piece of the `i`-th cluster of a complete chain, in the image file. */
  lemma ChainInFile(b: seq<Byte>, v: Volume, first: int, i: nat, k: nat, n: nat)
    requires Mounted(v.bpb, b) && DataChain(v.fat, first, Areas(v.bpb).dataClusters)
    requires i < |ChainOf(v.fat, first)| && k + n <= ClusterSize(v.bpb)
    ensures var data := ChainData(View(Areas(v.bpb), b), ChainOf(v.fat, first));
            var at := Span(i, ClusterSize(v.bpb)) + k; var place := ClusterPlace(v.bpb, ChainOf(v.fat, first)[i]) + k;
            at + n <= |data| && 0 <= place && place + n <= |b| && data[at..at + n] == b[place..place + n]
  {
    hide ClusterPlace, Sound, Holds, HasChain, Span, ChainData, Fits;
    var d, s := View(Areas(v.bpb), b), ChainOf(v.fat, first);
    ClusterOfChain(b, v, first, i);
    ChainBlock(Areas(v.bpb), d, s, i);
    MountedFits(v.bpb, b);
    ClusterOfView(b, v.bpb, s[i]);
    SamePiece(ChainData(d, s), b, d.clusters[s[i] - 2], Span(i, ClusterSize(v.bpb)), ClusterPlace(v.bpb, s[i]), k, n);
  }

  lemma MountedFits(p: Bpb, b: seq<Byte>)
    requires Mounted(p, b)
    ensures Fits(Areas(p), View(Areas(p), b)) && Areas(p).clusterSize == ClusterSize(p)
    ensures |View(Areas(p), b).clusters| == Areas(p).dataClusters
  {
  }

  lemma DumpLength(g: Geometry, d: Disk, fat: Table, r: Record)
    requires Fits(g, d) && Dumpable(g, fat, r)
    ensures |Dump(g, d, fat, r)| == r.fileSize <= |ChainData(d, ChainOf(fat, r.firstCluster))|
    ensures Dump(g, d, fat, r) == ChainData(d, ChainOf(fat, r.firstCluster))[..r.fileSize]
  {
    ChainDataLength(g, d, ChainOf(fat, r.firstCluster));
  }

  lemma ContentIsDump(b: seq<Byte>, v: Volume, path: Path)
    requires StoredIn(b, v) && Lookup(v.root, path).Some?
    requires Dumpable(Areas(v.bpb), v.fat, At(v.root, Lookup(v.root, path).value).rec)
    ensures var r := At(v.root, Lookup(v.root, path).value).rec;
            var content, data := FileContent(View(Areas(v.bpb), b), v, path), ChainData(View(Areas(v.bpb), b), ChainOf(v.fat, r.firstCluster));
            r.fileSize <= |data| && content == Some(data[..r.fileSize])
  {
    hide View;
    MountedFits(v.bpb, b);
    DumpLength(Areas(v.bpb), View(Areas(v.bpb), b), v.fat, At(v.root, Lookup(v.root, path).value).rec);
  }

  /** The bytes of a file are in the clusters of its chain. */
  lemma FileOfStored(b: seq<Byte>, v: Volume, path: Path, i: nat, k: nat)
    requires StoredIn(b, v) && Lookup(v.root, path).Some?
    requires var r := At(v.root, Lookup(v.root, path).value).rec;
             && Dumpable(Areas(v.bpb), v.fat, r) && k < ClusterSize(v.bpb)
             && i < |ChainOf(v.fat, r.firstCluster)| && Span(i, ClusterSize(v.bpb)) + k < r.fileSize
    ensures var r := At(v.root, Lookup(v.root, path).value).rec;
            var place := ClusterPlace(v.bpb, ChainOf(v.fat, r.firstCluster)[i]) + k;
            var content := FileContent(View(Areas(v.bpb), b), v, path);
            && content.Some? && |content.value| == r.fileSize && 0 <= place < |b|
            && content.value[Span(i, ClusterSize(v.bpb)) + k] == b[place]
  {
    hide ClusterPlace, ReadsVolume, Dump, FileContent, ChainData, View, VolumeSound, Span;
    var r := At(v.root, Lookup(v.root, path).value).rec;
    var at, place := Span(i, ClusterSize(v.bpb)) + k, ClusterPlace(v.bpb, ChainOf(v.fat, r.firstCluster)[i]) + k;
    ClusterOfChain(b, v, r.firstCluster, i);
    ContentIsDump(b, v, path);
    ChainInFile(b, v, r.firstCluster, i, k, 1);
    OneByte(ChainData(View(Areas(v.bpb), b), ChainOf(v.fat, r.firstCluster)), b, at, place);
  }

  lemma OneByte(data: seq<Byte>, b: seq<Byte>, at: nat, place: nat)
    requires at + 1 <= |data| && place + 1 <= |b| && data[at..at + 1] == b[place..place + 1]
    ensures data[at] == b[place]
  {
    assert data[at] == data[at..at + 1][0];
  }

  lemma {:induction false} DirectoryAt(g: Geometry, d: Disk, fat: Table, table: seq<Byte>, t: Tree, a: Address)
    requires Fits(g, d) && DT.ReadsTable(g, d, fat, table, t.kids) && Valid(t, a) && a != []
    ensures DT.Reads(g, d, fat, At(t, a))
    decreases |a|
  {
    var kid := t.kids[a[0]];
    if |a| == 1 {
      assert a[1..] == [];
    } else {
      assert kid.kids != [];
      DirectoryAt(g, d, fat, ChainData(d, ChainOf(fat, kid.rec.firstCluster)), kid, a[1..]);
    }
  }

  lemma StoredReads(b: seq<Byte>, v: Volume, a: Address, j: nat)
    requires StoredIn(b, v) && a != [] && Valid(v.root, a) && Descends(At(v.root, a).rec) && j < |At(v.root, a).kids|
    ensures var r := At(v.root, a).rec; DataChain(v.fat, r.firstCluster, Areas(v.bpb).dataClusters)
    ensures var data := ChainData(View(Areas(v.bpb), b), ChainOf(v.fat, At(v.root, a).rec.firstCluster));
            32 * j + 32 <= |data| && DT.SlotRecord(data, j) == At(v.root, a).kids[j].rec
  {
    MountedFits(v.bpb, b);
    var d := View(Areas(v.bpb), b);
    DirectoryAt(Areas(v.bpb), d, v.fat, d.root, v.root, a);
  }

  lemma RecordInSlice(b: seq<Byte>, data: seq<Byte>, j: nat, place: nat, r: Record)
    requires 32 * j + 32 <= |data| && place + 32 <= |b| && data[32 * j..32 * j + 32] == b[place..place + 32]
    requires DT.SlotRecord(data, j) == r
    ensures HoldsRecord(b, place, r)
  {
    DecodedRecord(b, place, r);
  }

  /** The slots of any other directory are in the clusters of its chain. */
  lemma SlotOfStored(b: seq<Byte>, v: Volume, a: Address, j: nat, i: nat, k: nat)
    requires StoredIn(b, v) && a != [] && Valid(v.root, a) && Descends(At(v.root, a).rec) && j < |At(v.root, a).kids|
    requires HasChain(v.fat, At(v.root, a).rec.firstCluster) && i < |ChainOf(v.fat, At(v.root, a).rec.firstCluster)|
    requires 32 * j == Span(i, ClusterSize(v.bpb)) + k && k + 32 <= ClusterSize(v.bpb)
    ensures var place := ClusterPlace(v.bpb, ChainOf(v.fat, At(v.root, a).rec.firstCluster)[i]) + k;
            0 <= place && HoldsRecord(b, place, At(v.root, a).kids[j].rec)
  {
    hide HoldsRecord, ClusterPlace, ReadsVolume, VolumeSound;
    var first := At(v.root, a).rec.firstCluster;
    StoredReads(b, v, a, j);
    ChainInFile(b, v, first, i, k, 32);
    RecordInSlice(b, ChainData(View(Areas(v.bpb), b), ChainOf(v.fat, first)), j,
                  ClusterPlace(v.bpb, ChainOf(v.fat, first)[i]) + k, At(v.root, a).kids[j].rec);
  }

  // ----- after a write -----

  /** After the metadata were written, the image stores them. */
  lemma WrittenIsStored(b: seq<Byte>, d: Disk, v: Volume)
    requires VolumeSound(v) && Fits(Areas(v.bpb), d) && Mounted(v.bpb, b) && View(Areas(v.bpb), b) == WriteMetadata(d, v)
    ensures StoredIn(b, FilledVolume(v))
  {
    MetadataRoundTrip(d, v);
    FilledVolumeSound(v);
  }

  /** The bytes before the parameter block, the boot code behind it, and what follows the data area. */
  ghost predicate BootKept(d: Disk, after: Disk) {
    && |after.boot| == |d.boot| && 62 <= |d.boot| && after.boot[..3] == d.boot[..3] && after.boot[62..] == d.boot[62..]
    && after.tail == d.tail
  }

  lemma WriteKeepsBoot(d: Disk, before: Disk, v: Volume)
    requires VolumeSound(v) && Fits(Areas(v.bpb), d) && before.boot == d.boot && before.tail == d.tail
    requires Fits(Areas(v.bpb), before)
    ensures BootKept(d, WriteMetadata(before, v))
  {
  }

  /** Data are stored in clusters only. */
  lemma CreateKeepsBoot(d: Disk, v: Volume, path: Path, src: seq<Byte>, stamp: Stamp)
    requires VolumeSound(v) && Fits(Areas(v.bpb), d) && path != []
    requires ServedInData(v, FileClusters(|src|, ClusterSize(v.bpb)))
    ensures var d' := CreateFile(d, v, path, src, stamp).1; d'.boot == d.boot && d'.tail == d.tail
  {
  }

  lemma BeforeKeepsBoot(d: Disk, v: Volume, c: Command)
    requires VolumeSound(v) && Fits(Areas(v.bpb), d) && Allowed(v, c)
    ensures var d' := BeforeWrite(d, v, c); d'.boot == d.boot && d'.tail == d.tail
  {
    if c.PutFile? {
      CreateKeepsBoot(d, v, c.path, c.src, c.stamp);
    }
  }

  lemma CommandKeepsBoot(d: Disk, v: Volume, c: Command)
    requires VolumeSound(v) && Fits(Areas(v.bpb), d) && Allowed(v, c)
    ensures BootKept(d, Outcome(d, v, c).0)
  {
    hide BootKept, BeforeWrite, WriteMetadata;
    BeforeKeepsBoot(d, v, c);
    if Changed(d, v, c).Some? {
      ChangedSound(d, v, c);
      WriteKeepsBoot(d, BeforeWrite(d, v, c), Changed(d, v, c).value);
    } else {
      SameBoot(d, BeforeWrite(d, v, c), v.bpb);
    }
  }

  lemma SameBoot(d: Disk, after: Disk, p: Bpb)
    requires Sound(p) && Fits(Areas(p), d) && after.boot == d.boot && after.tail == d.tail
    ensures BootKept(d, after)
  {
  }

  /** The image stores metadata with the same parameter block, and the boot code is as it was. */
  ghost predicate StillStores(b: seq<Byte>, b': seq<Byte>, p: Bpb) {
    && (exists w: Volume :: w.bpb == p && StoredIn(b', w))
    && 0 <= TableStart(p) <= |b| && TableStart(p) <= |b'| && 62 <= TableStart(p)
    && b'[..3] == b[..3] && b'[62..TableStart(p)] == b[62..TableStart(p)]
  }

  lemma BootInFile(b: seq<Byte>, b': seq<Byte>, p: Bpb)
    requires Mounted(p, b) && Mounted(p, b') && BootKept(View(Areas(p), b), View(Areas(p), b'))
    ensures 62 <= TableStart(p) <= |b| && TableStart(p) <= |b'|
    ensures b'[..3] == b[..3] && b'[62..TableStart(p)] == b[62..TableStart(p)]
  {
    PlacesOfAreas(p, 2);
    var boot, boot' := View(Areas(p), b).boot, View(Areas(p), b').boot;
    assert boot[..3] == b[..3] && boot'[..3] == b'[..3];
    assert boot[62..] == b[62..TableStart(p)] && boot'[62..] == b'[62..TableStart(p)];
  }

  /** Every command keeps an image an image. */
  lemma CommandStillStores(b: seq<Byte>, b': seq<Byte>, v: Volume, c: Command)
    requires StoredIn(b, v) && Mounted(v.bpb, b') && Allowed(v, c)
    requires Fits(Areas(v.bpb), View(Areas(v.bpb), b)) && View(Areas(v.bpb), b') == Outcome(View(Areas(v.bpb), b), v, c).0
    ensures StillStores(b, b', v.bpb)
  {
    hide Outcome, Allowed, BootKept, TableStart, ReadsVolume, View;
    var d := View(Areas(v.bpb), b);
    CommandKeeps(d, v, c);
    CommandKeepsBoot(d, v, c);
    BootInFile(b, b', v.bpb);
    assert StoredIn(b', Outcome(d, v, c).1);
  }

  /** All copies of the table are written alike. */
  lemma {:induction false} CopiesAlike(f: seq<Byte>, n: nat, c: nat, k: nat)
    requires c < n && k < |f|
    ensures Span(c, |f|) + k < |Copies(f, n)| && Copies(f, n)[Span(c, |f|) + k] == f[k]
  {
    SpanGrows(c, n, |f|);
    if c < n - 1 {
      CopiesAlike(f, n - 1, c, k);
    }
  }

  lemma WrittenFats(d: Disk, v: Volume, c: nat, k: nat)
    requires VolumeSound(v) && Fits(Areas(v.bpb), d) && c < v.bpb.numberOfFats && k < FatSize(v.bpb)
    ensures var fats := WriteMetadata(d, v).fats; var at := Span(c, FatSize(v.bpb)) + k;
            k < |fats| && at < |fats| && fats[at] == fats[k]
  {
    CopiesAlike(FatBytes(v), v.bpb.numberOfFats, c, k);
    CopiesAlike(FatBytes(v), v.bpb.numberOfFats, 0, k);
  }

  lemma FatsInFile(b: seq<Byte>, p: Bpb, k: nat)
    requires Mounted(p, b) && k < |View(Areas(p), b).fats|
    ensures 0 <= TableStart(p) + k < |b| && b[TableStart(p) + k] == View(Areas(p), b).fats[k]
  {
    PlacesOfAreas(p, 2);
  }

  /** Byte `k` of copy `c` of the table is that of the first copy. */
  lemma WrittenCopies(b: seq<Byte>, d: Disk, v: Volume, c: nat, k: nat)
    requires VolumeSound(v) && Fits(Areas(v.bpb), d) && Mounted(v.bpb, b) && View(Areas(v.bpb), b) == WriteMetadata(d, v)
    requires c < v.bpb.numberOfFats && k < FatSize(v.bpb)
    ensures var at := TableStart(v.bpb) + k; var at' := TableStart(v.bpb) + Span(c, FatSize(v.bpb)) + k;
            0 <= at < |b| && 0 <= at' < |b| && b[at'] == b[at]
  {
    hide TableStart, View, WriteMetadata;
    WrittenFats(d, v, c, k);
    FatsInFile(b, v.bpb, k);
    FatsInFile(b, v.bpb, Span(c, FatSize(v.bpb)) + k);
  }

  // ----- a fresh partition -----

  /** The three bytes of the first two entries. */
  lemma FirstEntries(b: seq<Byte>, o: int, medium: Byte)
    requires HoldsEntry(b, o, 0, 0xf00 + medium) && HoldsEntry(b, o, 1, 0xfff)
    ensures 0 <= o && o + 3 <= |b| && b[o] == medium && b[o + 1] == 0xff && b[o + 2] == 0xff
  {
  }

  /**
   The table of an empty partition: the medium byte and two bytes 0xff, then free entries.
   */
  lemma FreshTableBytes(b: seq<Byte>, v: Volume, i: nat)
    requires StoredIn(b, v) && v.fat == FreshTable(v.bpb)
    ensures var o := TableStart(v.bpb); 0 <= o && o + 3 <= |b| && b[o] == v.bpb.mediumByte && b[o + 1] == 0xff && b[o + 2] == 0xff
    ensures 2 <= i < FatEntries(v.bpb) ==> HoldsEntry(b, TableStart(v.bpb), i, 0)
  {
    hide HoldsEntry, TableStart;
    TableOfStored(b, v, 0);
    TableOfStored(b, v, 1);
    FirstEntries(b, TableStart(v.bpb), v.bpb.mediumByte);
    if 2 <= i < FatEntries(v.bpb) {
      TableOfStored(b, v, i);
    }
  }

  /** A free slot begins with a zero byte. */
  lemma FreeSlotByte(b: seq<Byte>, o: int)
    requires 0 <= o && HoldsRecord(b, o, EMPTY)
    ensures o < |b| && b[o] == 0
  {
    assert b[o] == b[o..o + 11][0];
  }

  lemma FreshSlot(v: Volume, i: nat)
    requires Sound(v.bpb) && v == FilledVolume(FreshVolume(v.bpb)) && i < v.bpb.rootDirEntries
    ensures i < |v.root.kids| && v.root.kids[i].rec == EMPTY
  {
  }

  lemma FreshRootByte(b: seq<Byte>, v: Volume, i: nat)
    requires StoredIn(b, v) && v == FilledVolume(FreshVolume(v.bpb)) && i < v.bpb.rootDirEntries
    ensures 0 <= RootStart(v.bpb) + 32 * i < |b| && b[RootStart(v.bpb) + 32 * i] == 0
  {
    hide HoldsRecord, RootStart, ReadsVolume, Mounted, FilledVolume;
    FreshSlot(v, i);
    RootOfStored(b, v, i);
    FreeSlotByte(b, RootStart(v.bpb) + 32 * i);
  }

  /** The image of an empty partition holds its parameter block, an empty table and an empty root directory. */
  lemma FreshImage(b: seq<Byte>, v: Volume, i: nat)
    requires StoredIn(b, v) && v == FilledVolume(FreshVolume(v.bpb))
    ensures HoldsBpb(b, v.bpb)
    ensures var o := TableStart(v.bpb); 0 <= o && o + 3 <= |b| && b[o] == v.bpb.mediumByte && b[o + 1] == 0xff && b[o + 2] == 0xff
    ensures 2 <= i < FatEntries(v.bpb) ==> HoldsEntry(b, TableStart(v.bpb), i, 0)
    ensures i < v.bpb.rootDirEntries ==> 0 <= RootStart(v.bpb) + 32 * i < |b| && b[RootStart(v.bpb) + 32 * i] == 0
  {
    hide HoldsEntry, HoldsBpb, TableStart, RootStart, ReadsVolume, Mounted;
    BpbOfStored(b, v);
    FreshTableBytes(b, v, i);
    if i < v.bpb.rootDirEntries {
      FreshRootByte(b, v, i);
    }
  }
}
