/** lf12_create_file and lf12_dump_file on the image (src/libfat12/io.c). */
module FileIo {
  import opened Bytes
  import opened Records
  import opened Errors
  import opened BiosParameterBlock
  import opened Fat
  import opened Disks
  import opened ChainIo
  import opened Trees
  import opened Volumes
  import opened Creation
  import opened Files
  import opened Contents
  import opened DirectoryEntries
  import opened MetadataIo
  import opened EntryCreation

  /** lf12_dump_file */
  method DumpFile(img: Image, p: Bpb, fat: array<U16>, marker: U16, entry: DirectoryEntry) returns (err: Error, bytes: seq<Byte>)
    requires marker == END_OF_CHAIN && Mounted(p, img.contents) && Dumpable(Areas(p), fat[..], entry.rec)
    modifies img`position
    ensures err == Success && bytes == Dump(Areas(p), img.Disk(Areas(p)), fat[..], entry.rec)
  {
    ViewFits(Areas(p), img.contents);
    ChainDataLength(Areas(p), img.Disk(Areas(p)), ChainOf(fat[..], entry.rec.firstCluster));
    var size := entry.rec.fileSize;
    var buffer := LoadClusterChain(img, p, fat, marker, entry.rec.firstCluster);
    return Success, buffer[..size];
  }

  /** The disk and the table after the chain of a new file was allocated and written. */
  ghost function StoreFile(d: Disk, v: Volumes.Volume, src: seq<Byte>): (r: (Error, Disk, Fat.Table, U16))
    requires VolumeSound(v) && Fits(Areas(v.bpb), d) && ServedInData(v, FileClusters(|src|, ClusterSize(v.bpb)))
    ensures |r.2| == |v.fat| && (r.0 == Success ==> |src| < 0x1_0000)
  {
    VolumeFacts(v);
    var size := ClusterSize(v.bpb);
    var count := FileClusters(|src|, size);
    var (first, fat) := Allocate(v.fat, count);
    if first == 0 then (ImageFull, d, fat, first)
    else if Span(count, size) >= 0x1_0000 then (LogicError, d, fat, first)
    else
      FileClustersFit(|src|, size);
      ServedChain(v, count);
      (Success, WriteChain(d, FreeClusters(v.fat)[..count], Padded(src, Span(count, size)), size), fat, first)
  }

  /** The first half of lf12_create_file: allocation and data. */
  method StoreFileData(img: Image, p: Bpb, fat: array<U16>, marker: U16, src: seq<Byte>, ghost v: Volumes.Volume)
    returns (err: Error, first: U16)
    requires marker == END_OF_CHAIN && Mounted(p, img.contents) && VolumeSound(v) && v.bpb == p && v.fat == fat[..]
    requires ServedInData(v, FileClusters(|src|, ClusterSize(p)))
    modifies img, fat
    ensures Mounted(p, img.contents)
    ensures (err, img.Disk(Areas(p)), fat[..], first) == StoreFile(old(img.Disk(Areas(p))), v, src)
  {
    VolumeFacts(v);
    ViewFits(Areas(p), img.contents);
    var count := FileClusters(|src|, ClusterSize(p));
    assert img as object != fat;
    first := CreateClusterChain(fat, marker, count);
    if first == 0 {
      return ImageFull, first;
    }
    ServedChain(v, count);
    AllocateFirstFit(v.fat, count);
    FileClustersFit(|src|, ClusterSize(p));
    TruncatedSizeCheck(Span(count, ClusterSize(p)), ClusterSize(p), |src|);
    WholeChain(FreeClusters(v.fat)[..count], ClusterSize(p), |src|);
    err := WriteToClusterChain(img, p, fat, marker, src, first);
  }

  /** The last part of lf12_create_file: the fields of the new entry. */
  function FinishedRecord(r: Record, first: U16, size: U32, stamp: Stamp): (f: Record)
    ensures f == FileRecord(r, first, size, stamp)
  {
    var r1 := r.(attributes := WithArchive(r.attributes));
    var r2 := r1.(firstCluster := first, fileSize := size);
    var r3 := r2.(createDate := stamp.date, passwordHashOrCreateTime := stamp.time,
                  createTimeOrFirstCharacter := stamp.msecs);
    r3.(lastModifiedTime := r3.passwordHashOrCreateTime, lastModifiedDate := r3.createDate,
        ownerIdOrLastAccessDate := r3.createDate)
  }

  /** The tree after the entry was created and filled in. */
  ghost function FileEntered(size: nat, fat: Fat.Table, root: Tree, path: Path, first: U16, n: U32, stamp: Stamp):
    (Error, Fat.Table, Tree)
    requires 0 < size && Indexable(fat) && path != []
  {
    var (e, after, t, a) := CreateEntry(size, fat, root, path);
    (e, after, if e == Success then SetRecord(t, a, FileRecord(At(t, a).rec, first, n, stamp)) else t)
  }

  /** The second half of lf12_create_file: the entry. */
  method EnterFile(p: Bpb, fat: array<U16>, marker: U16, root: DirectoryEntry, path: Path, first: U16, size: U32,
                   stamp: Stamp, ghost s: Shape, ghost t: Tree)
    returns (err: Error, ghost s': Shape, ghost t': Tree)
    requires marker == END_OF_CHAIN && 0 < ClusterSize(p) && 2 <= fat.Length && Indexable(fat[..]) && path != []
    requires Rep(s, t) && Separate(s) && s.self == root
    modifies fat, Objects(s)
    ensures (err, fat[..], t') == FileEntered(ClusterSize(p), old(fat[..]), t, path, first, size, stamp) && Made(s, s', t')
  {
    var entry;
    ghost var a;
    assert allocated(Objects(s));
    t' := CreateEntry(ClusterSize(p), fat[..], t, path).2;
    err, entry, s', a := CreateEntryFromPath(p, fat, marker, root, path, s, t);
    if err == Success {
      RepSplit(s', t', a);
      OutsideApart(s', t', a);
      ghost var r := At(t', a).rec;
      SetRecordOf(entry, FinishedRecord(entry.rec, first, size, stamp), s', t', a);
      t' := SetRecord(t', a, FileRecord(r, first, size, stamp));
    }
  }

  /** CreateFile is the one half after the other. */
  lemma CreateFileParts(d: Disk, v: Volumes.Volume, path: Path, src: seq<Byte>, stamp: Stamp)
    requires VolumeSound(v) && Fits(Areas(v.bpb), d) && path != []
    requires ServedInData(v, FileClusters(|src|, ClusterSize(v.bpb)))
    ensures var (e, d', fat, first) := StoreFile(d, v, src);
            && Indexable(fat) && 0 < ClusterSize(v.bpb)
            && CreateFile(d, v, path, src, stamp) ==
               if e != Success then (e, d', v.(fat := fat))
               else
                 var (e', fat', t) := FileEntered(ClusterSize(v.bpb), fat, v.root, path, first, |src|, stamp);
                 (e', d', v.(fat := fat', root := t))
  {
    VolumeFacts(v);
  }

  method StoreAndEnter(img: Image, p: Bpb, fat: array<U16>, marker: U16, root: DirectoryEntry, path: Path,
                          src: seq<Byte>, stamp: Stamp, ghost s: Shape, ghost v: Volumes.Volume)
    returns (err: Error, ghost s': Shape, ghost t': Tree)
    requires marker == END_OF_CHAIN && Mounted(p, img.contents) && VolumeSound(v) && v.bpb == p && v.fat == fat[..]
    requires ServedInData(v, FileClusters(|src|, ClusterSize(p))) && path != []
    requires Rep(s, v.root) && Separate(s) && s.self == root
    modifies img, fat, Objects(s)
    ensures Mounted(p, img.contents) && Made(s, s', t')
    ensures (err, img.Disk(Areas(p)), Volumes.Volume(p, fat[..], t')) ==
            CreateFile(old(img.Disk(Areas(p))), v, path, src, stamp)
  {
    VolumeFacts(v);
    ViewFits(Areas(p), img.contents);
    CreateFileParts(img.Disk(Areas(p)), v, path, src, stamp);
    assert allocated(Objects(s)) && forall o :: o in Objects(s) ==> o as object != img;
    s', t' := s, v.root;
    var first;
    assert Rep(s, v.root);
    err, first := StoreFileData(img, p, fat, marker, src, v);
    assert Rep(s, v.root);
    if err == Success {
      ghost var b := img.contents;
      err, s', t' := EnterFile(p, fat, marker, root, path, first, |src|, stamp, s, v.root);
      assert img.contents == b;
    }
  }

  /** lf12_create_file; the source file is given by its bytes. */
  method CreateFileOnImage(img: Image, meta: Metadata, path: Path, src: seq<Byte>, stamp: Stamp) returns (err: Error)
    requires meta.Valid() && VolumeSound(meta.Volume()) && Mounted(meta.bpb, img.contents) && path != []
    requires ServedInData(meta.Volume(), FileClusters(|src|, ClusterSize(meta.bpb)))
    modifies img, meta, meta.fatEntries, Objects(meta.shape)
    ensures meta.Valid() && meta.bpb == old(meta.bpb) && Mounted(meta.bpb, img.contents)
    ensures (err, img.Disk(Areas(meta.bpb)), meta.Volume()) ==
            CreateFile(old(img.Disk(Areas(meta.bpb))), old(meta.Volume()), path, src, stamp)
  {
    ghost var s, t;
    err, s, t := StoreAndEnter(img, meta.bpb, meta.fatEntries, meta.endOfChainMarker, meta.rootDir, path, src, stamp,
                                  meta.shape, meta.Volume());
    meta.shape, meta.tree := s, t;
  }
}
