/** struct lf12_metadata as an object; writing it to the image and reading it (src/libfat12/io.c, metadata.c). */
module MetadataIo {
  import opened Bytes
  import opened Records
  import opened Errors
  import opened BiosParameterBlock
  import opened Fat
  import opened FatPacking
  import opened Disks
  import opened ChainIo
  import opened Trees
  import opened Volumes
  import opened DirectoryEntries
  import opened DirectoryWrites
  import opened DirectoryIo
  import opened Creation

  /** The empty root directory of lf12_create_root_dir_meta. */
  method NewRootDir(n: nat) returns (root: DirectoryEntry, ghost s: Shape)
    ensures s.self == root && fresh(Objects(s)) && Separate(s) && Parented(s)
    ensures Rep(s, Node(ROOT_RECORD, FreeSlots(n)))
  {
    root := new DirectoryEntry();
    var slots := NewSlots(n);
    root.rec := ROOT_RECORD;
    root.children := slots;
    for i := 0 to n
      invariant root.rec == ROOT_RECORD && root.children == slots
      invariant forall j :: 0 <= j < n ==> slots[j].rec == EMPTY && slots[j].children == []
      invariant forall j :: 0 <= j < i ==> slots[j].parent == root
    {
      slots[i].parent := root;
    }
    s := Shape(root, Leaves(slots));
    LeavesFacts(slots);
    assert Objects(s) == {root} + KidObjects(s.kids);
  }

  /** The table of a fresh partition: media descriptor, end marker, free clusters. */
  ghost function FreshTable(p: Bpb): Fat.Table
    requires 0 < p.sectorsPerCluster
  {
    [p.mediumByte + 0xf00, END_OF_CHAIN] + Zeros(FatEntries(p))
  }

  ghost function FreshVolume(p: Bpb): Volumes.Volume
    requires 0 < p.sectorsPerCluster
  {
    Volumes.Volume(p, FreshTable(p), Node(ROOT_RECORD, FreeSlots(p.rootDirEntries)))
  }

  /** The table of lf12_create_root_dir_meta. */
  method NewTable(p: Bpb) returns (table: array<U16>)
    requires 0 < p.sectorsPerCluster
    ensures fresh(table) && table[..] == FreshTable(p)
  {
    table := new U16[FatEntries(p) + 2](i => 0);
    table[0] := p.mediumByte + 0xf00;
    table[1] := END_OF_CHAIN;
  }

  class Metadata {
    var bpb: Bpb
    var fatId: U16
    var endOfChainMarker: U16
    var rootDirOffset: nat
    var rootDir: DirectoryEntry
    var fatEntries: array<U16>
    ghost var shape: Shape
    ghost var tree: Tree

    /** The objects below the root directory hold the tree. */
    ghost predicate Valid()
      reads this, Objects(shape)
    {
      && shape.self == rootDir && Rep(shape, tree) && Separate(shape)
      && endOfChainMarker == END_OF_CHAIN && rootDirOffset == RootDirOffset(bpb)
    }

    ghost function Volume(): Volumes.Volume
      reads this, fatEntries
    {
      Volumes.Volume(bpb, fatEntries[..], tree)
    }

    /** The metadata of an empty partition: f12_create up to lf12_create_root_dir_meta. */
    constructor (p: Bpb)
      requires 0 < p.sectorsPerCluster
      ensures Valid() && Volume() == FreshVolume(p) && Parented(shape)
      ensures fresh(fatEntries) && fresh(Objects(shape))
    {
      bpb := p;
      rootDirOffset := RootDirOffset(p);
      fatId := p.mediumByte + 0xf00;
      endOfChainMarker := END_OF_CHAIN;
      var table := NewTable(p);
      fatEntries := table;
      var root, s := NewRootDir(p.rootDirEntries);
      rootDir, shape, tree := root, s, Node(ROOT_RECORD, FreeSlots(p.rootDirEntries));
    }
  }

  /** write_bpb */
  method WriteBpb(img: Image, p: Bpb)
    requires Mounted(p, img.contents)
    modifies img
    ensures Mounted(p, img.contents)
    ensures var d := old(img.Disk(Areas(p)));
            img.Disk(Areas(p)) == d.(boot := Splice(d.boot, BPB_OFFSET, EncodeBpb(p)))
  {
    img.Seek(BPB_OFFSET);
    ViewBootWrite(Areas(p), img.contents, BPB_OFFSET, EncodeBpb(p));
    img.Write(EncodeBpb(p));
  }

  /** The FAT area after the first `i` copies were written over `fats`. */
  lemma CopyWritten(fats: seq<Byte>, f: seq<Byte>, i: nat)
    requires Span(i + 1, |f|) <= |fats|
    ensures Splice(Copies(f, i) + fats[Span(i, |f|)..], Span(i, |f|), f) == Copies(f, i + 1) + fats[Span(i + 1, |f|)..]
  {
  }

  /** One turn of the loop of write_fats. */
  method WriteFatCopy(img: Image, p: Bpb, f: seq<Byte>, i: nat, ghost d: Disk)
    requires Mounted(p, img.contents) && |f| == FatSize(p) && i < p.numberOfFats
    requires Fits(Areas(p), d) && img.position == FatOffset(p) + Span(i, |f|)
    requires Span(i + 1, |f|) <= |d.fats|
    requires img.Disk(Areas(p)) == d.(fats := Copies(f, i) + d.fats[Span(i, |f|)..])
    modifies img
    ensures Mounted(p, img.contents) && img.position == FatOffset(p) + Span(i + 1, |f|)
    ensures img.Disk(Areas(p)) == d.(fats := Copies(f, i + 1) + d.fats[Span(i + 1, |f|)..])
  {
    CopyWritten(d.fats, f, i);
    ViewFatWrite(Areas(p), img.contents, img.position, f);
    img.Write(f);
  }

  /** The loop of write_fats. */
  method WriteFatCopies(img: Image, p: Bpb, f: seq<Byte>)
    requires Mounted(p, img.contents) && |f| == FatSize(p) && img.position == FatOffset(p)
    modifies img
    ensures Mounted(p, img.contents)
    ensures img.Disk(Areas(p)) == old(img.Disk(Areas(p))).(fats := Copies(f, p.numberOfFats))
  {
    ghost var d := img.Disk(Areas(p));
    FatAreaSpan(p);
    ViewFits(Areas(p), img.contents);
    assert Copies(f, 0) + d.fats[Span(0, |f|)..] == d.fats;
    for i := 0 to p.numberOfFats
      invariant Mounted(p, img.contents) && img.position == FatOffset(p) + Span(i, |f|)
      invariant Span(i, |f|) <= |d.fats| == Span(p.numberOfFats, |f|)
      invariant img.Disk(Areas(p)) == d.(fats := Copies(f, i) + d.fats[Span(i, |f|)..])
    {
      SpanGrows(i, p.numberOfFats, |f|);
      WriteFatCopy(img, p, f, i, d);
    }
  }

  /** write_fats */
  method WriteFats(img: Image, p: Bpb, fat: array<U16>)
    requires Mounted(p, img.contents) && TableSound(p, fat[..])
    modifies img
    ensures Mounted(p, img.contents)
    ensures img.Disk(Areas(p)) == old(img.Disk(Areas(p))).(fats :=
              Copies(Packed(fat[..], FatEntries(p), FatSize(p)), p.numberOfFats))
  {
    var buffer := CreateFat(fat, FatSize(p), FatEntries(p));
    img.Seek(FatOffset(p));
    WriteFatCopies(img, p, buffer[..]);
  }

  /** write_root_dir */
  method WriteRootDir(img: Image, p: Bpb, fat: array<U16>, marker: U16, root: DirectoryEntry, ghost s: Shape, ghost t: Tree)
    returns (err: Error)
    requires marker == END_OF_CHAIN && Mounted(p, img.contents) && Rep(s, t) && s.self == root
    requires AllWritable(Areas(p), fat[..], t.kids) && |t.kids| == p.rootDirEntries
    modifies img
    ensures Mounted(p, img.contents) && Fits(Areas(p), old(img.Disk(Areas(p))))
    ensures (err, img.Disk(Areas(p))) == PutRoot(Areas(p), old(img.Disk(Areas(p))), fat[..], t.kids)
  {
    assert allocated(Objects(s));
    ViewFits(Areas(p), img.contents);
    var dir := CreateDirectory(root, 32 * p.rootDirEntries, s, t);
    err := WriteChildren(img, p, fat, marker, root, s, t);
    if err != Success {
      return;
    }
    ViewRootWrite(Areas(p), img.contents, dir);
    img.Seek(RootDirOffset(p));
    img.Write(dir);
  }

  /** lf12_write_metadata */
  method WriteMetadataToImage(img: Image, meta: Metadata) returns (err: Error)
    requires meta.Valid() && VolumeWritable(meta.Volume()) && Mounted(meta.bpb, img.contents)
    modifies img
    ensures Mounted(meta.bpb, img.contents) && Fits(Areas(meta.bpb), old(img.Disk(Areas(meta.bpb))))
    ensures (err, img.Disk(Areas(meta.bpb))) == PutMetadata(old(img.Disk(Areas(meta.bpb))), meta.Volume())
  {
    assert allocated(Objects(meta.shape)) && forall o :: o in Objects(meta.shape) ==> o as object != img;
    ViewFits(Areas(meta.bpb), img.contents);
    WriteBpb(img, meta.bpb);
    WriteFats(img, meta.bpb, meta.fatEntries);
    err := WriteRootDir(img, meta.bpb, meta.fatEntries, meta.endOfChainMarker, meta.rootDir, meta.shape, meta.tree);
  }

  /** The same for sound metadata, which are written completely. */
  method SaveMetadata(img: Image, meta: Metadata) returns (err: Error)
    requires meta.Valid() && VolumeSound(meta.Volume()) && Mounted(meta.bpb, img.contents)
    modifies img
    ensures err == Success && Mounted(meta.bpb, img.contents)
    ensures img.Disk(Areas(meta.bpb)) == WriteMetadata(old(img.Disk(Areas(meta.bpb))), meta.Volume())
  {
    ghost var d, v := img.Disk(Areas(meta.bpb)), meta.Volume();
    ViewFits(Areas(meta.bpb), img.contents);
    SoundMetadata(d, v);
    err := WriteMetadataToImage(img, meta);
  }
}
