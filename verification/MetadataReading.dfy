/** lf12_read_metadata (src/libfat12/io.c). */
module MetadataReading {
  import opened Bytes
  import opened Errors
  import opened BiosParameterBlock
  import opened Fat
  import opened FatPacking
  import opened Disks
  import opened ChainIo
  import opened Trees
  import opened Volumes
  import opened Creation
  import opened DirectoryEntries
  import opened Scanning
  import opened MetadataIo
  import DT = DirectoryTables

  /** read_fat_entries on a zeroed table. */
  method ReadFatEntries(img: Image, p: Bpb, entries: array<U16>, ghost fat: Fat.Table)
    requires Mounted(p, img.contents) && TableSound(p, fat)
    requires ReadsTableEntries(img.Disk(Areas(p)).fats, fat, FatEntries(p))
    requires entries.Length == |fat| && entries[FatEntries(p)] == 0 && entries[FatEntries(p) + 1] == 0
    modifies img`position, entries
    ensures entries[..] == fat
  {
    FatLayout(p, 0);
    img.Seek(FatOffset(p));
    var bytes := img.Read(FatSize(p));
    UnpackFat(bytes, entries, FatEntries(p));
    SameTable(p, img.Disk(Areas(p)).fats, bytes, fat, entries[..]);
  }

  lemma SameTable(p: Bpb, fats: seq<Byte>, bytes: seq<Byte>, fat: Fat.Table, entries: Fat.Table)
    requires Sound(p) && TableSound(p, fat) && ReadsTableEntries(fats, fat, FatEntries(p))
    requires |entries| == |fat| && entries[FatEntries(p)] == 0 && entries[FatEntries(p) + 1] == 0
    requires bytes <= fats && PackedSize(FatEntries(p)) <= |bytes|
    requires forall i :: 0 <= i < FatEntries(p) ==> EntryOffset(i) + 2 <= |bytes| && entries[i] == ReadFatEntry(bytes, i)
    ensures entries == fat
  {
    forall i | 0 <= i < |fat| ensures entries[i] == fat[i] {
      if i < FatEntries(p) {
        assert bytes[EntryOffset(i)] == fats[EntryOffset(i)] && bytes[EntryOffset(i) + 1] == fats[EntryOffset(i) + 1];
      } else {
        assert i == FatEntries(p) || i == FatEntries(p) + 1;
      }
    }
  }

  /** load_root_dir into the empty table of the root directory. */
  method LoadRootDir(img: Image, p: Bpb, fat: array<U16>, marker: U16, root: DirectoryEntry,
                     ghost b: seq<Byte>, ghost f: Fat.Table, ghost t: Tree)
    returns (err: Error, ghost s: Shape)
    requires marker == END_OF_CHAIN && Reading(img, p, fat, b, f)
    requires DT.ReadsTable(Areas(p), View(Areas(p), b), f, View(Areas(p), b).root, t.kids)
    requires root.rec == t.rec && |root.children| == |t.kids| == p.rootDirEntries && Different(root.children)
    requires root !in root.children && forall i :: 0 <= i < |root.children| ==> root.children[i].children == []
    modifies root.children, img`position
    ensures err == Success && s.self == root && Rep(s, t) && Separate(s) && Parented(s)
    ensures forall o :: o in Objects(s) && o != root && o !in root.children ==> fresh(o)
    ensures Reading(img, p, fat, b, f) && root.children == old(root.children)
  {
    img.Seek(RootDirOffset(p));
    var data := img.Read(RootDirSize(p));
    assert data == View(Areas(p), b).root;
    ghost var shapes;
    err, shapes := ScanTable(img, p, fat, marker, root, data, root.children, b, f, t.kids);
    s := Shape(root, shapes);
  }

  /** The slots of an empty root directory. */
  lemma EmptyRootFacts(s: Shape, n: nat)
    requires Rep(s, Node(ROOT_RECORD, FreeSlots(n))) && Separate(s)
    ensures |s.self.children| == n && Different(s.self.children) && s.self !in s.self.children
    ensures forall i :: 0 <= i < n ==> s.self.children[i].children == [] && s.self.children[i] in Objects(s)
    ensures s.self in Objects(s)
  {
    var slots := s.self.children;
    forall i | 0 <= i < n ensures slots[i].children == [] && slots[i] in Objects(s) && slots[i] in KidObjects(s.kids) {
      assert slots[i] == s.kids[i].self && slots[i] in Objects(s.kids[i]) && Rep(s.kids[i], FreeSlots(n)[i]);
    }
    forall i, j | 0 <= i < j < n ensures slots[i] != slots[j] {
      assert slots[i] in Objects(s.kids[i]) && slots[j] in Objects(s.kids[j]);
    }
  }

  /** The state of the metadata before the root directory is read. */
  ghost predicate Blank(meta: Metadata, p: Bpb)
    reads meta, meta.rootDir, meta.rootDir.children
  {
    var root := meta.rootDir;
    && meta.bpb == p && meta.rootDirOffset == RootDirOffset(p)
    && root.rec == ROOT_RECORD && |root.children| == p.rootDirEntries && Different(root.children)
    && root !in root.children && forall i :: 0 <= i < |root.children| ==> root.children[i].children == []
  }

  /** Fresh metadata for a parameter block, with an empty table. */
  method NewMetadata(p: Bpb) returns (meta: Metadata)
    requires 0 < p.sectorsPerCluster && 2 <= FatEntries(p)
    ensures fresh(meta) && fresh(meta.fatEntries) && fresh(meta.rootDir)
    ensures Blank(meta, p) && forall i :: 0 <= i < |meta.rootDir.children| ==> fresh(meta.rootDir.children[i])
    ensures meta.fatEntries.Length == FatEntries(p) + 2
    ensures meta.fatEntries[FatEntries(p)] == 0 && meta.fatEntries[FatEntries(p) + 1] == 0
  {
    meta := new Metadata(p);
    EmptyRootFacts(meta.shape, p.rootDirEntries);
    assert meta.fatEntries[..] == FreshTable(p);
    assert meta.fatEntries[..][FatEntries(p)] == 0 && meta.fatEntries[..][FatEntries(p) + 1] == 0;
  }

  /** lf12_read_metadata up to load_root_dir: the root directory is still empty. */
  method ReadTables(img: Image, ghost p: Bpb, ghost f: Fat.Table) returns (meta: Metadata)
    requires BPB_OFFSET + BPB_SIZE <= |img.contents| && Mounted(p, img.contents)
    requires DecodeBpb(img.contents[BPB_OFFSET..BPB_OFFSET + BPB_SIZE]) == p
    requires TableSound(p, f) && ReadsTableEntries(img.Disk(Areas(p)).fats, f, FatEntries(p))
    modifies img`position
    ensures fresh(meta) && fresh(meta.fatEntries) && fresh(meta.rootDir)
    ensures Blank(meta, p) && forall i :: 0 <= i < |meta.rootDir.children| ==> fresh(meta.rootDir.children[i])
    ensures meta.fatEntries[..] == f && meta.endOfChainMarker == END_OF_CHAIN
  {
    img.Seek(BPB_OFFSET);
    var buffer := img.Read(BPB_SIZE);
    var bpb := DecodeBpb(buffer);
    meta := NewMetadata(bpb);
    ReadFatEntries(img, bpb, meta.fatEntries, f);
    meta.fatId := meta.fatEntries[0];
    meta.endOfChainMarker := meta.fatEntries[1];
  }

  /** The call of load_root_dir. */
  method LoadSlots(img: Image, meta: Metadata, ghost v: Volumes.Volume) returns (err: Error, ghost s: Shape)
    requires Mounted(v.bpb, img.contents) && ReadsVolume(img.Disk(Areas(v.bpb)), v)
    requires Blank(meta, v.bpb) && meta.fatEntries[..] == v.fat && meta.endOfChainMarker == END_OF_CHAIN
    modifies meta.rootDir.children, img`position
    ensures err == Success && s.self == meta.rootDir && Rep(s, v.root) && Separate(s) && Parented(s)
    ensures forall o :: o in Objects(s) && o != meta.rootDir && o !in old(meta.rootDir.children) ==> fresh(o)
  {
    err, s := LoadRootDir(img, meta.bpb, meta.fatEntries, meta.endOfChainMarker, meta.rootDir,
                          img.contents, v.fat, v.root);
  }

  /** lf12_read_metadata of an image that holds the metadata `v`. */
  method ReadMetadata(img: Image, ghost v: Volumes.Volume) returns (err: Error, meta: Metadata)
    requires BPB_OFFSET + BPB_SIZE <= |img.contents| && Mounted(v.bpb, img.contents)
    requires DecodeBpb(img.contents[BPB_OFFSET..BPB_OFFSET + BPB_SIZE]) == v.bpb
    requires ReadsVolume(img.Disk(Areas(v.bpb)), v)
    modifies img`position
    ensures err == Success && fresh(meta) && meta.Valid() && meta.Volume() == v && Parented(meta.shape)
    ensures fresh(meta.fatEntries) && forall o :: o in Objects(meta.shape) ==> fresh(o)
  {
    meta := ReadTables(img, v.bpb, v.fat);
    ghost var s;
    err, s := LoadSlots(img, meta, v);
    meta.shape, meta.tree := s, v.root;
    assert Rep(s, v.root) && Separate(s) && Parented(s);
  }
}
