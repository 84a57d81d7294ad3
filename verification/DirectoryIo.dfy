/** Writing directories to the image and scanning them (src/libfat12/io.c). */
module DirectoryIo {
  import opened Bytes
  import opened Records
  import opened Errors
  import opened BiosParameterBlock
  import opened Fat
  import opened Disks
  import opened ChainIo
  import opened Trees
  import opened DirectoryEntries
  import opened DirectoryWrites
  import DT = DirectoryTables

  /** create_directory */
  method CreateDirectory(entry: DirectoryEntry, size: nat, ghost s: Shape, ghost t: Tree) returns (dir: seq<Byte>)
    requires Rep(s, t) && s.self == entry && 32 * |t.kids| <= size
    ensures dir == DT.TableBytes(t.kids, size)
  {
    dir := Zeros(size);
    for i := 0 to |entry.children|
      invariant dir == DT.SlotBytes(t.kids, i) + Zeros(size - 32 * i)
    {
      var child := entry.children[i];
      assert Rep(s.kids[i], t.kids[i]);
      dir := Splice(dir, 32 * i, EncodeRecord(child.rec));
    }
  }

  /** Writes the table of one directory to its chain; one of 64 KiB or more is refused and nothing is written. */
  method WriteTable(img: Image, p: Bpb, fat: array<U16>, marker: U16, entry: DirectoryEntry, ghost s: Shape, ghost t: Tree)
    returns (err: Error)
    requires marker == END_OF_CHAIN && Mounted(p, img.contents)
    requires Rep(s, t) && s.self == entry && DataChain(fat[..], t.rec.firstCluster, DataClusters(p))
    requires 32 * |t.kids| <= ChainBytes(fat[..], t.rec.firstCluster, ClusterSize(p))
    modifies img
    ensures Mounted(p, img.contents)
    ensures err == if ChainBytes(fat[..], t.rec.firstCluster, ClusterSize(p)) < 0x1_0000 then Success else LogicError
    ensures err == Success ==>
              img.Disk(Areas(p)) ==
              WriteChain(old(img.Disk(Areas(p))), ChainOf(fat[..], t.rec.firstCluster),
                         DT.TableBytes(t.kids, ChainBytes(fat[..], t.rec.firstCluster, ClusterSize(p))), ClusterSize(p))
    ensures err != Success ==> img.contents == old(img.contents)
  {
    assert allocated(Objects(s));
    var size := ChainSize(p, fat, marker, entry.rec.firstCluster);
    var dir := CreateDirectory(entry, size, s, t);
    assert Padded(dir, size) == dir;
    TruncatedSizeCheck(size, ClusterSize(p), size);
    WholeChain(ChainOf(fat[..], t.rec.firstCluster), ClusterSize(p), size);
    err := WriteToClusterChain(img, p, fat, marker, dir, entry.rec.firstCluster);
  }

  /** write_directory */
  method WriteDirectory(img: Image, p: Bpb, fat: array<U16>, marker: U16, entry: DirectoryEntry,
                        ghost s: Shape, ghost t: Tree)
    returns (err: Error)
    requires marker == END_OF_CHAIN && Mounted(p, img.contents)
    requires Rep(s, t) && s.self == entry && Writable(Areas(p), fat[..], t)
    modifies img
    ensures Mounted(p, img.contents) && Fits(Areas(p), old(img.Disk(Areas(p))))
    ensures (err, img.Disk(Areas(p))) == PutDir(Areas(p), old(img.Disk(Areas(p))), fat[..], t)
    decreases t, 2
  {
    ViewFits(Areas(p), img.contents);
    if !Used(entry.rec) || !IsDirectory(entry.rec) || IsDotDir(entry.rec) || entry.rec.firstCluster == 0 {
      return Success;
    }
    assert allocated(Objects(s)) && forall o :: o in Objects(s) ==> o as object != img;
    err := WriteChildren(img, p, fat, marker, entry, s, t);
    if err != Success {
      return;
    }
    err := WriteTable(img, p, fat, marker, entry, s, t);
  }

  /** The state of the loop below after `i` turns from the disk `d`, the last with the outcome `err`. */
  ghost predicate WrittenUpTo(img: Image, p: Bpb, fat: array<U16>, s: Shape, t: Tree, d: Disk, i: nat, err: Error)
    reads img, fat, Objects(s)`rec, Objects(s)`children
  {
    && Mounted(p, img.contents) && Rep(s, t) && AllWritable(Areas(p), fat[..], t.kids) && i <= |t.kids|
    && Fits(Areas(p), d) && (err, img.Disk(Areas(p))) == PutKids(Areas(p), d, fat[..], t.kids, i)
  }

  /** One turn of the loop below. */
  method WriteChild(img: Image, p: Bpb, fat: array<U16>, marker: U16, entry: DirectoryEntry, i: nat,
                    ghost s: Shape, ghost t: Tree, ghost d: Disk)
    returns (err: Error)
    requires marker == END_OF_CHAIN && WrittenUpTo(img, p, fat, s, t, d, i, Success) && s.self == entry && i < |t.kids|
    modifies img
    ensures WrittenUpTo(img, p, fat, s, t, d, i + 1, err)
    decreases t, 0
  {
    assert allocated(Objects(s)) && forall o :: o in Objects(s) ==> o as object != img;
    err := WriteDirectory(img, p, fat, marker, entry.children[i], s.kids[i], t.kids[i]);
    assert Rep(s, t);
  }

  lemma {:induction false} PutKidsStops(g: Geometry, d: Disk, fat: Table, kids: seq<Tree>, m: nat, n: nat)
    requires Fits(g, d) && AllWritable(g, fat, kids) && m <= n <= |kids| && PutKids(g, d, fat, kids, m).0 != Success
    ensures PutKids(g, d, fat, kids, n) == PutKids(g, d, fat, kids, m)
    decreases n
  {
    if m < n {
      PutKidsStops(g, d, fat, kids, m, n - 1);
    }
  }

  /** The loop of write_directory and write_root_dir over the slots of a directory, up to the first error. */
  method WriteChildren(img: Image, p: Bpb, fat: array<U16>, marker: U16, entry: DirectoryEntry,
                       ghost s: Shape, ghost t: Tree)
    returns (err: Error)
    requires marker == END_OF_CHAIN && Mounted(p, img.contents)
    requires Rep(s, t) && s.self == entry && AllWritable(Areas(p), fat[..], t.kids)
    modifies img
    ensures Mounted(p, img.contents) && Fits(Areas(p), old(img.Disk(Areas(p))))
    ensures (err, img.Disk(Areas(p))) == PutKids(Areas(p), old(img.Disk(Areas(p))), fat[..], t.kids, |t.kids|)
    decreases t, 1
  {
    ghost var d := img.Disk(Areas(p));
    ViewFits(Areas(p), img.contents);
    err := Success;
    for i := 0 to |entry.children|
      invariant WrittenUpTo(img, p, fat, s, t, d, i, err) && err == Success
    {
      err := WriteChild(img, p, fat, marker, entry, i, s, t, d);
      if err != Success {
        PutKidsStops(Areas(p), d, fat[..], t.kids, i + 1, |t.kids|);
        return;
      }
    }
  }
}
