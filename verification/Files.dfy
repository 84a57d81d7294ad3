/** lf12_create_file on the disk and the metadata (src/libfat12/io.c). */
module Files {
  import opened Bytes
  import opened Records
  import opened Options
  import opened Errors
  import opened BiosParameterBlock
  import opened Fat
  import opened Disks
  import opened ChainIo
  import opened Trees
  import opened Volumes
  import opened Creation
  import opened Lookups
  import M = Multiplication

  // ----- lf12_create_file -----

  /** The time stamps of a new entry; how they are computed is not part of this model. */
  datatype Stamp = Stamp(date: U16, time: U16, msecs: Byte)

  function FileRecord(r: Record, first: U16, size: U32, stamp: Stamp): Record {
    r.(attributes := WithArchive(r.attributes), firstCluster := first, fileSize := size,
       createDate := stamp.date, passwordHashOrCreateTime := stamp.time, createTimeOrFirstCharacter := stamp.msecs,
       lastModifiedTime := stamp.time, lastModifiedDate := stamp.date, ownerIdOrLastAccessDate := stamp.date)
  }

  function FileClusters(bytes: nat, size: nat): nat
    requires 0 < size
  {
    bytes / size + if bytes % size != 0 then 1 else 0
  }

  /** A request that the allocator can serve is served from the data area. */
  ghost predicate ServedInData(v: Volume, count: nat)
    requires VolumeSound(v)
  {
    count <= |FreeClusters(v.fat)| ==> count <= Room(Areas(v.bpb), v.fat)
  }

  /** The clusters of a chain for the file fit its bytes exactly, the last one possibly in part. */
  lemma FileClustersFit(bytes: nat, size: nat)
    requires 0 < size
    ensures bytes <= Span(FileClusters(bytes, size), size) < bytes + size
    ensures bytes > 0 <==> 1 <= FileClusters(bytes, size)
  {
    var n := FileClusters(bytes, size);
    SpanIsProduct(n, size);
    M.Distributes(bytes / size, 1, size);
    assert bytes == bytes / size * size + bytes % size;
  }

  lemma VolumeFacts(v: Volume)
    requires VolumeSound(v)
    ensures Allocatable(Areas(v.bpb), v.fat) && Areas(v.bpb).clusterSize == ClusterSize(v.bpb)
    ensures IsDirectory(v.root.rec) && Areas(v.bpb).dataClusters + 4 <= |v.fat|
  {
  }

  lemma ServedChain(v: Volume, count: nat)
    requires VolumeSound(v) && ServedInData(v, count) && Allocate(v.fat, count).0 != 0
    ensures 1 <= count <= |FreeClusters(v.fat)| && count <= Room(Areas(v.bpb), v.fat)
    ensures forall i :: 0 <= i < count ==> 2 <= FreeClusters(v.fat)[i] < Areas(v.bpb).dataClusters + 2
  {
    VolumeFacts(v);
    AllocateFails(v.fat, count);
    AllocateBelow(v.fat, count, Areas(v.bpb).dataClusters + 2);
    forall i | 0 <= i < count ensures FreeClusters(v.fat)[i] < Areas(v.bpb).dataClusters + 2 {
      assert FreeClusters(v.fat)[..count][i] in FreeClusters(v.fat)[..count];
    }
  }

  /** The allocated chain stays in the data area exactly when the request is served from there. */
  lemma ServedIffInData(v: Volume, count: nat)
    requires VolumeSound(v) && Allocate(v.fat, count).0 != 0
    ensures var (first, after) := Allocate(v.fat, count);
            HasChain(after, first) && (ServedInData(v, count) <==> ChainInData(v, ChainOf(after, first)))
  {
    VolumeFacts(v);
    AllocateFails(v.fat, count);
    ChainBelowIff(v.fat, count, Areas(v.bpb).dataClusters + 2);
  }

  ghost predicate ChainInData(v: Volume, s: seq<int>)
    requires VolumeSound(v)
  {
    forall i :: 0 <= i < |s| ==> s[i] < Areas(v.bpb).dataClusters + 2
  }

  ghost function CreateFile(d: Disk, v: Volume, path: Path, src: seq<Byte>, stamp: Stamp): (Error, Disk, Volume)
    requires VolumeSound(v) && Fits(Areas(v.bpb), d) && path != []
    requires ServedInData(v, FileClusters(|src|, ClusterSize(v.bpb)))
  {
    VolumeFacts(v);
    var size := ClusterSize(v.bpb);
    var count := FileClusters(|src|, size);
    var (first, fat) := Allocate(v.fat, count);
    if first == 0 then (ImageFull, d, v.(fat := fat))
    else if Span(count, size) >= 0x1_0000 then (LogicError, d, v.(fat := fat))
    else
      FileClustersFit(|src|, size);
      ServedChain(v, count);
      var d' := WriteChain(d, FreeClusters(v.fat)[..count], Padded(src, Span(count, size)), size);
      var (e, fat', root, a) := CreateEntry(size, fat, v.root, path);
      if e != Success then (e, d', v.(fat := fat', root := root))
      else (Success, d', v.(fat := fat', root := SetRecord(root, a, FileRecord(At(root, a).rec, first, |src|, stamp))))
  }

  // ----- the new entry -----

  /** An entry is placed into the directory at `b` of the tree that directory creation leaves. */
  lemma EntryPlace(size: nat, fat: Table, root: Tree, path: Path)
    requires 0 < size && Indexable(fat) && path != [] && CreateEntry(size, fat, root, path).0 == Success
    ensures var dir, name := path[..|path| - 1], path[|path| - 1];
            var (e, after, t) := MakeDirs(size, fat, root, dir);
            var (e', after', t', a) := CreateEntry(size, fat, root, path);
            && e == Success && after' == after && Lookup(t, dir).Some?
            && var b := Lookup(t, dir).value; var i := SlotFor(At(t, b).kids, name);
               && i < |At(t, b).kids| && a == b + [i] && Valid(t, a) && At(t, a) == At(t, b).kids[i]
               && t' == SetRecord(t, a, At(t, a).rec.(name := name))
  {
    var t, dir := MakeDirs(size, fat, root, path[..|path| - 1]).2, path[..|path| - 1];
    var b := Lookup(t, dir).value;
    var i := SlotFor(At(t, b).kids, path[|path| - 1]);
    ValidAppend(t, b, [i]);
    assert At(At(t, b), [i]) == At(t, b).kids[i];
  }

  lemma LookupName(t: Tree, name: ShortName)
    requires FindFrom(t.kids, name, 0) < |t.kids|
    ensures Lookup(t, [name]) == Some([FindFrom(t.kids, name, 0)])
  {
    assert [name][1..] == [] && Lookup(t.kids[FindFrom(t.kids, name, 0)], []) == Some([]);
    assert [FindFrom(t.kids, name, 0)] + [] == [FindFrom(t.kids, name, 0)];
  }

  /** The path of an existing entry. */
  lemma ExistingPath(t: Tree, dir: Path, name: ShortName)
    requires Lookup(t, dir).Some? && FindFrom(At(t, Lookup(t, dir).value).kids, name, 0) < |At(t, Lookup(t, dir).value).kids|
    ensures var b := Lookup(t, dir).value; var a := b + [FindFrom(At(t, b).kids, name, 0)];
            Valid(t, a) && Lookup(t, dir + [name]) == Some(a) && At(t, a).rec.name == name
  {
    var b := Lookup(t, dir).value;
    LookupName(At(t, b), name);
    LookupAppend(t, dir, [name]);
    var i := FindFrom(At(t, b).kids, name, 0);
    ValidAppend(t, b, [i]);
    assert At(At(t, b), [i]) == At(t, b).kids[i];
  }

  lemma PlacedLeaf(t: Tree, b: Address, i: nat, r: Record)
    requires Valid(t, b) && i < |At(t, b).kids| && At(t, b).kids[i].kids == []
    ensures Valid(t, b + [i]) && SetRecord(t, b + [i], r) == Put(t, b + [i], Node(r, []))
  {
    ValidAppend(t, b, [i]);
    assert At(At(t, b), [i]) == At(t, b).kids[i];
  }

  lemma InsertLeaf(t: Tree, p: Path, i: nat, r: Record, q: Path)
    requires Lookup(t, p).Some? && Plain(q) && PlainName(r.name)
    requires FreeFor(At(t, Lookup(t, p).value), i, r.name)
    ensures var a := Lookup(t, p).value + [i];
            Valid(t, a) && Lookup(Put(t, a, Node(r, [])), q) == if q == p + [r.name] then Some(a) else Lookup(t, q)
  {
    var a := Lookup(t, p).value + [i];
    Insert(t, p, i, Node(r, []), q);
    if p + [r.name] <= q {
      LookupLeaf(Node(r, []), q[|p| + 1..]);
      assert q == (p + [r.name]) + q[|p| + 1..] && a + [] == a;
      if q != p + [r.name] {
        LookupPrefix(t, p + [r.name], q[|p| + 1..]) by {
          LookupAppend(t, p, [r.name]);
        }
      }
    }
  }

  /** After placing, exactly the new path leads to the entry and every other path leads where it led. */
  lemma PlacedLookup(t: Tree, dir: Path, name: ShortName, r: Record, q: Path)
    requires Lookup(t, dir).Some? && PlainName(name) && Plain(q) && r.name == name
    requires var kids := At(t, Lookup(t, dir).value).kids;
             SlotFor(kids, name) < |kids| && kids[SlotFor(kids, name)].kids == []
    ensures var b := Lookup(t, dir).value; var a := b + [SlotFor(At(t, b).kids, name)];
            Valid(t, a) && Lookup(SetRecord(t, a, r), q) == if q == dir + [name] then Some(a) else Lookup(t, q)
  {
    var b := Lookup(t, dir).value;
    var i := SlotFor(At(t, b).kids, name);
    if FindFrom(At(t, b).kids, name, 0) < |At(t, b).kids| {
      ExistingPath(t, dir, name);
      SetRecordLookup(t, b + [i], r, q);
    } else {
      PlacedLeaf(t, b, i, r);
      InsertLeaf(t, dir, i, r, q);
    }
  }

  /** Placing a record whose chain is in no use elsewhere keeps the tree sound. */
  lemma PlacedSound(g: Geometry, fat: Table, t: Tree, a: Address, r: Record)
    requires DirSound(g, fat, t.kids) && Valid(t, a) && a != [] && At(t, a).kids == []
    requires SlotSound(g, fat, Node(r, [])) && OwnClusters(fat, r) !! KidClusters(fat, t.kids)
    ensures DirSound(g, fat, SetRecord(t, a, r).kids)
    ensures SetRecord(t, a, r).rec == t.rec && |SetRecord(t, a, r).kids| == |t.kids|
  {
    PutSound(g, fat, t, a, Node(r, []));
  }
}
