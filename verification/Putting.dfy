/** What a successful or failed lf12_create_file means for the files of the partition. */
module Putting {
  import opened Bytes
  import opened Records
  import opened Options
  import opened Errors
  import opened BiosParameterBlock
  import opened Fat
  import opened Disks
  import opened ChainIo
  import opened Trees
  import opened Volumes
  import opened Creation
  import opened Lookups
  import opened Placing
  import opened Files
  import opened Contents
  import DT = DirectoryTables

  /** The directory part and the last name of a path. */
  function DirOf(path: Path): Path
    requires path != []
  {
    path[..|path| - 1]
  }

  function LastOf(path: Path): ShortName
    requires path != []
  {
    path[|path| - 1]
  }

  /** The path does not lead to a directory. */
  ghost predicate NoDirectoryAt(t: Tree, path: Path) {
    Lookup(t, path).Some? ==> !IsDirectory(At(t, Lookup(t, path).value).rec)
  }

  /** Enough free clusters in the data area for the file and the missing directories. */
  ghost predicate Putable(v: Volume, path: Path, src: seq<Byte>) {
    && VolumeSound(v) && path != [] && Plain(path) && NoDirectoryAt(v.root, path)
    && FileClusters(|src|, ClusterSize(v.bpb)) +
       Span(Missing(v.root, DirOf(path)), TableClusters(ClusterSize(v.bpb))) <= Room(Areas(v.bpb), v.fat)
  }

  /** The clusters that a put asks for: those of the file and those of the missing directories. */
  ghost function Needed(v: Volume, path: Path, src: seq<Byte>): nat
    requires VolumeSound(v) && path != []
  {
    FileClusters(|src|, ClusterSize(v.bpb)) + Span(Missing(v.root, DirOf(path)), TableClusters(ClusterSize(v.bpb)))
  }

  /**
   A put of which no chain leaves the data area: the data area has the clusters it asks for, or the allocator does
   not have them either.
   */
  ghost predicate PutServed(v: Volume, path: Path, src: seq<Byte>) {
    && VolumeSound(v) && path != [] && Plain(path) && NoDirectoryAt(v.root, path)
    && ServedInData(v, FileClusters(|src|, ClusterSize(v.bpb))) && ServedInData(v, Needed(v, path, src))
  }

  // ----- the slot -----

  /** An existing entry of the path was there before the directories were created. */
  lemma ExistingTarget(size: nat, fat: Table, root: Tree, path: Path, a: Address)
    requires 0 < size && Indexable(fat) && path != [] && Plain(path) && NoDirectoryAt(root, path)
    requires Lookup(MakeDirs(size, fat, root, DirOf(path)).2, path) == Some(a)
    ensures !IsDirectory(At(MakeDirs(size, fat, root, DirOf(path)).2, a).rec)
  {
    assert !(path <= DirOf(path));
    PlainRest(path);
    MakeDirsLookup(size, fat, root, DirOf(path), path);
    MakeDirsGrows(size, fat, root, DirOf(path));
    GrowsLookup(root, MakeDirs(size, fat, root, DirOf(path)).2, path);
  }

  /** The entry takes an existing slot of its name, or a free one. */
  lemma TargetSlot(size: nat, fat: Table, root: Tree, path: Path)
    requires 0 < size && Indexable(fat) && path != [] && CreateEntry(size, fat, root, path).0 == Success
    ensures var t, a := MakeDirs(size, fat, root, DirOf(path)).2, CreateEntry(size, fat, root, path).3;
            a != [] && Valid(t, a) && (Used(At(t, a).rec) ==> Lookup(t, path) == Some(a))
  {
    var t, a := MakeDirs(size, fat, root, DirOf(path)).2, CreateEntry(size, fat, root, path).3;
    EntryPlace(size, fat, root, path);
    var kids := At(t, Lookup(t, DirOf(path)).value).kids;
    assert path == DirOf(path) + [LastOf(path)];
    if FindFrom(kids, LastOf(path), 0) < |kids| {
      ExistingPath(t, DirOf(path), LastOf(path));
    }
  }

  /** The slot that a new file takes is a file or free, so nothing lies below it. */
  lemma TargetIsLeaf(g: Geometry, fat: Table, after: Table, root: Tree, path: Path)
    requires 0 < g.clusterSize && Indexable(fat) && path != [] && Plain(path) && NoDirectoryAt(root, path)
    requires CreateEntry(g.clusterSize, fat, root, path).0 == Success
    requires var t := MakeDirs(g.clusterSize, fat, root, DirOf(path)).2; DirSound(g, after, t.kids)
    ensures var t, a := MakeDirs(g.clusterSize, fat, root, DirOf(path)).2, CreateEntry(g.clusterSize, fat, root, path).3;
            a != [] && Valid(t, a) && At(t, a).kids == [] && !IsDirectory(At(t, a).rec)
  {
    var t, a := MakeDirs(g.clusterSize, fat, root, DirOf(path)).2, CreateEntry(g.clusterSize, fat, root, path).3;
    TargetSlot(g.clusterSize, fat, root, path);
    SoundAt(g, after, t, a);
    if Used(At(t, a).rec) {
      ExistingTarget(g.clusterSize, fat, root, path, a);
    }
  }

  // ----- soundness -----

  /** The allocated chain is apart from everything that the tree refers to. */
  lemma AllocatedApart(v: Volume, count: nat)
    requires VolumeSound(v) && 1 <= count <= Room(Areas(v.bpb), v.fat)
    ensures var g, (first, fat) := Areas(v.bpb), Allocate(v.fat, count);
            && count <= |FreeClusters(v.fat)| && first == FreeClusters(v.fat)[0] != 0
            && Extends(v.fat, fat) && Allocatable(g, fat) && Room(g, fat) == Room(g, v.fat) - count
            && DataChain(fat, first, g.dataClusters) && ChainOf(fat, first) == FreeClusters(v.fat)[..count]
            && DirSound(g, fat, v.root.kids) && KidClusters(fat, v.root.kids) == KidClusters(v.fat, v.root.kids)
  {
    var g := Areas(v.bpb);
    VolumeFacts(v);
    AllocateBelow(v.fat, count, g.dataClusters + 2);
    AllocateFirstFit(v.fat, count);
    var s := FreeClusters(v.fat)[..count];
    assert forall i :: 0 <= i < |s| ==> s[i] in s;
    DirSoundExtends(g, v.fat, Allocate(v.fat, count).1, v.root.kids);
  }

  /** A chain for a new file that nothing in the tree refers to, and clusters for the missing directories. */
  ghost predicate ReadyFor(g: Geometry, fat: Table, root: Tree, path: Path, first: U16) {
    && Allocatable(g, fat) && DirSound(g, fat, root.kids) && IsDirectory(root.rec)
    && path != [] && Plain(path) && NoDirectoryAt(root, path)
    && Span(Missing(root, DirOf(path)), TableClusters(g.clusterSize)) <= Room(g, fat)
    && DataChain(fat, first, g.dataClusters) && Clusters(fat, first) !! KidClusters(fat, root.kids)
    && CreateEntry(g.clusterSize, fat, root, path).0 == Success
  }

  /** The tree with the finished entry. */
  ghost function WithFile(g: Geometry, fat: Table, root: Tree, path: Path, first: U16, n: U32, stamp: Stamp): Tree
    requires 0 < g.clusterSize && Indexable(fat) && path != []
    requires CreateEntry(g.clusterSize, fat, root, path).0 == Success
  {
    var (e, after, t, a) := CreateEntry(g.clusterSize, fat, root, path);
    SetRecord(t, a, FileRecord(At(t, a).rec, first, n, stamp))
  }

  lemma FileSlotSound(g: Geometry, fat: Table, r: Record, first: U16, n: U32, stamp: Stamp)
    requires PlainName(r.name) && !IsDirectory(r) && DataChain(fat, first, g.dataClusters)
    ensures var f := FileRecord(r, first, n, stamp);
            SlotSound(g, fat, Node(f, [])) && Live(f) && !IsDirectory(f) && OwnClusters(fat, f) == Clusters(fat, first)
  {
    NewSlotIsUsed(r.name);
  }

  /** The tree that directory creation leaves for the entry. */
  ghost function Prepared(g: Geometry, fat: Table, root: Tree, path: Path): Tree
    requires 0 < g.clusterSize && Indexable(fat) && path != []
  {
    MakeDirs(g.clusterSize, fat, root, DirOf(path)).2
  }

  lemma PreparedSound(g: Geometry, fat: Table, root: Tree, path: Path, first: U16)
    requires ReadyFor(g, fat, root, path, first)
    ensures var after, t := CreateEntry(g.clusterSize, fat, root, path).1, Prepared(g, fat, root, path);
            && Extends(fat, after) && KeptOutside(g.dataClusters + 2, fat, after)
            && DirSound(g, after, t.kids) && t.rec == root.rec && |t.kids| == |root.kids|
            && DataChain(after, first, g.dataClusters) && ChainOf(after, first) == ChainOf(fat, first)
            && Clusters(after, first) !! KidClusters(after, t.kids)
  {
    PlainRest(path);
    MakeDirsSound(g, fat, root, DirOf(path));
    MakeDirsKeptOutside(g, fat, root, DirOf(path));
    EntryPlace(g.clusterSize, fat, root, path);
    var after := MakeDirs(g.clusterSize, fat, root, DirOf(path)).1;
    ClustersSurvive(fat, after, first);
    forall c | c in Clusters(after, first) ensures c !in KidClusters(after, Prepared(g, fat, root, path).kids) {
      ChainIsAllocated(fat, first, c);
    }
  }

  /** The finished entry is the prepared tree with one record set. */
  lemma WithFileIsSet(g: Geometry, fat: Table, root: Tree, path: Path, first: U16, n: U32, stamp: Stamp)
    requires ReadyFor(g, fat, root, path, first)
    ensures var t, a := Prepared(g, fat, root, path), CreateEntry(g.clusterSize, fat, root, path).3;
            && a != [] && Valid(t, a) && At(t, a).kids == [] && !IsDirectory(At(t, a).rec)
            && WithFile(g, fat, root, path, first, n, stamp) ==
               SetRecord(t, a, FileRecord(At(t, a).rec.(name := LastOf(path)), first, n, stamp))
  {
    PreparedSound(g, fat, root, path, first);
    EntryPlace(g.clusterSize, fat, root, path);
    TargetIsLeaf(g, fat, CreateEntry(g.clusterSize, fat, root, path).1, root, path);
    var t, a := Prepared(g, fat, root, path), CreateEntry(g.clusterSize, fat, root, path).3;
    var r := At(t, a).rec.(name := LastOf(path));
    SetRecordElsewhere(t, a, r, a);
    SetRecordTwice(t, a, r, FileRecord(r, first, n, stamp));
  }

  lemma WithFileSound(g: Geometry, fat: Table, root: Tree, path: Path, first: U16, n: U32, stamp: Stamp)
    requires ReadyFor(g, fat, root, path, first)
    ensures var after, t := CreateEntry(g.clusterSize, fat, root, path).1, WithFile(g, fat, root, path, first, n, stamp);
            DirSound(g, after, t.kids) && t.rec == root.rec && |t.kids| == |root.kids|
  {
    PreparedSound(g, fat, root, path, first);
    WithFileIsSet(g, fat, root, path, first, n, stamp);
    var after, t, a := CreateEntry(g.clusterSize, fat, root, path).1, Prepared(g, fat, root, path),
                       CreateEntry(g.clusterSize, fat, root, path).3;
    var r := At(t, a).rec.(name := LastOf(path));
    FileSlotSound(g, after, r, first, n, stamp);
    PlacedSound(g, after, t, a, FileRecord(r, first, n, stamp));
  }

  /** The new path leads to the finished entry, and no other path leads elsewhere than in the prepared tree. */
  lemma WithFileLookup(g: Geometry, fat: Table, root: Tree, path: Path, first: U16, n: U32, stamp: Stamp, q: Path)
    requires ReadyFor(g, fat, root, path, first) && Plain(q)
    ensures var t, t' := Prepared(g, fat, root, path), WithFile(g, fat, root, path, first, n, stamp);
            var a := CreateEntry(g.clusterSize, fat, root, path).3;
            Lookup(t', q) == if q == path then Some(a) else Lookup(t, q)
  {
    var t, a := Prepared(g, fat, root, path), CreateEntry(g.clusterSize, fat, root, path).3;
    WithFileIsSet(g, fat, root, path, first, n, stamp);
    EntryPlace(g.clusterSize, fat, root, path);
    assert path == DirOf(path) + [LastOf(path)];
    PlacedLookup(t, DirOf(path), LastOf(path), FileRecord(At(t, a).rec.(name := LastOf(path)), first, n, stamp), q);
  }

  // ----- what a successful call does -----

  /** The table and the chain that lf12_create_file allocates for the bytes of the file. */
  ghost function Allocated(v: Volume, src: seq<Byte>): (U16, Fat.Table)
    requires VolumeSound(v)
  {
    Allocate(v.fat, FileClusters(|src|, ClusterSize(v.bpb)))
  }

  ghost function FileChain(v: Volume, src: seq<Byte>): seq<int>
    requires VolumeSound(v) && FileClusters(|src|, ClusterSize(v.bpb)) <= |FreeClusters(v.fat)|
  {
    FreeClusters(v.fat)[..FileClusters(|src|, ClusterSize(v.bpb))]
  }

  lemma FileChainApart(v: Volume, path: Path, src: seq<Byte>)
    requires Putable(v, path, src) && src != []
    ensures var (first, fat) := Allocated(v, src); var g := Areas(v.bpb);
            && first != 0 && Extends(v.fat, fat) && KeptOutside(g.dataClusters + 2, v.fat, fat)
            && FileClusters(|src|, ClusterSize(v.bpb)) <= |FreeClusters(v.fat)|
            && DataChain(fat, first, g.dataClusters) && ChainOf(fat, first) == FileChain(v, src)
            && (CreateEntry(g.clusterSize, fat, v.root, path).0 == Success ==> ReadyFor(g, fat, v.root, path, first))
            && forall c :: c in FileChain(v, src) ==> 2 <= c < |v.fat| && v.fat[c] == 0
  {
    var size, count := ClusterSize(v.bpb), FileClusters(|src|, ClusterSize(v.bpb));
    FileClustersFit(|src|, size);
    VolumeFacts(v);
    AllocatedApart(v, count);
    AllocateKeptOutside(v.fat, count, Areas(v.bpb).dataClusters + 2);
    var (first, fat) := Allocated(v, src);
    forall c | c in Clusters(fat, first) ensures c !in KidClusters(fat, v.root.kids) {
      if c in KidClusters(v.fat, v.root.kids) {
        RootClustersAllocated(v, c);
      }
    }
  }

  lemma RootClustersAllocated(v: Volume, c: int)
    requires VolumeSound(v) && c in KidClusters(v.fat, v.root.kids)
    ensures 2 <= c < |v.fat| && v.fat[c] != 0
  {
    var i :| 0 <= i < |v.root.kids| && c in TreeClusters(v.fat, v.root.kids[i]);
    SoundClustersAllocated(Areas(v.bpb), v.fat, v.root.kids[i], c);
  }

  /** Size of the chain in bytes. */
  ghost function FileSpan(v: Volume, src: seq<Byte>): nat
    requires VolumeSound(v)
  {
    Span(FileClusters(|src|, ClusterSize(v.bpb)), ClusterSize(v.bpb))
  }

  /** The disk and the metadata after a successful lf12_create_file. */
  ghost predicate Created(d: Disk, v: Volume, path: Path, src: seq<Byte>, stamp: Stamp, d': Disk, v': Volume)
    requires VolumeSound(v)
  {
    var g, first, fat := Areas(v.bpb), Allocated(v, src).0, Allocated(v, src).1;
    && path != [] && |src| < 0x1_0000 && |src| <= FileSpan(v, src)
    && FileClusters(|src|, g.clusterSize) <= |FreeClusters(v.fat)| && InData(d, FileChain(v, src))
    && CreateEntry(g.clusterSize, fat, v.root, path).0 == Success
    && v' == v.(fat := CreateEntry(g.clusterSize, fat, v.root, path).1,
                root := WithFile(g, fat, v.root, path, first, |src|, stamp))
    && d' == WriteChain(d, FileChain(v, src), Padded(src, FileSpan(v, src)), g.clusterSize)
  }

  lemma CreateFileOutcome(d: Disk, v: Volume, path: Path, src: seq<Byte>, stamp: Stamp)
    requires Putable(v, path, src) && src != [] && Fits(Areas(v.bpb), d)
    ensures var (e, d', v') := CreateFile(d, v, path, src, stamp);
            && (e == Success <==> FileSpan(v, src) < 0x1_0000 &&
                                  CreateEntry(ClusterSize(v.bpb), Allocated(v, src).1, v.root, path).0 == Success)
            && (e == Success ==> Created(d, v, path, src, stamp, d', v'))
  {
    FileChainApart(v, path, src);
    VolumeFacts(v);
    FileClustersFit(|src|, ClusterSize(v.bpb));
    ServedChain(v, FileClusters(|src|, ClusterSize(v.bpb)));
  }

  /**
   With enough free data clusters, lf12_create_file succeeds exactly when the cluster-rounded source stays below
   64 KiB and there is a place for the path.
   */
  lemma CreateFileSucceeds(d: Disk, v: Volume, path: Path, src: seq<Byte>, stamp: Stamp)
    requires Putable(v, path, src) && src != [] && Fits(Areas(v.bpb), d)
    ensures var (e, d', v') := CreateFile(d, v, path, src, stamp);
            && (e == Success <==> FileSpan(v, src) < 0x1_0000 && HasPlace(v.root, path))
            && (e == Success ==> Created(d, v, path, src, stamp, d', v'))
  {
    CreateFileOutcome(d, v, path, src, stamp);
    VolumeFacts(v);
    FileClustersFit(|src|, ClusterSize(v.bpb));
    AllocatedApart(v, FileClusters(|src|, ClusterSize(v.bpb)));
    CreateEntryIffPlace(Areas(v.bpb), Allocated(v, src).1, v.root, path);
  }

  lemma SuccessParts(d: Disk, v: Volume, path: Path, src: seq<Byte>, stamp: Stamp)
    requires PutServed(v, path, src) && Fits(Areas(v.bpb), d) && CreateFile(d, v, path, src, stamp).0 == Success
    ensures 0 < ClusterSize(v.bpb) && Indexable(v.fat) && Allocated(v, src).0 != 0
    ensures CreateEntry(ClusterSize(v.bpb), Allocated(v, src).1, v.root, path).0 == Success
  {
  }

  lemma EntryUses(size: nat, fat: Table, root: Tree, path: Path)
    requires 0 < size && Indexable(fat) && path != [] && Plain(path) && CreateEntry(size, fat, root, path).0 == Success
    ensures Span(Missing(root, DirOf(path)), TableClusters(size)) <= |FreeClusters(fat)|
  {
    PlainRest(path);
    EntryPlace(size, fat, root, path);
    MakeDirsUses(size, fat, root, DirOf(path));
  }

  lemma ChainAndEntryUse(size: nat, fat: Table, count: nat, root: Tree, path: Path)
    requires 0 < size && Indexable(fat) && path != [] && Plain(path) && Allocate(fat, count).0 != 0
    requires CreateEntry(size, Allocate(fat, count).1, root, path).0 == Success
    ensures 1 <= count && count + Span(Missing(root, DirOf(path)), TableClusters(size)) <= |FreeClusters(fat)|
  {
    AllocateFails(fat, count);
    AllocateUsesUp(fat, count);
    EntryUses(size, Allocate(fat, count).1, root, path);
  }

  /** Success needs all the clusters, wherever they lie. */
  lemma CreateFileUses(d: Disk, v: Volume, path: Path, src: seq<Byte>, stamp: Stamp)
    requires PutServed(v, path, src) && Fits(Areas(v.bpb), d) && CreateFile(d, v, path, src, stamp).0 == Success
    ensures src != [] && Needed(v, path, src) <= |FreeClusters(v.fat)|
  {
    SuccessParts(d, v, path, src, stamp);
    FileClustersFit(|src|, ClusterSize(v.bpb));
    ChainAndEntryUse(ClusterSize(v.bpb), v.fat, FileClusters(|src|, ClusterSize(v.bpb)), v.root, path);
  }

  /** A put that is served succeeds exactly when there are data clusters, a small enough source, and a place. */
  lemma ServedPutSucceeds(d: Disk, v: Volume, path: Path, src: seq<Byte>, stamp: Stamp)
    requires PutServed(v, path, src) && Fits(Areas(v.bpb), d)
    ensures CreateFile(d, v, path, src, stamp).0 == Success <==>
            src != [] && Needed(v, path, src) <= Room(Areas(v.bpb), v.fat) && FileSpan(v, src) < 0x1_0000 &&
            HasPlace(v.root, path)
    ensures CreateFile(d, v, path, src, stamp).0 == Success ==> Putable(v, path, src)
  {
    if CreateFile(d, v, path, src, stamp).0 == Success {
      CreateFileUses(d, v, path, src, stamp);
    }
    if src != [] && Putable(v, path, src) {
      CreateFileSucceeds(d, v, path, src, stamp);
    }
  }

  lemma TableStaysSound(v: Volume, mid: Fat.Table, after: Fat.Table)
    requires VolumeSound(v) && KeptOutside(Areas(v.bpb).dataClusters + 2, v.fat, mid)
    requires KeptOutside(Areas(v.bpb).dataClusters + 2, mid, after)
    ensures TableSound(v.bpb, after)
  {
    VolumeFacts(v);
  }

  /** After a successful call the metadata is sound again and no table entry in use has changed. */
  lemma CreatedSound(d: Disk, v: Volume, path: Path, src: seq<Byte>, stamp: Stamp, d': Disk, v': Volume)
    requires Putable(v, path, src) && src != [] && Fits(Areas(v.bpb), d) && Created(d, v, path, src, stamp, d', v')
    ensures VolumeSound(v') && v'.bpb == v.bpb && Extends(v.fat, v'.fat) && Fits(Areas(v.bpb), d')
  {
    var g, first, fat := Areas(v.bpb), Allocated(v, src).0, Allocated(v, src).1;
    FileChainApart(v, path, src);
    PreparedSound(g, fat, v.root, path, first);
    WithFileSound(g, fat, v.root, path, first, |src|, stamp);
    TableStaysSound(v, fat, v'.fat);
    ExtendsTwice(v.fat, fat, v'.fat);
    WriteChainFits(g, d, FileChain(v, src), Padded(src, FileSpan(v, src)));
  }

  /** A slot dumps the same bytes after table entries were added and other clusters were written. */
  lemma OldSlotKept(g: Geometry, fat: Fat.Table, after: Fat.Table, d: Disk, d': Disk, t: Tree)
    requires Indexable(fat) && Extends(fat, after) && SlotSound(g, fat, t) && Fits(g, d) && Fits(g, d')
    requires DT.AgreeOn(d, d', OwnClusters(fat, t.rec))
    ensures Dumpable(g, after, t.rec) <==> Dumpable(g, fat, t.rec)
    ensures Dumpable(g, fat, t.rec) ==> Dump(g, d', after, t.rec) == Dump(g, d, fat, t.rec)
  {
    if Live(t.rec) && t.rec.firstCluster != 0 {
      ClustersSurvive(fat, after, t.rec.firstCluster);
    }
    if Dumpable(g, fat, t.rec) {
      DumpFrame(g, d, d', fat, t.rec);
    }
  }

  lemma WriteChainAgrees(d: Disk, s: seq<int>, data: seq<Byte>, size: nat, cs: set<int>)
    requires InData(d, s) && |data| == Span(|s|, size) && forall c :: c in s ==> c !in cs
    ensures DT.AgreeOn(d, WriteChain(d, s, data, size), cs)
  {
    forall c | c in cs && 2 <= c < |d.clusters| + 2
      ensures WriteChain(d, s, data, size).clusters[c - 2] == d.clusters[c - 2]
    {
      WriteChainFrame(d, s, data, size, c);
    }
  }

  /** The call writes to no cluster that the tree refers to. */
  lemma CreatedApart(d: Disk, v: Volume, path: Path, src: seq<Byte>, stamp: Stamp, d': Disk, v': Volume)
    requires Putable(v, path, src) && src != [] && Fits(Areas(v.bpb), d) && Created(d, v, path, src, stamp, d', v')
    ensures DT.AgreeOn(d, d', KidClusters(v.fat, v.root.kids))
  {
    FileChainApart(v, path, src);
    forall c | c in FileChain(v, src) ensures c !in KidClusters(v.fat, v.root.kids) {
      if c in KidClusters(v.fat, v.root.kids) {
        RootClustersAllocated(v, c);
      }
    }
    WriteChainAgrees(d, FileChain(v, src), Padded(src, FileSpan(v, src)), ClusterSize(v.bpb),
                     KidClusters(v.fat, v.root.kids));
  }

  // ----- the contents after a successful call -----

  /** The new path holds exactly the bytes of the source. */
  lemma NewContent(d: Disk, v: Volume, path: Path, src: seq<Byte>, stamp: Stamp, d': Disk, v': Volume)
    requires Putable(v, path, src) && src != [] && Fits(Areas(v.bpb), d) && Created(d, v, path, src, stamp, d', v')
    requires Sound(v'.bpb) && Fits(Areas(v'.bpb), d')
    ensures FileContent(d', v', path) == Some(src)
  {
    var g, first, fat := Areas(v.bpb), Allocated(v, src).0, Allocated(v, src).1;
    FileChainApart(v, path, src);
    PreparedSound(g, fat, v.root, path, first);
    WithFileLookup(g, fat, v.root, path, first, |src|, stamp, path);
    WithFileIsSet(g, fat, v.root, path, first, |src|, stamp);
    PlainRest(path);
    var t, a := Prepared(g, fat, v.root, path), CreateEntry(g.clusterSize, fat, v.root, path).3;
    var r := At(t, a).rec.(name := LastOf(path));
    SetRecordElsewhere(t, a, FileRecord(r, first, |src|, stamp), a);
    FileSlotSound(g, v'.fat, r, first, |src|, stamp);
    FileDumps(g, d, v'.fat, FileRecord(r, first, |src|, stamp), src);
  }

  /** Dumping a file whose chain was filled with the padded source. */
  lemma FileDumps(g: Geometry, d: Disk, fat: Fat.Table, r: Record, src: seq<Byte>)
    requires Fits(g, d) && Live(r) && !IsDirectory(r) && r.firstCluster != 0 && r.fileSize == |src|
    requires DataChain(fat, r.firstCluster, g.dataClusters)
    requires |src| <= ChainBytes(fat, r.firstCluster, g.clusterSize)
    ensures var s, n := ChainOf(fat, r.firstCluster), ChainBytes(fat, r.firstCluster, g.clusterSize);
            var d' := WriteChain(d, s, Padded(src, n), g.clusterSize);
            Fits(g, d') && Dumpable(g, fat, r) && Dump(g, d', fat, r) == src
  {
    var s, n := ChainOf(fat, r.firstCluster), ChainBytes(fat, r.firstCluster, g.clusterSize);
    WriteChainFits(g, d, s, Padded(src, n));
    ChainIsDistinct(fat, s);
    ChainRoundTrip(d, s, Padded(src, n), g.clusterSize);
  }

  /** A path that led nowhere or to an entry: afterwards it leads to the same record, unless it is a new directory. */
  lemma OldRecord(v: Volume, path: Path, src: seq<Byte>, stamp: Stamp, d: Disk, d': Disk, v': Volume, q: Path)
    requires Putable(v, path, src) && src != [] && Fits(Areas(v.bpb), d) && Created(d, v, path, src, stamp, d', v')
    requires Plain(q) && q != path && q != []
    ensures match Lookup(v.root, q)
            case None => Lookup(v'.root, q).Some? ==> IsDirectory(At(v'.root, Lookup(v'.root, q).value).rec)
            case Some(a) => Lookup(v'.root, q) == Some(a) && At(v'.root, a).rec == At(v.root, a).rec
  {
    var g, first, fat := Areas(v.bpb), Allocated(v, src).0, Allocated(v, src).1;
    FileChainApart(v, path, src);
    WithFileLookup(g, fat, v.root, path, first, |src|, stamp, q);
    WithFileLookup(g, fat, v.root, path, first, |src|, stamp, path);
    WithFileIsSet(g, fat, v.root, path, first, |src|, stamp);
    var t := Prepared(g, fat, v.root, path);
    PreparedRecord(g.clusterSize, fat, v.root, path, q);
    if Lookup(t, q).Some? {
      var a, b := CreateEntry(g.clusterSize, fat, v.root, path).3, Lookup(t, q).value;
      LookupNames(v'.root, q);
      LookupNames(v'.root, path);
      SetRecordElsewhere(t, a, FileRecord(At(t, a).rec.(name := LastOf(path)), first, |src|, stamp), b);
    }
  }

  lemma PreparedRecord(size: nat, fat: Fat.Table, root: Tree, path: Path, q: Path)
    requires 0 < size && Indexable(fat) && path != [] && Plain(path) && Plain(q) && q != [] && IsDirectory(root.rec)
    requires MakeDirs(size, fat, root, DirOf(path)).0 == Success
    ensures var t := MakeDirs(size, fat, root, DirOf(path)).2;
            match Lookup(root, q)
            case None => Lookup(t, q).Some? ==> IsDirectory(At(t, Lookup(t, q).value).rec)
            case Some(a) => Lookup(t, q) == Some(a) && At(t, a).rec == At(root, a).rec
  {
    PlainRest(path);
    if Lookup(root, q).Some? {
      MakeDirsGrows(size, fat, root, DirOf(path));
      GrowsLookup(root, MakeDirs(size, fat, root, DirOf(path)).2, q);
    } else if q <= DirOf(path) {
      MakeDirsPrefix(size, fat, root, DirOf(path), q);
    } else {
      MakeDirsLookup(size, fat, root, DirOf(path), q);
    }
  }

  /** Every other path holds what it held before. */
  lemma OldContent(d: Disk, v: Volume, path: Path, src: seq<Byte>, stamp: Stamp, d': Disk, v': Volume, q: Path)
    requires Putable(v, path, src) && src != [] && Fits(Areas(v.bpb), d) && Created(d, v, path, src, stamp, d', v')
    requires Plain(q) && q != path && VolumeSound(v') && v'.bpb == v.bpb && Fits(Areas(v.bpb), d')
    requires Extends(v.fat, v'.fat)
    ensures FileContent(d', v', q) == FileContent(d, v, q)
  {
    RootIsNoFile();
    if q != [] {
      OldRecord(v, path, src, stamp, d, d', v', q);
      if Lookup(v.root, q).Some? {
        var a := Lookup(v.root, q).value;
        SoundAt(Areas(v.bpb), v.fat, v.root, a);
        CreatedApart(d, v, path, src, stamp, d', v');
        OldSlotKept(Areas(v.bpb), v.fat, v'.fat, d, d', At(v.root, a));
      }
    }
  }

  // ----- main results -----

  /**
   Put, save and load: if lf12_create_file succeeds and the metadata is written, then the metadata read from
   the disk is sound, the path holds exactly the source, and every other path holds what it held before.
   */
  lemma PutThenGet(d: Disk, v: Volume, path: Path, src: seq<Byte>, stamp: Stamp, loaded: Volume, q: Path)
    requires Putable(v, path, src) && src != [] && Fits(Areas(v.bpb), d) && Plain(q)
    requires CreateFile(d, v, path, src, stamp).0 == Success
    ensures var (e, d', v') := CreateFile(d, v, path, src, stamp); VolumeSound(v') && Fits(Areas(v'.bpb), d')
    ensures var (e, d', v') := CreateFile(d, v, path, src, stamp); var saved := WriteMetadata(d', v');
            && ReadsVolume(saved, FilledVolume(v'))
            && (ReadsVolume(saved, loaded) ==>
                  FileContent(saved, loaded, q) == if q == path then Some(src) else FileContent(d, v, q))
  {
    var (e, d', v') := CreateFile(d, v, path, src, stamp);
    CreateFileSucceeds(d, v, path, src, stamp);
    CreatedSound(d, v, path, src, stamp, d', v');
    SavedContent(d, v, path, src, stamp, d', v', loaded, q);
  }

  lemma SavedContent(d: Disk, v: Volume, path: Path, src: seq<Byte>, stamp: Stamp, d': Disk, v': Volume,
                     loaded: Volume, q: Path)
    requires Putable(v, path, src) && src != [] && Fits(Areas(v.bpb), d) && Plain(q)
    requires Created(d, v, path, src, stamp, d', v')
    requires VolumeSound(v') && v'.bpb == v.bpb && Extends(v.fat, v'.fat) && Fits(Areas(v.bpb), d')
    ensures var saved := WriteMetadata(d', v');
            && ReadsVolume(saved, FilledVolume(v'))
            && (ReadsVolume(saved, loaded) ==>
                  FileContent(saved, loaded, q) == if q == path then Some(src) else FileContent(d, v, q))
  {
    var saved := WriteMetadata(d', v');
    MetadataRoundTrip(d', v');
    WriteKeepsContents(d', v', q);
    if q == path {
      NewContent(d, v, path, src, stamp, d', v');
    } else {
      OldContent(d, v, path, src, stamp, d', v', q);
    }
    if ReadsVolume(saved, loaded) {
      ReadsVolumeIsUnique(saved, loaded, FilledVolume(v'));
    }
  }

  /** Successful or not, the call leaves the disk alone or has written to clusters that were free. */
  lemma FailedDisk(d: Disk, v: Volume, path: Path, src: seq<Byte>, stamp: Stamp, cs: set<int>)
    requires VolumeSound(v) && Fits(Areas(v.bpb), d) && path != []
    requires ServedInData(v, FileClusters(|src|, ClusterSize(v.bpb)))
    requires forall c :: c in cs ==> 0 <= c < |v.fat| && v.fat[c] != 0
    ensures var d' := CreateFile(d, v, path, src, stamp).1;
            Fits(Areas(v.bpb), d') && d' == d.(clusters := d'.clusters) && DT.AgreeOn(d, d', cs)
  {
    var size, count := ClusterSize(v.bpb), FileClusters(|src|, ClusterSize(v.bpb));
    VolumeFacts(v);
    if Allocate(v.fat, count).0 != 0 && Span(count, size) < 0x1_0000 {
      ServedChain(v, count);
      FileClustersFit(|src|, size);
      var s, data := FreeClusters(v.fat)[..count], Padded(src, Span(count, size));
      WriteChainFits(Areas(v.bpb), d, s, data);
      WriteChainAgrees(d, s, data, size, cs);
    }
  }

  /** The clusters of the data area that the table marks as used. */
  ghost function UsedClusters(v: Volume): set<int> {
    set c | 0 <= c < |v.fat| && v.fat[c] != 0
  }

  /** Metadata and contents do not depend on free clusters. */
  lemma FreeClustersAreInvisible(d: Disk, d': Disk, v: Volume, q: Path)
    requires VolumeSound(v) && ReadsVolume(d, v) && Fits(Areas(v.bpb), d') && d' == d.(clusters := d'.clusters)
    requires DT.AgreeOn(d, d', UsedClusters(v))
    ensures ReadsVolume(d', v) && FileContent(d', v, q) == FileContent(d, v, q)
  {
    forall c | c in KidClusters(v.fat, v.root.kids) ensures c in UsedClusters(v) {
      RootClustersAllocated(v, c);
    }
    ReadsVolumeFrame(d, d', v);
    ContentFrame(d, d', v, q);
  }

  /**
   A failed lf12_create_file, after which f12_put does not write the metadata, cannot be seen: the disk still
   reads as the same metadata, every path holds what it held, and only free clusters were written.
   */
  lemma FailedPutIsInvisible(d: Disk, v: Volume, path: Path, src: seq<Byte>, stamp: Stamp, q: Path)
    requires VolumeSound(v) && ReadsVolume(d, v) && path != []
    requires ServedInData(v, FileClusters(|src|, ClusterSize(v.bpb)))
    requires CreateFile(d, v, path, src, stamp).0 != Success
    ensures var d' := CreateFile(d, v, path, src, stamp).1;
            && Fits(Areas(v.bpb), d') && DT.AgreeOn(d, d', UsedClusters(v))
            && ReadsVolume(d', v) && FileContent(d', v, q) == FileContent(d, v, q)
  {
    FailedDisk(d, v, path, src, stamp, UsedClusters(v));
    FreeClustersAreInvisible(d, CreateFile(d, v, path, src, stamp).1, v, q);
  }

  /** An empty file can never be put: the request for no cluster answers 0, which reads as a full image. */
  lemma EmptyFileIsRejected(d: Disk, v: Volume, path: Path, stamp: Stamp)
    requires VolumeSound(v) && Fits(Areas(v.bpb), d) && path != []
    ensures FileClusters(0, ClusterSize(v.bpb)) == 0 && ServedInData(v, 0)
    ensures CreateFile(d, v, path, [], stamp).0 == ImageFull
    ensures CreateFile(d, v, path, [], stamp).2.fat == Link(v.fat, FreeClusters(v.fat))
  {
    VolumeFacts(v);
  }
}
