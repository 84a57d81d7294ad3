/**
 The outcome of write_directory and write_root_dir, with the error for a directory whose chain has 64 KiB or more
 (src/libfat12/io.c).
 */
module DirectoryWrites {
  import opened Records
  import opened Errors
  import opened Fat
  import opened Disks
  import opened ChainIo
  import opened Trees
  import opened Volumes
  import opened BiosParameterBlock
  import DT = DirectoryTables

  /** write_directory writes a table for the slot. */
  predicate HasTable(r: Record) {
    Descends(r) && r.firstCluster != 0
  }

  /** Directories have complete chains with room for their slots; chains may be shared, and of any size. */
  ghost predicate Writable(g: Geometry, fat: Table, t: Tree) {
    HasTable(t.rec) ==>
      && DataChain(fat, t.rec.firstCluster, g.dataClusters)
      && 32 * |t.kids| <= ChainBytes(fat, t.rec.firstCluster, g.clusterSize)
      && AllWritable(g, fat, t.kids)
  }

  ghost predicate AllWritable(g: Geometry, fat: Table, kids: seq<Tree>) {
    forall i :: 0 <= i < |kids| ==> Writable(g, fat, kids[i])
  }

  /** The table of a slot, written to its chain. */
  ghost function PutTable(g: Geometry, d: Disk, fat: Table, t: Tree): (r: (Error, Disk))
    requires Fits(g, d) && HasTable(t.rec) && Writable(g, fat, t)
    ensures Fits(g, r.1) && r.1 == d.(clusters := r.1.clusters)
  {
    var s, size := ChainOf(fat, t.rec.firstCluster), ChainBytes(fat, t.rec.firstCluster, g.clusterSize);
    if size >= 0x1_0000 then (LogicError, d)
    else
      WriteChainFits(g, d, s, DT.TableBytes(t.kids, size));
      (Success, WriteChain(d, s, DT.TableBytes(t.kids, size), g.clusterSize))
  }

  /** write_directory: the tables below first; the first error ends the recursion. */
  ghost function PutDir(g: Geometry, d: Disk, fat: Table, t: Tree): (r: (Error, Disk))
    requires Fits(g, d) && Writable(g, fat, t)
    ensures Fits(g, r.1) && r.1 == d.(clusters := r.1.clusters)
    decreases t
  {
    if !HasTable(t.rec) then (Success, d)
    else
      var (e, below) := PutKids(g, d, fat, t.kids, |t.kids|);
      if e != Success then (e, below) else PutTable(g, below, fat, t)
  }

  /** The loop over the first `n` slots. */
  ghost function PutKids(g: Geometry, d: Disk, fat: Table, kids: seq<Tree>, n: nat): (r: (Error, Disk))
    requires Fits(g, d) && AllWritable(g, fat, kids) && n <= |kids|
    ensures Fits(g, r.1) && r.1 == d.(clusters := r.1.clusters)
    decreases kids, n
  {
    if n == 0 then (Success, d)
    else
      var (e, before) := PutKids(g, d, fat, kids, n - 1);
      if e != Success then (e, before) else PutDir(g, before, fat, kids[n - 1])
  }

  // ----- when it succeeds -----

  /** All directories at and below the slot have chains below 64 KiB. */
  ghost predicate Below64K(g: Geometry, fat: Table, t: Tree) {
    HasTable(t.rec) ==>
      && HasChain(fat, t.rec.firstCluster) && ChainBytes(fat, t.rec.firstCluster, g.clusterSize) < 0x1_0000
      && AllBelow64K(g, fat, t.kids, |t.kids|)
  }

  ghost predicate AllBelow64K(g: Geometry, fat: Table, kids: seq<Tree>, n: nat)
    requires n <= |kids|
  {
    forall i :: 0 <= i < n ==> Below64K(g, fat, kids[i])
  }

  /** A slot is written exactly if all its directories have chains below 64 KiB. */
  lemma {:induction false} PutDirSucceeds(g: Geometry, d: Disk, fat: Table, t: Tree)
    requires Fits(g, d) && Writable(g, fat, t)
    ensures PutDir(g, d, fat, t).0 == if Below64K(g, fat, t) then Success else LogicError
    decreases t, 1
  {
    if HasTable(t.rec) {
      PutKidsSucceeds(g, d, fat, t.kids, |t.kids|);
    }
  }

  lemma {:induction false} PutKidsSucceeds(g: Geometry, d: Disk, fat: Table, kids: seq<Tree>, n: nat)
    requires Fits(g, d) && AllWritable(g, fat, kids) && n <= |kids|
    ensures PutKids(g, d, fat, kids, n).0 == if AllBelow64K(g, fat, kids, n) then Success else LogicError
    decreases kids, 0, n
  {
    hide Below64K, Writable, PutDir;
    if n > 0 {
      PutKidsSucceeds(g, d, fat, kids, n - 1);
      PutDirSucceeds(g, PutKids(g, d, fat, kids, n - 1).1, fat, kids[n - 1]);
    }
  }

  // ----- what it leaves alone -----

  /** In success and in failure only clusters of the directories at and below the slot are touched. */
  lemma {:induction false} PutDirFrame(g: Geometry, d: Disk, fat: Table, t: Tree, c: int)
    requires Fits(g, d) && Writable(g, fat, t) && 2 <= c < g.dataClusters + 2 && c !in DT.DirClusters(fat, t)
    ensures PutDir(g, d, fat, t).1.clusters[c - 2] == d.clusters[c - 2]
    decreases t, 1
  {
    if HasTable(t.rec) {
      var s, size := ChainOf(fat, t.rec.firstCluster), ChainBytes(fat, t.rec.firstCluster, g.clusterSize);
      var below := PutKids(g, d, fat, t.kids, |t.kids|).1;
      PutKidsFrame(g, d, fat, t.kids, |t.kids|, c);
      WriteChainFrame(below, s, DT.TableBytes(t.kids, size), g.clusterSize, c);
    }
  }

  lemma {:induction false} PutKidsFrame(g: Geometry, d: Disk, fat: Table, kids: seq<Tree>, n: nat, c: int)
    requires Fits(g, d) && AllWritable(g, fat, kids) && n <= |kids|
    requires 2 <= c < g.dataClusters + 2 && c !in DT.DirKidClusters(fat, kids)
    ensures PutKids(g, d, fat, kids, n).1.clusters[c - 2] == d.clusters[c - 2]
    decreases kids, 0, n
  {
    if n > 0 {
      PutKidsFrame(g, d, fat, kids, n - 1, c);
      PutDirFrame(g, PutKids(g, d, fat, kids, n - 1).1, fat, kids[n - 1], c);
    }
  }

  // ----- sound trees -----

  /** A sound slot is written as DirectoryTables has it. */
  lemma {:induction false} SoundIsWritten(g: Geometry, d: Disk, fat: Table, t: Tree)
    requires Fits(g, d) && SlotSound(g, fat, t)
    ensures Writable(g, fat, t) && PutDir(g, d, fat, t) == (Success, DT.WriteDir(g, d, fat, t))
    decreases t, 1
  {
    if HasTable(t.rec) {
      SoundAreWritten(g, d, fat, t.kids, |t.kids|);
    }
  }

  lemma {:induction false} SoundAreWritten(g: Geometry, d: Disk, fat: Table, kids: seq<Tree>, n: nat)
    requires Fits(g, d) && DirSound(g, fat, kids) && n <= |kids|
    ensures AllWritable(g, fat, kids) && PutKids(g, d, fat, kids, n) == (Success, DT.WriteKids(g, d, fat, kids, n))
    decreases kids, 0, n
  {
    SoundAreWritable(g, fat, kids);
    if n > 0 {
      SoundAreWritten(g, d, fat, kids, n - 1);
      SoundIsWritten(g, DT.WriteKids(g, d, fat, kids, n - 1), fat, kids[n - 1]);
    }
  }

  lemma {:induction false} SoundIsWritable(g: Geometry, fat: Table, t: Tree)
    requires SlotSound(g, fat, t)
    ensures Writable(g, fat, t)
    decreases t, 1
  {
    if HasTable(t.rec) {
      SoundAreWritable(g, fat, t.kids);
    }
  }

  lemma {:induction false} SoundAreWritable(g: Geometry, fat: Table, kids: seq<Tree>)
    requires DirSound(g, fat, kids)
    ensures AllWritable(g, fat, kids)
    decreases kids, 0
  {
    forall i | 0 <= i < |kids| ensures Writable(g, fat, kids[i]) {
      SoundIsWritable(g, fat, kids[i]);
    }
  }

  // ----- the whole metadata -----

  /** write_root_dir: the root directory's own table is written last. */
  ghost function PutRoot(g: Geometry, d: Disk, fat: Table, kids: seq<Tree>): (r: (Error, Disk))
    requires Fits(g, d) && AllWritable(g, fat, kids) && |d.root| == 32 * |kids|
    ensures Fits(g, r.1)
  {
    var (e, below) := PutKids(g, d, fat, kids, |kids|);
    if e != Success then (e, below) else (e, below.(root := DT.TableBytes(kids, 32 * |kids|)))
  }

  ghost predicate VolumeWritable(v: Volume) {
    && Sound(v.bpb) && TableSound(v.bpb, v.fat) && |v.root.kids| == v.bpb.rootDirEntries
    && AllWritable(Areas(v.bpb), v.fat, v.root.kids)
  }

  /** lf12_write_metadata */
  ghost function PutMetadata(d: Disk, v: Volume): (r: (Error, Disk))
    requires VolumeWritable(v) && Fits(Areas(v.bpb), d)
    ensures Fits(Areas(v.bpb), r.1)
  {
    PutRoot(Areas(v.bpb), WriteSystem(d, v), v.fat, v.root.kids)
  }

  /**
   Metadata are written completely exactly if every directory but the root has a chain below 64 KiB. Otherwise the
   parameter block and the tables are new, the root table is old, and of the clusters only those of directories changed.
   */
  lemma PutMetadataSucceeds(d: Disk, v: Volume, c: int)
    requires VolumeWritable(v) && Fits(Areas(v.bpb), d)
    ensures var (e, after) := PutMetadata(d, v); var kids := v.root.kids;
            && e == (if AllBelow64K(Areas(v.bpb), v.fat, kids, |kids|) then Success else LogicError)
            && after.boot == WriteSystem(d, v).boot && after.fats == WriteSystem(d, v).fats
            && after.root == (if e == Success then DT.TableBytes(kids, 32 * |kids|) else d.root)
            && (2 <= c < Areas(v.bpb).dataClusters + 2 && c !in DT.DirKidClusters(v.fat, kids) ==>
                  after.clusters[c - 2] == d.clusters[c - 2])
  {
    var g, kids, system := Areas(v.bpb), v.root.kids, WriteSystem(d, v);
    PutKidsSucceeds(g, system, v.fat, kids, |kids|);
    if 2 <= c < g.dataClusters + 2 && c !in DT.DirKidClusters(v.fat, kids) {
      PutKidsFrame(g, system, v.fat, kids, |kids|, c);
    }
  }

  /** Sound metadata are written completely. */
  lemma SoundMetadata(d: Disk, v: Volume)
    requires VolumeSound(v) && Fits(Areas(v.bpb), d)
    ensures VolumeWritable(v) && PutMetadata(d, v) == (Success, WriteMetadata(d, v))
  {
    SoundAreWritten(Areas(v.bpb), WriteSystem(d, v), v.fat, v.root.kids, |v.root.kids|);
  }
}
