/** For which directories f12_move and f12_del ask for the recursive option (src/move.c, src/del.c). */
module RecursiveOption {
  import opened Bytes
  import opened Records
  import opened Options
  import opened BiosParameterBlock
  import opened Fat
  import opened Disks
  import opened ChainIo
  import opened Trees
  import opened Volumes
  import opened Creation
  import opened Moves
  import opened Rewriting
  import opened Deletion
  import opened Runs
  import opened SmallVolumes
  import DT = DirectoryTables

  /** A directory that was read from an image needs the option exactly when its chain has room for three slots. */
  lemma OptionNeeded(d: Disk, v: Volume, path: Path)
    requires ReadsVolume(d, v) && Plain(path) && path != [] && Lookup(v.root, path).Some?
    requires IsDirectory(At(v.root, Lookup(v.root, path).value).rec)
    ensures var r := At(v.root, Lookup(v.root, path).value).rec;
            && HasChain(v.fat, r.firstCluster)
            && (WillDelete(v.root, path, false) <==> ChainBytes(v.fat, r.firstCluster, ClusterSize(v.bpb)) < 3 * 32)
            && forall q :: WillMove(v.root, path, q, false) <==>
                 WillMove(v.root, path, q, true) && ChainBytes(v.fat, r.firstCluster, ClusterSize(v.bpb)) < 3 * 32
  {
    var a := Lookup(v.root, path).value;
    PlainIsTarget(v, path);
    ReadsAt(Areas(v.bpb), d, v.fat, d.root, v.root, a);
  }

  /** A directory that the library makes always needs it. */
  lemma NewDirectoryNeeds(g: Geometry, fat: Fat.Table, parent: Record, r: Record)
    requires Allocatable(g, fat) && PlainName(r.name) && IsDirectory(parent)
    requires TableClusters(g.clusterSize) <= Room(g, fat)
    ensures var (e, after, t) := MakeTable(g.clusterSize, fat, parent, r);
            HasChain(after, t.rec.firstCluster) && 3 * 32 <= ChainBytes(after, t.rec.firstCluster, g.clusterSize)
  {
    TableChain(g, fat);
  }

  // ----- a directory that does not need it -----

  function SmallVolume(): Volume {
    Volume(SmallBpb(1), SmallTable(), Node(ROOT_RECORD, [SmallDirectory(FREE)]))
  }

  lemma SmallVolumeSound(v: Volume)
    requires v.bpb == SmallBpb(1) && v.fat == SmallTable() && v.root == Node(ROOT_RECORD, [SmallDirectory(FREE)])
    ensures VolumeSound(v) && Areas(v.bpb) == SmallAreas(1)
  {
    var g := SmallAreas(1);
    FreeSound(g, v.fat);
    SmallDirectorySound(1, FREE);
    SlotsSound(g, v.fat, v.root.kids);
    SmallTableFits();
    SmallSound(v, 1);
  }

  lemma SmallFilled(g: Geometry, fat: Fat.Table, t: Tree)
    requires HasChain(fat, t.rec.firstCluster) && ChainBytes(fat, t.rec.firstCluster, g.clusterSize) == 32
    ensures |DT.Filled(g, fat, t).kids| <= 1
  {
  }

  /** What is read back after writing: one entry, a directory with one slot. */
  lemma SmallWritten(v: Volume, g: Geometry)
    requires v.root == Node(ROOT_RECORD, [SmallDirectory(FREE)]) && v.fat == SmallTable() && Sound(v.bpb)
    requires Areas(v.bpb) == g && g.clusterSize == 32
    ensures var kids := FilledVolume(v).root.kids; |kids| == 1 && kids[0].rec == SmallDirectory(FREE).rec && |kids[0].kids| <= 1
  {
    SmallChain();
    assert Span(1, 32) == 32;
    SmallFilled(g, v.fat, SmallDirectory(FREE));
  }

  /** The blank disk of that size. */
  ghost function BlankDisk(): (d: Disk)
    ensures Fits(SmallAreas(1), d)
  {
    Disk(Zeros(64), Zeros(64), Zeros(32), seq(25, i => Zeros(32)), [])
  }

  /** There is an image with a directory that is deleted without the option. */
  lemma OptionNotNeeded() returns (d: Disk, v: Volume)
    ensures VolumeSound(v) && ReadsVolume(d, v) && Lookup(v.root, [SMALL_NAME]) == Some([0])
    ensures IsDirectory(At(v.root, [0]).rec) && WillDelete(v.root, [SMALL_NAME], false)
  {
    var small := SmallVolume();
    SmallVolumeSound(small);
    d, v := WriteMetadata(BlankDisk(), small), FilledVolume(small);
    MetadataRoundTrip(BlankDisk(), small);
    FilledVolumeSound(small);
    SmallWritten(small, Areas(small.bpb));
    SmallLookup(v.root);
  }

  lemma SmallLookup(t: Tree)
    requires |t.kids| == 1 && t.kids[0].rec.name == SMALL_NAME
    ensures Lookup(t, [SMALL_NAME]) == Some([0]) && At(t, [0]) == t.kids[0]
  {
    assert [SMALL_NAME][1..] == [] && [0][1..] == [] && [0] + [] == [0];
    assert Lookup(t.kids[0], []) == Some([]);
  }
}
