/** The contents of files: what lf12_entry_from_path and lf12_dump_file give for a path. */
module Contents {
  import opened Bytes
  import opened Records
  import opened Options
  import opened BiosParameterBlock
  import opened Fat
  import opened Disks
  import opened ChainIo
  import opened Trees
  import opened Volumes
  import opened Creation
  import DT = DirectoryTables

  /** A file whose chain is complete and holds its size. */
  ghost predicate Dumpable(g: Geometry, fat: Fat.Table, r: Record) {
    && Live(r) && !IsDirectory(r) && r.firstCluster != 0 && DataChain(fat, r.firstCluster, g.dataClusters)
    && r.fileSize <= ChainBytes(fat, r.firstCluster, g.clusterSize)
  }

  /** The bytes that lf12_dump_file writes. */
  ghost function Dump(g: Geometry, d: Disk, fat: Fat.Table, r: Record): seq<Byte>
    requires Fits(g, d) && Dumpable(g, fat, r)
  {
    ChainDataLength(g, d, ChainOf(fat, r.firstCluster));
    ChainData(d, ChainOf(fat, r.firstCluster))[..r.fileSize]
  }

  /** The bytes of the file at an address, if there is one. */
  ghost function ContentAt(d: Disk, v: Volume, x: Option<Address>): Option<seq<Byte>>
    requires Sound(v.bpb) && Fits(Areas(v.bpb), d) && (x.Some? ==> Valid(v.root, x.value))
  {
    match x
    case None => None
    case Some(a) =>
      if Dumpable(Areas(v.bpb), v.fat, At(v.root, a).rec)
      then Some(Dump(Areas(v.bpb), d, v.fat, At(v.root, a).rec))
      else None
  }

  ghost function FileContent(d: Disk, v: Volume, path: Path): Option<seq<Byte>>
    requires Sound(v.bpb) && Fits(Areas(v.bpb), d)
  {
    ContentAt(d, v, Lookup(v.root, path))
  }

  // ----- contents depend on their own clusters only -----

  lemma DumpFrame(g: Geometry, d: Disk, d': Disk, fat: Fat.Table, r: Record)
    requires Fits(g, d) && Fits(g, d') && Dumpable(g, fat, r) && DT.AgreeOn(d, d', OwnClusters(fat, r))
    ensures Dump(g, d', fat, r) == Dump(g, d, fat, r)
  {
    var s := ChainOf(fat, r.firstCluster);
    assert forall i :: 0 <= i < |s| ==> s[i] in Clusters(fat, r.firstCluster);
    DT.ChainDataAgrees(d, d', s, OwnClusters(fat, r));
  }

  lemma ContentFrame(d: Disk, d': Disk, v: Volume, path: Path)
    requires VolumeSound(v) && Fits(Areas(v.bpb), d) && Fits(Areas(v.bpb), d')
    requires DT.AgreeOn(d, d', KidClusters(v.fat, v.root.kids))
    ensures FileContent(d', v, path) == FileContent(d, v, path)
  {
    var g := Areas(v.bpb);
    if Lookup(v.root, path).Some? && Dumpable(g, v.fat, At(v.root, Lookup(v.root, path).value).rec) {
      var a := Lookup(v.root, path).value;
      RootIsNoFile();
      SoundAt(g, v.fat, v.root, a);
      DumpFrame(g, d, d', v.fat, At(v.root, a).rec);
    }
  }

  lemma RootIsNoFile()
    ensures IsDirectory(ROOT_RECORD)
  {
  }

  lemma ReadsVolumeFrame(d: Disk, d': Disk, v: Volume)
    requires VolumeSound(v) && ReadsVolume(d, v) && Fits(Areas(v.bpb), d')
    requires d' == d.(clusters := d'.clusters) && DT.AgreeOn(d, d', KidClusters(v.fat, v.root.kids))
    ensures ReadsVolume(d', v)
  {
    forall i | 0 <= i < |v.root.kids| ensures DT.Reads(Areas(v.bpb), d', v.fat, v.root.kids[i]) {
      DT.DirClustersInTree(v.fat, v.root.kids[i]);
      assert TreeClusters(v.fat, v.root.kids[i]) <= KidClusters(v.fat, v.root.kids);
      DT.ReadsFrame(Areas(v.bpb), d, d', v.fat, v.root.kids[i]);
    }
  }

  // ----- contents survive the writing of the metadata -----

  /** The chain of a file is not part of any directory. */
  lemma {:induction false} FileApart(g: Geometry, fat: Fat.Table, t: Tree, a: Address)
    requires DirSound(g, fat, t.kids) && Valid(t, a) && a != [] && !Descends(At(t, a).rec)
    ensures OwnClusters(fat, At(t, a).rec) !! DT.DirKidClusters(fat, t.kids)
    decreases |a|
  {
    var kid, own := t.kids[a[0]], OwnClusters(fat, At(t, a).rec);
    assert own <= TreeClusters(fat, kid) && own !! DT.DirClusters(fat, kid) by {
      if |a| == 1 {
        assert At(t, a) == kid;
      } else {
        SoundAt(g, fat, kid, a[1..]);
        FileApart(g, fat, kid, a[1..]);
      }
    }
    forall j, c | 0 <= j < |t.kids| && c in DT.DirClusters(fat, t.kids[j]) ensures c !in own {
      DT.DirClustersInTree(fat, t.kids[j]);
    }
  }

  /** Free slots at the end of a table do not change what is found in it. */
  lemma {:induction false} FilledFind(g: Geometry, fat: Fat.Table, kids: seq<Tree>, n: nat, name: ShortName, i: nat)
    requires i <= |kids| <= n && PlainName(name)
    ensures var r := FindFrom(kids, name, i);
            FindFrom(DT.FilledKids(g, fat, kids, n), name, i) == if r < |kids| then r else n
    decreases n - i
  {
    if i < |kids| {
      FilledFind(g, fat, kids, n, name, i + 1);
    } else {
      NoPlainNameFrom(DT.FilledKids(g, fat, kids, n), name, i);
    }
  }

  lemma {:induction false} NoPlainNameFrom(kids: seq<Tree>, name: ShortName, i: nat)
    requires i <= |kids| && PlainName(name) && forall j :: i <= j < |kids| ==> kids[j] == FREE
    ensures FindFrom(kids, name, i) == |kids|
    decreases |kids| - i
  {
    if i < |kids| {
      NoPlainNameFrom(kids, name, i + 1);
    }
  }

  /** After writing and reading, every path leads to the same address and the same record. */
  lemma {:induction false} FilledLookup(g: Geometry, fat: Fat.Table, t: Tree, n: nat, path: Path)
    requires DirSound(g, fat, t.kids) && |t.kids| <= n && Plain(path)
    ensures var t' := Node(t.rec, DT.FilledKids(g, fat, t.kids, n));
            && Lookup(t', path) == Lookup(t, path)
            && (Lookup(t, path).Some? ==> At(t', Lookup(t, path).value).rec == At(t, Lookup(t, path).value).rec)
    decreases |path|, 0
  {
    if path != [] {
      PlainRest(path);
      FilledFind(g, fat, t.kids, n, path[0], 0);
      var i := FindFrom(t.kids, path[0], 0);
      if i < |t.kids| {
        FilledLookupKid(g, fat, t.kids[i], path[1..]);
      }
    }
  }

  lemma {:induction false} FilledLookupKid(g: Geometry, fat: Fat.Table, t: Tree, path: Path)
    requires SlotSound(g, fat, t) && Plain(path)
    ensures var t' := DT.Filled(g, fat, t);
            && Lookup(t', path) == Lookup(t, path)
            && (Lookup(t, path).Some? ==> At(t', Lookup(t, path).value).rec == At(t, Lookup(t, path).value).rec)
    decreases |path|, 1
  {
    if Descends(t.rec) {
      FilledLookup(g, fat, t, DT.Capacity(g, fat, t.rec.firstCluster), path);
    }
  }

  lemma FilledRootLookup(v: Volume, path: Path)
    requires VolumeSound(v) && Plain(path)
    ensures && Lookup(FilledVolume(v).root, path) == Lookup(v.root, path)
            && (Lookup(v.root, path).Some? ==>
                  At(FilledVolume(v).root, Lookup(v.root, path).value).rec == At(v.root, Lookup(v.root, path).value).rec)
  {
    FilledLookup(Areas(v.bpb), v.fat, v.root, |v.root.kids|, path);
  }

  /** Writing the metadata and reading it back leaves the contents of every file unchanged. */
  lemma WriteKeepsContents(d: Disk, v: Volume, path: Path)
    requires VolumeSound(v) && Fits(Areas(v.bpb), d) && Plain(path)
    ensures FileContent(WriteMetadata(d, v), FilledVolume(v), path) == FileContent(d, v, path)
  {
    FilledRootLookup(v, path);
    var g := Areas(v.bpb);
    if Lookup(v.root, path).Some? {
      var a := Lookup(v.root, path).value;
      var r := At(v.root, a).rec;
      if Dumpable(g, v.fat, r) {
        RootIsNoFile();
        FileApart(g, v.fat, v.root, a);
        WriteKeepsClusters(d, v, OwnClusters(v.fat, r));
        DumpFrame(g, d, WriteMetadata(d, v), v.fat, r);
      }
    }
  }

  lemma WriteKeepsClusters(d: Disk, v: Volume, cs: set<int>)
    requires VolumeSound(v) && Fits(Areas(v.bpb), d) && cs !! DT.DirKidClusters(v.fat, v.root.kids)
    ensures DT.AgreeOn(d, WriteMetadata(d, v), cs)
  {
    forall c | c in cs && 2 <= c < |d.clusters| + 2 ensures WriteMetadata(d, v).clusters[c - 2] == d.clusters[c - 2] {
      DT.WriteKidsFrame(Areas(v.bpb), WriteSystem(d, v), v.fat, v.root.kids, |v.root.kids|, c);
    }
  }
}
