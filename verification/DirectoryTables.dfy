/** Directory tables on the disk: what writing a tree stores and which tree reading finds. */
module DirectoryTables {
  import opened Bytes
  import opened Records
  import opened Fat
  import opened Disks
  import opened ChainIo
  import opened Trees

  // ----- one table -----

  /** The records of the first `n` slots. */
  ghost function SlotBytes(kids: seq<Tree>, n: nat): (b: seq<Byte>)
    requires n <= |kids|
    ensures |b| == 32 * n
  {
    if n == 0 then [] else SlotBytes(kids, n - 1) + EncodeRecord(kids[n - 1].rec)
  }

  lemma {:induction false} TableSlot(kids: seq<Tree>, n: nat, i: nat)
    requires i < n <= |kids|
    ensures SlotBytes(kids, n)[32 * i..32 * i + 32] == EncodeRecord(kids[i].rec)
  {
    if i < n - 1 {
      TableSlot(kids, n - 1, i);
      assert SlotBytes(kids, n)[32 * i..32 * i + 32] == SlotBytes(kids, n - 1)[32 * i..32 * i + 32];
    }
  }

  /** What create_directory returns: the table filled up with zeros. */
  ghost function TableBytes(kids: seq<Tree>, size: nat): seq<Byte>
    requires 32 * |kids| <= size
  {
    Padded(SlotBytes(kids, |kids|), size)
  }

  /** The record that reading finds in slot `i` of a table. */
  ghost function SlotRecord(table: seq<Byte>, i: nat): Record
    requires 32 * i + 32 <= |table|
  {
    DecodeRecord(table[32 * i..32 * i + 32])
  }

  lemma TableRoundTrip(kids: seq<Tree>, size: nat, i: nat)
    requires 32 * |kids| <= size && 32 * i + 32 <= size
    ensures SlotRecord(TableBytes(kids, size), i) == if i < |kids| then kids[i].rec else EMPTY
  {
    var b := TableBytes(kids, size);
    if i < |kids| {
      TableSlot(kids, |kids|, i);
      assert b[32 * i..32 * i + 32] == SlotBytes(kids, |kids|)[32 * i..32 * i + 32];
      RecordRoundTrip(kids[i].rec);
    } else {
      assert b[32 * i..32 * i + 32] == Zeros(32);
      EmptyRecordIsZero();
    }
  }

  // ----- writing -----

  /** write_directory on the slot `t`: the tables below it first, then its own. */
  ghost function WriteDir(g: Geometry, d: Disk, fat: Fat.Table, t: Tree): (r: Disk)
    requires Fits(g, d) && SlotSound(g, fat, t)
    ensures Fits(g, r) && r == d.(clusters := r.clusters)
    decreases t
  {
    if !Descends(t.rec) then d
    else
      var s, size := ChainOf(fat, t.rec.firstCluster), ChainBytes(fat, t.rec.firstCluster, g.clusterSize);
      var below := WriteKids(g, d, fat, t.kids, |t.kids|);
      WriteChainFits(g, below, s, TableBytes(t.kids, size));
      WriteChain(below, s, TableBytes(t.kids, size), g.clusterSize)
  }

  /** The loop over the first `n` slots. */
  ghost function WriteKids(g: Geometry, d: Disk, fat: Fat.Table, kids: seq<Tree>, n: nat): (r: Disk)
    requires Fits(g, d) && DirSound(g, fat, kids) && n <= |kids|
    ensures Fits(g, r) && r == d.(clusters := r.clusters)
    decreases kids, n
  {
    if n == 0 then d else WriteDir(g, WriteKids(g, d, fat, kids, n - 1), fat, kids[n - 1])
  }

  /** The clusters of the directories at and below a slot. */
  ghost function DirClusters(fat: Fat.Table, t: Tree): set<int> {
    (if Descends(t.rec) then OwnClusters(fat, t.rec) else {}) + DirKidClusters(fat, t.kids)
  }

  ghost function DirKidClusters(fat: Fat.Table, kids: seq<Tree>): set<int> {
    set i, c | 0 <= i < |kids| && c in DirClusters(fat, kids[i]) :: c
  }

  lemma {:induction false} DirClustersInTree(fat: Fat.Table, t: Tree)
    ensures DirClusters(fat, t) <= TreeClusters(fat, t)
  {
    forall c | c in DirKidClusters(fat, t.kids) ensures c in KidClusters(fat, t.kids) {
      var i :| 0 <= i < |t.kids| && c in DirClusters(fat, t.kids[i]);
      DirClustersInTree(fat, t.kids[i]);
    }
  }

  /** Writing a slot touches no cluster but those of the directories at and below it. */
  lemma {:induction false} WriteDirFrame(g: Geometry, d: Disk, fat: Fat.Table, t: Tree, c: int)
    requires Fits(g, d) && SlotSound(g, fat, t)
    requires 2 <= c < g.dataClusters + 2 && c !in DirClusters(fat, t)
    ensures WriteDir(g, d, fat, t).clusters[c - 2] == d.clusters[c - 2]
    decreases t
  {
    if Descends(t.rec) {
      var s, size := ChainOf(fat, t.rec.firstCluster), ChainBytes(fat, t.rec.firstCluster, g.clusterSize);
      var below := WriteKids(g, d, fat, t.kids, |t.kids|);
      WriteKidsFrame(g, d, fat, t.kids, |t.kids|, c);
      WriteChainFrame(below, s, TableBytes(t.kids, size), g.clusterSize, c);
    }
  }

  lemma {:induction false} WriteKidsFrame(g: Geometry, d: Disk, fat: Fat.Table, kids: seq<Tree>, n: nat, c: int)
    requires Fits(g, d) && DirSound(g, fat, kids) && n <= |kids|
    requires 2 <= c < g.dataClusters + 2
    requires forall i :: 0 <= i < n ==> c !in DirClusters(fat, kids[i])
    ensures WriteKids(g, d, fat, kids, n).clusters[c - 2] == d.clusters[c - 2]
    decreases kids, n
  {
    if n > 0 {
      WriteKidsFrame(g, d, fat, kids, n - 1, c);
      WriteDirFrame(g, WriteKids(g, d, fat, kids, n - 1), fat, kids[n - 1], c);
    }
  }

  // ----- reading -----

  /** Number of slots in a directory of that first cluster. */
  ghost function Capacity(g: Geometry, fat: Fat.Table, first: int): nat
    requires HasChain(fat, first)
  {
    ChainBytes(fat, first, g.clusterSize) / 32
  }

  /** `t` is the tree that scan_subsequent_entries builds for a slot with the record of `t`. */
  ghost predicate Reads(g: Geometry, d: Disk, fat: Fat.Table, t: Tree)
    requires Fits(g, d)
    decreases t
  {
    if !Descends(t.rec) then t.kids == []
    else
      && DataChain(fat, t.rec.firstCluster, g.dataClusters)
      && |t.kids| == Capacity(g, fat, t.rec.firstCluster)
      && ReadsTable(g, d, fat, ChainData(d, ChainOf(fat, t.rec.firstCluster)), t.kids)
  }

  /** The slots are those of the table, each read in turn. */
  ghost predicate ReadsTable(g: Geometry, d: Disk, fat: Fat.Table, table: seq<Byte>, kids: seq<Tree>)
    requires Fits(g, d)
    decreases kids
  {
    && 32 * |kids| <= |table|
    && forall i :: 0 <= i < |kids| ==> kids[i].rec == SlotRecord(table, i) && Reads(g, d, fat, kids[i])
  }

  /** Reading is a function of the record and the disk. */
  lemma {:induction false} ReadsIsUnique(g: Geometry, d: Disk, fat: Fat.Table, t: Tree, u: Tree)
    requires Fits(g, d) && Reads(g, d, fat, t) && Reads(g, d, fat, u) && t.rec == u.rec
    ensures t == u
    decreases t
  {
    if Descends(t.rec) {
      forall i | 0 <= i < |t.kids| ensures t.kids[i] == u.kids[i] {
        ReadsIsUnique(g, d, fat, t.kids[i], u.kids[i]);
      }
      assert t.kids == u.kids;
    }
  }

  /** The tree after writing and reading: directories get as many slots as their chain holds. */
  ghost function Filled(g: Geometry, fat: Fat.Table, t: Tree): (r: Tree)
    ensures r.rec == t.rec
    decreases t
  {
    if Descends(t.rec) && HasChain(fat, t.rec.firstCluster)
    then Node(t.rec, FilledKids(g, fat, t.kids, Capacity(g, fat, t.rec.firstCluster)))
    else Node(t.rec, [])
  }

  ghost function FilledKids(g: Geometry, fat: Fat.Table, kids: seq<Tree>, n: nat): (r: seq<Tree>)
    ensures |r| == n
    decreases kids
  {
    seq(n, i requires 0 <= i < n => if i < |kids| then Filled(g, fat, kids[i]) else FREE)
  }

  // ----- what was written is read -----

  /** The two disks hold the same bytes in the clusters `cs`. */
  ghost predicate AgreeOn(d: Disk, d': Disk, cs: set<int>) {
    |d.clusters| == |d'.clusters| &&
    forall c :: c in cs && 2 <= c < |d.clusters| + 2 ==> d'.clusters[c - 2] == d.clusters[c - 2]
  }

  lemma ChainDataAgrees(d: Disk, d': Disk, s: seq<int>, cs: set<int>)
    requires InData(d, s) && AgreeOn(d, d', cs) && forall i :: 0 <= i < |s| ==> s[i] in cs
    ensures InData(d', s) && ChainData(d', s) == ChainData(d, s)
  {
    ChainDataFrame(d, d', s);
  }

  /** Reading depends on the directories' clusters only. */
  lemma {:induction false} ReadsFrame(g: Geometry, d: Disk, d': Disk, fat: Fat.Table, t: Tree)
    requires Fits(g, d) && Fits(g, d') && AgreeOn(d, d', DirClusters(fat, t)) && Reads(g, d, fat, t)
    ensures Reads(g, d', fat, t)
    decreases t
  {
    if Descends(t.rec) {
      if t.rec.firstCluster != 0 {
        var s := ChainOf(fat, t.rec.firstCluster);
        assert forall i :: 0 <= i < |s| ==> s[i] in Clusters(fat, t.rec.firstCluster);
        ChainDataAgrees(d, d', s, DirClusters(fat, t));
      }
      forall i | 0 <= i < |t.kids| ensures Reads(g, d', fat, t.kids[i]) {
        assert DirClusters(fat, t.kids[i]) <= DirClusters(fat, t);
        ReadsFrame(g, d, d', fat, t.kids[i]);
      }
    }
  }

  lemma FreeHasNoClusters(fat: Fat.Table)
    ensures DirClusters(fat, FREE) == {} && TreeClusters(fat, FREE) == {}
  {
    EmptyRecordIsZero();
  }

  lemma {:induction false} FilledDirClusters(g: Geometry, fat: Fat.Table, t: Tree)
    ensures DirClusters(fat, Filled(g, fat, t)) <= DirClusters(fat, t)
    decreases t
  {
    var u := Filled(g, fat, t);
    FreeHasNoClusters(fat);
    forall c | c in DirKidClusters(fat, u.kids) ensures c in DirKidClusters(fat, t.kids) {
      var i :| 0 <= i < |u.kids| && c in DirClusters(fat, u.kids[i]);
      if i < |t.kids| {
        FilledDirClusters(g, fat, t.kids[i]);
      }
    }
  }

  /** Writing a directory's own table leaves the tables below it readable. */
  lemma KidApart(g: Geometry, below: Disk, fat: Fat.Table, t: Tree, bytes: seq<Byte>, i: nat)
    requires Fits(g, below) && SlotSound(g, fat, t) && Descends(t.rec) && i < |t.kids|
    requires |bytes| == ChainBytes(fat, t.rec.firstCluster, g.clusterSize)
    requires Reads(g, below, fat, Filled(g, fat, t.kids[i]))
    ensures var r := WriteChain(below, ChainOf(fat, t.rec.firstCluster), bytes, g.clusterSize);
            Fits(g, r) && Reads(g, r, fat, Filled(g, fat, t.kids[i]))
  {
    var s, kid := ChainOf(fat, t.rec.firstCluster), Filled(g, fat, t.kids[i]);
    var r := WriteChain(below, s, bytes, g.clusterSize);
    WriteChainFits(g, below, s, bytes);
    FilledDirClusters(g, fat, t.kids[i]);
    DirClustersInTree(fat, t.kids[i]);
    forall c | c in DirClusters(fat, kid) && 2 <= c < g.dataClusters + 2
      ensures r.clusters[c - 2] == below.clusters[c - 2]
    {
      assert c in KidClusters(fat, t.kids);
      WriteChainFrame(below, s, bytes, g.clusterSize, c);
    }
    ReadsFrame(g, below, r, fat, kid);
  }

  /** Slot `i` of a directory after its own table was written over `below`. */
  lemma OwnSlotReads(g: Geometry, below: Disk, fat: Fat.Table, t: Tree, i: nat)
    requires Fits(g, below) && SlotSound(g, fat, t) && Descends(t.rec) && i < Capacity(g, fat, t.rec.firstCluster)
    requires i < |t.kids| ==> Reads(g, below, fat, Filled(g, fat, t.kids[i]))
    ensures var s, bytes := ChainOf(fat, t.rec.firstCluster),
                            TableBytes(t.kids, ChainBytes(fat, t.rec.firstCluster, g.clusterSize));
            var r, kid := WriteChain(below, s, bytes, g.clusterSize), Filled(g, fat, t).kids[i];
            Fits(g, r) && 32 * i + 32 <= |bytes| && kid.rec == SlotRecord(bytes, i) && Reads(g, r, fat, kid)
  {
    var s, size := ChainOf(fat, t.rec.firstCluster), ChainBytes(fat, t.rec.firstCluster, g.clusterSize);
    WriteChainFits(g, below, s, TableBytes(t.kids, size));
    TableRoundTrip(t.kids, size, i);
    if i < |t.kids| {
      KidApart(g, below, fat, t, TableBytes(t.kids, size), i);
    } else {
      EmptyRecordIsZero();
    }
  }

  /** Reading the slots of a written tree rebuilds it, with each table filled up with free slots. */
  lemma {:induction false} WriteDirReads(g: Geometry, d: Disk, fat: Fat.Table, t: Tree)
    requires Fits(g, d) && SlotSound(g, fat, t)
    ensures Reads(g, WriteDir(g, d, fat, t), fat, Filled(g, fat, t))
    decreases t
  {
    if Descends(t.rec) {
      var below, u := WriteKids(g, d, fat, t.kids, |t.kids|), Filled(g, fat, t);
      var s, bytes := ChainOf(fat, t.rec.firstCluster),
                      TableBytes(t.kids, ChainBytes(fat, t.rec.firstCluster, g.clusterSize));
      forall i | 0 <= i < |u.kids|
        ensures u.kids[i].rec == SlotRecord(bytes, i) && Reads(g, WriteDir(g, d, fat, t), fat, u.kids[i])
      {
        if i < |t.kids| {
          WriteKidsReads(g, d, fat, t.kids, |t.kids|, i);
        }
        OwnSlotReads(g, below, fat, t, i);
      }
      ChainIsDistinct(fat, s);
      ChainRoundTrip(below, s, bytes, g.clusterSize);
    }
  }

  lemma {:induction false} WriteKidsReads(g: Geometry, d: Disk, fat: Fat.Table, kids: seq<Tree>, n: nat, i: nat)
    requires Fits(g, d) && DirSound(g, fat, kids) && i < n <= |kids|
    ensures Reads(g, WriteKids(g, d, fat, kids, n), fat, Filled(g, fat, kids[i]))
    decreases kids, n
  {
    var before := WriteKids(g, d, fat, kids, n - 1);
    if i == n - 1 {
      WriteDirReads(g, before, fat, kids[i]);
    } else {
      WriteKidsReads(g, d, fat, kids, n - 1, i);
      SiblingApart(g, before, fat, kids, i, n - 1);
    }
  }

  /** Writing one slot of a directory leaves the tables below its other slots readable. */
  lemma SiblingApart(g: Geometry, d: Disk, fat: Fat.Table, kids: seq<Tree>, i: nat, j: nat)
    requires Fits(g, d) && DirSound(g, fat, kids) && i < j < |kids| && Reads(g, d, fat, Filled(g, fat, kids[i]))
    ensures Reads(g, WriteDir(g, d, fat, kids[j]), fat, Filled(g, fat, kids[i]))
  {
    var kid, r := Filled(g, fat, kids[i]), WriteDir(g, d, fat, kids[j]);
    FilledDirClusters(g, fat, kids[i]);
    DirClustersInTree(fat, kids[i]);
    DirClustersInTree(fat, kids[j]);
    forall c | c in DirClusters(fat, kid) && 2 <= c < g.dataClusters + 2
      ensures r.clusters[c - 2] == d.clusters[c - 2]
    {
      assert c in TreeClusters(fat, kids[i]) && c !in TreeClusters(fat, kids[j]);
      WriteDirFrame(g, d, fat, kids[j], c);
    }
    ReadsFrame(g, d, r, fat, kid);
  }
}
