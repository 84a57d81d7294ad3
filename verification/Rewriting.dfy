/** Writing directories again: what is written is determined, and directories that were read are written as they were. */
module Rewriting {
  import opened Bytes
  import opened Records
  import opened BiosParameterBlock
  import opened Fat
  import opened Disks
  import opened ChainIo
  import opened Trees
  import opened Volumes
  import DT = DirectoryTables

  // ----- what is written does not depend on what was there -----

  lemma {:induction false} WriteChainDetermined(d: Disk, d': Disk, s: seq<int>, data: seq<Byte>, size: nat, c: int)
    requires InData(d, s) && |d'.clusters| == |d.clusters| && |data| == Span(|s|, size) && 2 <= c < |d.clusters| + 2
    requires c in s || d'.clusters[c - 2] == d.clusters[c - 2]
    ensures WriteChain(d', s, data, size).clusters[c - 2] == WriteChain(d, s, data, size).clusters[c - 2]
    decreases |s|
  {
    if s != [] {
      WriteChainDetermined(PutCluster(d, s[0], data[..size]), PutCluster(d', s[0], data[..size]), s[1..], data[size..], size, c);
    }
  }

  lemma {:induction false} WriteDirDetermined(g: Geometry, d: Disk, d': Disk, fat: Fat.Table, t: Tree, c: int)
    requires Fits(g, d) && Fits(g, d') && SlotSound(g, fat, t) && 2 <= c < g.dataClusters + 2
    requires c in DT.DirClusters(fat, t) || d'.clusters[c - 2] == d.clusters[c - 2]
    ensures DT.WriteDir(g, d', fat, t).clusters[c - 2] == DT.WriteDir(g, d, fat, t).clusters[c - 2]
    decreases t
  {
    if Descends(t.rec) {
      var s, size := ChainOf(fat, t.rec.firstCluster), ChainBytes(fat, t.rec.firstCluster, g.clusterSize);
      var below, below' := DT.WriteKids(g, d, fat, t.kids, |t.kids|), DT.WriteKids(g, d', fat, t.kids, |t.kids|);
      assert c in OwnClusters(fat, t.rec) ==> c in s;
      if c !in s {
        WriteKidsDetermined(g, d, d', fat, t.kids, |t.kids|, c);
      }
      WriteChainDetermined(below, below', s, DT.TableBytes(t.kids, size), g.clusterSize, c);
    }
  }

  lemma {:induction false} WriteKidsDetermined(g: Geometry, d: Disk, d': Disk, fat: Fat.Table, kids: seq<Tree>, n: nat, c: int)
    requires Fits(g, d) && Fits(g, d') && DirSound(g, fat, kids) && n <= |kids| && 2 <= c < g.dataClusters + 2
    requires (exists i :: 0 <= i < n && c in DT.DirClusters(fat, kids[i])) || d'.clusters[c - 2] == d.clusters[c - 2]
    ensures DT.WriteKids(g, d', fat, kids, n).clusters[c - 2] == DT.WriteKids(g, d, fat, kids, n).clusters[c - 2]
    decreases kids, n
  {
    if n > 0 {
      if c !in DT.DirClusters(fat, kids[n - 1]) {
        WriteKidsDetermined(g, d, d', fat, kids, n - 1, c);
      }
      WriteDirDetermined(g, DT.WriteKids(g, d, fat, kids, n - 1), DT.WriteKids(g, d', fat, kids, n - 1), fat, kids[n - 1], c);
    }
  }

  // ----- a cluster of a directory depends on that directory only -----

  lemma {:induction false} DirClustersBelow(fat: Fat.Table, t: Tree, x: Address)
    requires Valid(t, x)
    ensures DT.DirClusters(fat, At(t, x)) <= DT.DirClusters(fat, t)
    decreases |x|
  {
    if x != [] {
      DirClustersBelow(fat, t.kids[x[0]], x[1..]);
      assert DT.DirClusters(fat, t.kids[x[0]]) <= DT.DirKidClusters(fat, t.kids);
    }
  }

  /** What writing a table's slots stores for the directories of slot `i` is what writing that slot stores. */
  lemma {:induction false} WriteKidsAt(g: Geometry, d: Disk, e: Disk, fat: Fat.Table, kids: seq<Tree>, n: nat, i: nat, c: int)
    requires Fits(g, d) && Fits(g, e) && DirSound(g, fat, kids) && i < n <= |kids| && 2 <= c < g.dataClusters + 2
    requires c in DT.DirClusters(fat, kids[i])
    ensures DT.WriteKids(g, d, fat, kids, n).clusters[c - 2] == DT.WriteDir(g, e, fat, kids[i]).clusters[c - 2]
    decreases n
  {
    var before := DT.WriteKids(g, d, fat, kids, n - 1);
    if i == n - 1 {
      WriteDirDetermined(g, e, before, fat, kids[i], c);
    } else {
      WriteKidsAt(g, d, e, fat, kids, n - 1, i, c);
      DT.DirClustersInTree(fat, kids[i]);
      DT.DirClustersInTree(fat, kids[n - 1]);
      assert TreeClusters(fat, kids[i]) !! TreeClusters(fat, kids[n - 1]);
      DT.WriteDirFrame(g, before, fat, kids[n - 1], c);
    }
  }

  /** Writing a directory stores for the directories at `x` what writing the subtree at `x` stores. */
  lemma {:induction false} WriteDirAt(g: Geometry, d: Disk, e: Disk, fat: Fat.Table, t: Tree, x: Address, c: int)
    requires Fits(g, d) && Fits(g, e) && SlotSound(g, fat, t) && Valid(t, x) && 2 <= c < g.dataClusters + 2
    requires SlotSound(g, fat, At(t, x)) && c in DT.DirClusters(fat, At(t, x))
    ensures DT.WriteDir(g, d, fat, t).clusters[c - 2] == DT.WriteDir(g, e, fat, At(t, x)).clusters[c - 2]
    decreases |x|
  {
    if x == [] {
      WriteDirDetermined(g, e, d, fat, t, c);
    } else {
      var s, size := ChainOf(fat, t.rec.firstCluster), ChainBytes(fat, t.rec.firstCluster, g.clusterSize);
      var kid := t.kids[x[0]];
      DirClustersBelow(fat, kid, x[1..]);
      DT.DirClustersInTree(fat, kid);
      assert c in KidClusters(fat, t.kids);
      WriteChainFrame(DT.WriteKids(g, d, fat, t.kids, |t.kids|), s, DT.TableBytes(t.kids, size), g.clusterSize, c);
      WriteKidsAt(g, d, d, fat, t.kids, |t.kids|, x[0], c);
      WriteDirAt(g, d, e, fat, kid, x[1..], c);
    }
  }

  /** The same for the metadata of a volume. */
  lemma WriteMetadataAt(d: Disk, e: Disk, w: Volume, x: Address, c: int)
    requires VolumeSound(w) && Fits(Areas(w.bpb), d) && Fits(Areas(w.bpb), e) && Valid(w.root, x) && x != []
    requires SlotSound(Areas(w.bpb), w.fat, At(w.root, x)) && 2 <= c < Areas(w.bpb).dataClusters + 2
    requires c in DT.DirClusters(w.fat, At(w.root, x))
    ensures WriteMetadata(d, w).clusters[c - 2] == DT.WriteDir(Areas(w.bpb), e, w.fat, At(w.root, x)).clusters[c - 2]
  {
    var g, kids := Areas(w.bpb), w.root.kids;
    DirClustersBelow(w.fat, kids[x[0]], x[1..]);
    WriteKidsAt(g, WriteSystem(d, w), e, w.fat, kids, |kids|, x[0], c);
    WriteDirAt(g, e, e, w.fat, kids[x[0]], x[1..], c);
  }

  // ----- settled directories -----

  /** Writing the directories at and below the slot changes nothing. */
  ghost predicate Settled(g: Geometry, fat: Fat.Table, d: Disk, t: Tree) {
    Fits(g, d) && SlotSound(g, fat, t) && DT.WriteDir(g, d, fat, t) == d
  }

  lemma SettledFrom(g: Geometry, fat: Fat.Table, d: Disk, t: Tree)
    requires Fits(g, d) && SlotSound(g, fat, t)
    requires forall c :: c in DT.DirClusters(fat, t) && 2 <= c < g.dataClusters + 2 ==>
               DT.WriteDir(g, d, fat, t).clusters[c - 2] == d.clusters[c - 2]
    ensures Settled(g, fat, d, t)
  {
    var r := DT.WriteDir(g, d, fat, t);
    forall i | 0 <= i < |d.clusters| ensures r.clusters[i] == d.clusters[i] {
      if i + 2 !in DT.DirClusters(fat, t) {
        DT.WriteDirFrame(g, d, fat, t, i + 2);
      }
    }
    assert r.clusters == d.clusters;
  }

  /** What is below a settled directory is settled. */
  lemma SettledBelow(g: Geometry, fat: Fat.Table, d: Disk, t: Tree, x: Address)
    requires Settled(g, fat, d, t) && Valid(t, x) && SlotSound(g, fat, At(t, x))
    ensures Settled(g, fat, d, At(t, x))
  {
    forall c | c in DT.DirClusters(fat, At(t, x)) && 2 <= c < g.dataClusters + 2
      ensures DT.WriteDir(g, d, fat, At(t, x)).clusters[c - 2] == d.clusters[c - 2]
    {
      WriteDirAt(g, d, d, fat, t, x, c);
    }
    SettledFrom(g, fat, d, At(t, x));
  }

  /** The slots of a settled directory are settled. */
  lemma SettledSlot(g: Geometry, fat: Fat.Table, d: Disk, t: Tree, i: nat)
    requires Settled(g, fat, d, t) && i < |t.kids|
    ensures Settled(g, fat, d, t.kids[i])
  {
    assert Descends(t.rec) && DirSound(g, fat, t.kids);
    assert [i][1..] == [] && At(t.kids[i], []) == t.kids[i];
    SoundAt(g, fat, t, [i]);
    SettledBelow(g, fat, d, t, [i]);
  }

  /** After the metadata were written, every directory is settled. */
  lemma WrittenIsSettled(d: Disk, w: Volume, x: Address, t: Tree)
    requires VolumeSound(w) && Fits(Areas(w.bpb), d) && Valid(w.root, x) && x != [] && t == At(w.root, x)
    requires SlotSound(Areas(w.bpb), w.fat, t)
    ensures Settled(Areas(w.bpb), w.fat, WriteMetadata(d, w), t)
  {
    var r := WriteMetadata(d, w);
    forall c | c in DT.DirClusters(w.fat, t) && 2 <= c < Areas(w.bpb).dataClusters + 2
      ensures DT.WriteDir(Areas(w.bpb), r, w.fat, t).clusters[c - 2] == r.clusters[c - 2]
    {
      WriteMetadataAt(d, r, w, x, c);
    }
    SettledFrom(Areas(w.bpb), w.fat, r, t);
  }

  // ----- directories that were read are settled -----

  /** In metadata that were read, every slot was read. */
  lemma {:induction false} ReadsAt(g: Geometry, d: Disk, fat: Fat.Table, table: seq<Byte>, t: Tree, a: Address)
    requires Fits(g, d) && DT.ReadsTable(g, d, fat, table, t.kids) && Valid(t, a) && a != []
    ensures DT.Reads(g, d, fat, At(t, a))
    decreases |a|
  {
    var kid := t.kids[a[0]];
    assert DT.Reads(g, d, fat, kid);
    if |a| > 1 {
      assert Descends(kid.rec);
      ReadsAt(g, d, fat, ChainData(d, ChainOf(fat, kid.rec.firstCluster)), kid, a[1..]);
    } else {
      assert At(t, a) == kid;
    }
  }

  ghost predicate SlotAgrees(a: seq<Byte>, b: seq<Byte>, i: nat) {
    32 * i + 32 <= |a| && |a| == |b| && a[32 * i..32 * i + 32] == b[32 * i..32 * i + 32]
  }

  lemma SlotsAgree(a: seq<Byte>, b: seq<Byte>, n: nat)
    requires |a| == |b| == 32 * n && forall i: nat :: i < n ==> SlotAgrees(a, b, i)
    ensures a == b
  {
    forall j | 0 <= j < |a| ensures a[j] == b[j] {
      assert SlotAgrees(a, b, j / 32);
      assert a[j] == a[32 * (j / 32)..32 * (j / 32) + 32][j % 32];
    }
  }

  lemma StoredSlot(kids: seq<Tree>, table: seq<Byte>, i: nat)
    requires 32 * |kids| == |table| && i < |kids| && kids[i].rec == DT.SlotRecord(table, i)
    ensures SlotAgrees(DT.SlotBytes(kids, |kids|), table, i)
  {
    DT.TableSlot(kids, |kids|, i);
    BytesRoundTrip(table[32 * i..32 * i + 32]);
  }

  /** The records of a table that was read are stored as the same bytes. */
  lemma StoredSlots(kids: seq<Tree>, table: seq<Byte>)
    requires 32 * |kids| == |table| && forall i :: 0 <= i < |kids| ==> kids[i].rec == DT.SlotRecord(table, i)
    ensures DT.SlotBytes(kids, |kids|) == table
  {
    forall i: nat | i < |kids| ensures SlotAgrees(DT.SlotBytes(kids, |kids|), table, i) {
      StoredSlot(kids, table, i);
    }
    SlotsAgree(DT.SlotBytes(kids, |kids|), table, |kids|);
  }

  lemma {:induction false} WholeRecords(n: nat, size: nat)
    requires size % 32 == 0
    ensures Span(n, size) % 32 == 0
  {
    if n > 0 {
      WholeRecords(n - 1, size);
    }
  }

  /** The table that would be stored is the one that was read. */
  lemma StoredTable(g: Geometry, d: Disk, fat: Fat.Table, t: Tree)
    requires Fits(g, d) && SlotSound(g, fat, t) && DT.Reads(g, d, fat, t) && Descends(t.rec) && g.clusterSize % 32 == 0
    ensures var s, size := ChainOf(fat, t.rec.firstCluster), ChainBytes(fat, t.rec.firstCluster, g.clusterSize);
            InData(d, s) && DT.TableBytes(t.kids, size) == ChainData(d, s)
  {
    var s, size := ChainOf(fat, t.rec.firstCluster), ChainBytes(fat, t.rec.firstCluster, g.clusterSize);
    var table := ChainData(d, s);
    ChainDataLength(g, d, s);
    WholeRecords(|s|, g.clusterSize);
    assert 32 * |t.kids| == size;
    StoredSlots(t.kids, table);
    assert table + [] == table;
  }

  /** A directory that was read is settled. */
  lemma {:induction false} ReadIsSettled(g: Geometry, d: Disk, fat: Fat.Table, t: Tree)
    requires Fits(g, d) && SlotSound(g, fat, t) && DT.Reads(g, d, fat, t) && g.clusterSize % 32 == 0
    ensures Settled(g, fat, d, t)
    decreases t, 1
  {
    if Descends(t.rec) {
      var s := ChainOf(fat, t.rec.firstCluster);
      ReadKidsSettled(g, d, fat, t.kids, |t.kids|);
      StoredTable(g, d, fat, t);
      WriteOwnData(d, s, g.clusterSize);
    }
  }

  lemma {:induction false} ReadKidsSettled(g: Geometry, d: Disk, fat: Fat.Table, kids: seq<Tree>, n: nat)
    requires Fits(g, d) && DirSound(g, fat, kids) && n <= |kids| && g.clusterSize % 32 == 0
    requires forall i :: 0 <= i < |kids| ==> DT.Reads(g, d, fat, kids[i])
    ensures DT.WriteKids(g, d, fat, kids, n) == d
    decreases kids, 0, n
  {
    if n > 0 {
      ReadKidsSettled(g, d, fat, kids, n - 1);
      ReadIsSettled(g, d, fat, kids[n - 1]);
    }
  }
}
