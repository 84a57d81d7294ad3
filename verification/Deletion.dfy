/** Recursive deletion as a value: what is removed, what is erased, and what stays (src/del.c, src/libfat12/io.c). */
module Deletion {
  import opened Bytes
  import opened Records
  import opened Errors
  import opened BiosParameterBlock
  import opened Disks
  import opened ChainIo
  import opened Trees
  import opened Volumes
  import opened Creation
  import opened Lookups
  import opened Contents
  import opened Moves
  import opened Rewriting
  import DT = DirectoryTables

  // ----- what the code removes -----

  /** What a deletion does: the error, what is left, the erased clusters, and how many entries are gone. */
  datatype Removal<T> = Removal(error: Error, left: T, erased: set<int>, removed: nat)

  /** lf12_del_entry after other deletions in the subtree. */
  ghost function RemoveOne(fat: Fat.Table, soft: bool, before: Removal<Tree>): Removal<Tree> {
    var u := before.left;
    if before.error != Success then before
    else if IsDirectory(u.rec) && CountUsed(u.kids) > 2 then before.(error := DirNotEmpty)
    else if soft then before
    else Removal(Success, FREE, before.erased + OwnClusters(fat, u.rec), before.removed + 1)
  }

  /** recursive_del_entry */
  ghost function RemoveTree(fat: Fat.Table, soft: bool, u: Tree): Removal<Tree>
    decreases u
  {
    if IsDirectory(u.rec) && CountUsed(u.kids) > 2
    then RemoveOne(fat, soft, OfTable(u.rec, RemoveKids(fat, soft, u.kids, |u.kids|)))
    else RemoveOne(fat, soft, Removal(Success, u, {}, 0))
  }

  ghost function OfTable(r: Record, kids: Removal<seq<Tree>>): Removal<Tree> {
    Removal(kids.error, Node(r, kids.left), kids.erased, kids.removed)
  }

  /** The loop of recursive_del_entry over the first `n` slots. */
  ghost function RemoveKids(fat: Fat.Table, soft: bool, kids: seq<Tree>, n: nat): (r: Removal<seq<Tree>>)
    requires n <= |kids|
    ensures |r.left| == |kids|
    decreases kids, n
  {
    if n == 0 then Removal(Success, kids, {}, 0)
    else RemoveNext(RemoveKids(fat, soft, kids, n - 1), kids, n - 1, RemoveTree(fat, soft, kids[n - 1]))
  }

  /** One turn of that loop: unless an error occurred, a live entry is removed with the outcome `r`. */
  ghost function RemoveNext(before: Removal<seq<Tree>>, kids: seq<Tree>, i: nat, r: Removal<Tree>):
    (after: Removal<seq<Tree>>)
    requires |before.left| == |kids| && i < |kids|
    ensures |after.left| == |kids|
  {
    if before.error != Success || !Live(kids[i].rec) then before
    else Removal(r.error, before.left[i := r.left], before.erased + r.erased, before.removed + r.removed)
  }

  /** The loop has not touched the slots that are still to come. */
  lemma {:induction false} RemoveKidsRest(fat: Fat.Table, soft: bool, kids: seq<Tree>, n: nat, i: nat)
    requires n <= i < |kids|
    ensures RemoveKids(fat, soft, kids, n).left[i] == kids[i]
    decreases kids, n
  {
    if n > 0 {
      RemoveKidsRest(fat, soft, kids, n - 1, i);
    }
  }

  /** Without a removed entry nothing changed. */
  lemma {:induction false} NothingRemoved(fat: Fat.Table, soft: bool, u: Tree)
    ensures var r := RemoveTree(fat, soft, u);
            r.removed == 0 ==> r.left == u && r.erased == {}
    decreases u
  {
    if IsDirectory(u.rec) && CountUsed(u.kids) > 2 {
      NoKidsRemoved(fat, soft, u.kids, |u.kids|);
    }
  }

  lemma {:induction false} NoKidsRemoved(fat: Fat.Table, soft: bool, kids: seq<Tree>, n: nat)
    requires n <= |kids|
    ensures var r := RemoveKids(fat, soft, kids, n);
            r.removed == 0 ==> r.left == kids && r.erased == {}
    decreases kids, n
  {
    if n > 0 {
      NoKidsRemoved(fat, soft, kids, n - 1);
      NothingRemoved(fat, soft, kids[n - 1]);
    }
  }

  /** A soft deletion changes nothing. */
  lemma {:induction false} SoftRemovesNothing(fat: Fat.Table, u: Tree)
    ensures RemoveTree(fat, true, u).removed == 0
    decreases u
  {
    if IsDirectory(u.rec) && CountUsed(u.kids) > 2 {
      SoftRemovesNoKids(fat, u.kids, |u.kids|);
    }
  }

  lemma {:induction false} SoftRemovesNoKids(fat: Fat.Table, kids: seq<Tree>, n: nat)
    requires n <= |kids|
    ensures RemoveKids(fat, true, kids, n).removed == 0
    decreases kids, n
  {
    if n > 0 {
      SoftRemovesNoKids(fat, kids, n - 1);
      SoftRemovesNothing(fat, kids[n - 1]);
    }
  }

  // ----- when deletion succeeds -----

  /** The number of dot entries. */
  function DotCount(kids: seq<Tree>): nat {
    if kids == [] then 0
    else DotCount(kids[..|kids| - 1]) + if Used(kids[|kids| - 1].rec) && IsDotDir(kids[|kids| - 1].rec) then 1 else 0
  }

  /** Directories with more than two used slots have at most two dot entries among them. */
  predicate Deletable(u: Tree) {
    Descends(u.rec) && CountUsed(u.kids) > 2 ==> DotCount(u.kids) <= 2 && AllDeletable(u.kids, |u.kids|)
  }

  predicate AllDeletable(kids: seq<Tree>, n: nat)
    requires n <= |kids|
  {
    forall i :: 0 <= i < n && Live(kids[i].rec) ==> Deletable(kids[i])
  }

  /** The first `n` slots after the deletion of their live entries. */
  ghost predicate Cleared(kids: seq<Tree>, left: seq<Tree>, n: nat) {
    |left| == |kids| && n <= |kids| && forall i :: 0 <= i < n ==> left[i] == if Live(kids[i].rec) then FREE else kids[i]
  }

  /** When all live entries are gone, the dot entries are left. */
  lemma {:induction false} OnlyDotsLeft(kids: seq<Tree>, left: seq<Tree>)
    requires Cleared(kids, left, |kids|)
    ensures CountUsed(left) == DotCount(kids)
  {
    EmptyRecordIsZero();
    if kids != [] {
      OnlyDotsLeft(kids[..|kids| - 1], left[..|kids| - 1]);
    }
  }

  /** Deletion succeeds, and then leaves a free slot, exactly when no directory has more than two dot entries. */
  lemma {:induction false} RemoveTreeSucceeds(fat: Fat.Table, u: Tree)
    requires Live(u.rec)
    ensures RemoveTree(fat, false, u).error == if Deletable(u) then Success else DirNotEmpty
    ensures Deletable(u) ==> RemoveTree(fat, false, u).left == FREE
    decreases u
  {
    if IsDirectory(u.rec) && CountUsed(u.kids) > 2 {
      RemoveKidsSucceeds(fat, u.kids, |u.kids|);
      var r := RemoveKids(fat, false, u.kids, |u.kids|);
      if r.error == Success {
        OnlyDotsLeft(u.kids, r.left);
      }
    }
  }

  lemma RemoveNextSucceeds(before: Removal<seq<Tree>>, kids: seq<Tree>, n: nat, r: Removal<Tree>)
    requires |before.left| == |kids| && n < |kids| && before.left[n] == kids[n]
    requires before.error == if AllDeletable(kids, n) then Success else DirNotEmpty
    requires AllDeletable(kids, n) ==> Cleared(kids, before.left, n)
    requires Live(kids[n].rec) ==> r.error == (if Deletable(kids[n]) then Success else DirNotEmpty)
    requires Live(kids[n].rec) && Deletable(kids[n]) ==> r.left == FREE
    ensures var after := RemoveNext(before, kids, n, r);
            && after.error == (if AllDeletable(kids, n + 1) then Success else DirNotEmpty)
            && (AllDeletable(kids, n + 1) ==> Cleared(kids, after.left, n + 1))
  {
    assert AllDeletable(kids, n + 1) <==> AllDeletable(kids, n) && (Live(kids[n].rec) ==> Deletable(kids[n]));
  }

  lemma {:induction false} RemoveKidsSucceeds(fat: Fat.Table, kids: seq<Tree>, n: nat)
    requires n <= |kids|
    ensures RemoveKids(fat, false, kids, n).error == if AllDeletable(kids, n) then Success else DirNotEmpty
    ensures AllDeletable(kids, n) ==> Cleared(kids, RemoveKids(fat, false, kids, n).left, n)
    decreases kids, n
  {
    if n > 0 {
      RemoveKidsSucceeds(fat, kids, n - 1);
      RemoveKidsRest(fat, false, kids, n - 1, n - 1);
      if Live(kids[n - 1].rec) {
        RemoveTreeSucceeds(fat, kids[n - 1]);
      }
      RemoveNextSucceeds(RemoveKids(fat, false, kids, n - 1), kids, n - 1, RemoveTree(fat, false, kids[n - 1]));
    }
  }

  // ----- what is erased -----

  /** A directory that the code takes for empty, because it has at most two used slots, is empty. */
  predicate Thorough(u: Tree) {
    Descends(u.rec) ==> AllThorough(u.kids) && (CountUsed(u.kids) <= 2 ==> NoneLive(u.kids))
  }

  predicate AllThorough(kids: seq<Tree>) {
    forall i :: 0 <= i < |kids| ==> Thorough(kids[i])
  }

  predicate NoneLive(kids: seq<Tree>) {
    forall i :: 0 <= i < |kids| ==> !Live(kids[i].rec)
  }

  /** When deletion succeeds, it erases all clusters of the subtree. */
  lemma {:induction false} RemoveTreeErases(g: Geometry, fat: Fat.Table, u: Tree)
    requires Live(u.rec) && SlotSound(g, fat, u) && Thorough(u) && Deletable(u)
    ensures RemoveTree(fat, false, u).erased == TreeClusters(fat, u)
    decreases u
  {
    if IsDirectory(u.rec) && CountUsed(u.kids) > 2 {
      RemoveKidsErases(g, fat, u.kids, |u.kids|);
      RemoveKidsSucceeds(fat, u.kids, |u.kids|);
      OnlyDotsLeft(u.kids, RemoveKids(fat, false, u.kids, |u.kids|).left);
      assert u.kids[..|u.kids|] == u.kids;
    } else {
      NoKidClusters(g, fat, u);
    }
  }

  lemma NoKidClusters(g: Geometry, fat: Fat.Table, u: Tree)
    requires SlotSound(g, fat, u) && Thorough(u) && (Descends(u.rec) ==> CountUsed(u.kids) <= 2)
    ensures KidClusters(fat, u.kids) == {}
  {
    if Descends(u.rec) {
      forall i | 0 <= i < |u.kids| ensures TreeClusters(fat, u.kids[i]) == {} {
        LeafHasNoClusters(g, fat, u.kids[i]);
      }
    }
  }

  lemma LeafHasNoClusters(g: Geometry, fat: Fat.Table, u: Tree)
    requires SlotSound(g, fat, u) && !Live(u.rec)
    ensures TreeClusters(fat, u) == {}
  {
  }

  lemma RemoveNextErases(g: Geometry, fat: Fat.Table, kids: seq<Tree>, i: nat, before: Removal<seq<Tree>>)
    requires |before.left| == |kids| && i < |kids| && before.error == Success && SlotSound(g, fat, kids[i])
    requires Live(kids[i].rec) ==> Thorough(kids[i]) && Deletable(kids[i])
    ensures RemoveNext(before, kids, i, RemoveTree(fat, false, kids[i])).erased ==
            before.erased + TreeClusters(fat, kids[i])
    decreases kids, 0
  {
    if Live(kids[i].rec) {
      RemoveTreeErases(g, fat, kids[i]);
    } else {
      LeafHasNoClusters(g, fat, kids[i]);
    }
  }

  lemma {:induction false} RemoveKidsErases(g: Geometry, fat: Fat.Table, kids: seq<Tree>, n: nat)
    requires n <= |kids| && DirSound(g, fat, kids) && AllThorough(kids) && AllDeletable(kids, |kids|)
    ensures RemoveKids(fat, false, kids, n).erased == KidClusters(fat, kids[..n])
    decreases kids, 1, n
  {
    if n > 0 {
      RemoveKidsErases(g, fat, kids, n - 1);
      KidsSucceed(fat, kids, n - 1);
      RemoveNextErases(g, fat, kids, n - 1, RemoveKids(fat, false, kids, n - 1));
      KidClustersLast(fat, kids, n);
    }
  }

  lemma KidsSucceed(fat: Fat.Table, kids: seq<Tree>, n: nat)
    requires n <= |kids| && AllDeletable(kids, |kids|)
    ensures RemoveKids(fat, false, kids, n).error == Success
  {
    RemoveKidsSucceeds(fat, kids, n);
  }

  lemma KidClustersLast(fat: Fat.Table, kids: seq<Tree>, n: nat)
    requires 0 < n <= |kids|
    ensures KidClusters(fat, kids[..n]) == KidClusters(fat, kids[..n - 1]) + TreeClusters(fat, kids[n - 1])
  {
    var most, all := kids[..n - 1], kids[..n];
    forall c | c in KidClusters(fat, most) ensures c in KidClusters(fat, all) {
      var i :| 0 <= i < |most| && c in TreeClusters(fat, most[i]);
      assert all[i] == most[i];
    }
    assert all[n - 1] == kids[n - 1];
  }

  // ----- normal directories -----

  /** Every directory has its two dot entries. */
  predicate TwoDots(u: Tree) {
    Descends(u.rec) ==> DotCount(u.kids) == 2 && forall i :: 0 <= i < |u.kids| ==> TwoDots(u.kids[i])
  }

  /** A directory with something else than dot entries has more used slots than dot entries. */
  lemma {:induction false} MoreThanDots(kids: seq<Tree>, i: nat)
    requires i < |kids| && Live(kids[i].rec)
    ensures CountUsed(kids) > DotCount(kids)
  {
    var most := kids[..|kids| - 1];
    if i < |most| {
      MoreThanDots(most, i);
    } else {
      AtLeastDots(most);
    }
  }

  lemma {:induction false} AtLeastDots(kids: seq<Tree>)
    ensures CountUsed(kids) >= DotCount(kids)
  {
    if kids != [] {
      AtLeastDots(kids[..|kids| - 1]);
    }
  }

  lemma {:induction false} TwoDotsAreNormal(u: Tree)
    requires TwoDots(u)
    ensures Deletable(u) && Thorough(u)
  {
    if Descends(u.rec) {
      forall i | 0 <= i < |u.kids| ensures Deletable(u.kids[i]) && Thorough(u.kids[i]) {
        TwoDotsAreNormal(u.kids[i]);
      }
      forall i | 0 <= i < |u.kids| && CountUsed(u.kids) <= 2 ensures !Live(u.kids[i].rec) {
        if Live(u.kids[i].rec) {
          MoreThanDots(u.kids, i);
        }
      }
    }
  }

  // ----- soundness of what is left -----

  /** What is left of a subtree is sound and refers to no new cluster. */
  ghost predicate LeftSound(g: Geometry, fat: Fat.Table, u: Tree, left: Tree) {
    SlotSound(g, fat, left) && TreeClusters(fat, left) <= TreeClusters(fat, u)
  }

  ghost predicate LeftKidsSound(g: Geometry, fat: Fat.Table, kids: seq<Tree>, left: seq<Tree>) {
    |left| == |kids| && forall i :: 0 <= i < |kids| ==> LeftSound(g, fat, kids[i], left[i])
  }

  lemma {:induction false} RemoveTreeSound(g: Geometry, fat: Fat.Table, soft: bool, u: Tree)
    requires Live(u.rec) && SlotSound(g, fat, u)
    ensures LeftSound(g, fat, u, RemoveTree(fat, soft, u).left)
    decreases u
  {
    FreeSound(g, fat);
    if IsDirectory(u.rec) && CountUsed(u.kids) > 2 {
      RemoveKidsSound(g, fat, soft, u.kids, |u.kids|);
      LeftDirSound(g, fat, u, RemoveKids(fat, soft, u.kids, |u.kids|).left);
    }
  }

  lemma LeftDirSound(g: Geometry, fat: Fat.Table, u: Tree, left: seq<Tree>)
    requires Live(u.rec) && Descends(u.rec) && SlotSound(g, fat, u) && LeftKidsSound(g, fat, u.kids, left)
    ensures LeftSound(g, fat, u, Node(u.rec, left))
  {
    forall i, j | 0 <= i < j < |left| ensures TreeClusters(fat, left[i]) !! TreeClusters(fat, left[j]) {
      assert LeftSound(g, fat, u.kids[i], left[i]) && LeftSound(g, fat, u.kids[j], left[j]);
    }
    assert KidClusters(fat, left) <= KidClusters(fat, u.kids);
  }

  lemma RemoveNextSound(g: Geometry, fat: Fat.Table, kids: seq<Tree>, i: nat, before: Removal<seq<Tree>>, r: Removal<Tree>)
    requires LeftKidsSound(g, fat, kids, before.left) && i < |kids|
    requires Live(kids[i].rec) ==> LeftSound(g, fat, kids[i], r.left)
    ensures LeftKidsSound(g, fat, kids, RemoveNext(before, kids, i, r).left)
  {
  }

  ghost predicate KidsLeftSound(g: Geometry, fat: Fat.Table, soft: bool, kids: seq<Tree>, n: nat) {
    n <= |kids| && LeftKidsSound(g, fat, kids, RemoveKids(fat, soft, kids, n).left)
  }

  lemma RemoveTurnSound(g: Geometry, fat: Fat.Table, soft: bool, kids: seq<Tree>, i: nat)
    requires KidsLeftSound(g, fat, soft, kids, i) && i < |kids| && SlotSound(g, fat, kids[i])
    ensures KidsLeftSound(g, fat, soft, kids, i + 1)
    decreases kids, 0
  {
    if Live(kids[i].rec) {
      RemoveTreeSound(g, fat, soft, kids[i]);
    }
    RemoveNextSound(g, fat, kids, i, RemoveKids(fat, soft, kids, i), RemoveTree(fat, soft, kids[i]));
  }

  lemma {:induction false} RemoveKidsSound(g: Geometry, fat: Fat.Table, soft: bool, kids: seq<Tree>, n: nat)
    requires n <= |kids| && DirSound(g, fat, kids)
    ensures KidsLeftSound(g, fat, soft, kids, n)
    decreases kids, 1, n
  {
    if n > 0 {
      RemoveKidsSound(g, fat, soft, kids, n - 1);
      RemoveTurnSound(g, fat, soft, kids, n - 1);
    }
  }

  /** Only clusters of the subtree are erased. */
  lemma {:induction false} ErasedInTree(fat: Fat.Table, soft: bool, u: Tree)
    ensures RemoveTree(fat, soft, u).erased <= TreeClusters(fat, u)
    decreases u
  {
    if IsDirectory(u.rec) && CountUsed(u.kids) > 2 {
      ErasedInKids(fat, soft, u.kids, |u.kids|);
      assert u.kids[..|u.kids|] == u.kids;
    }
  }

  lemma {:induction false} ErasedInKids(fat: Fat.Table, soft: bool, kids: seq<Tree>, n: nat)
    requires n <= |kids|
    ensures RemoveKids(fat, soft, kids, n).erased <= KidClusters(fat, kids[..n])
    decreases kids, n
  {
    if n > 0 {
      ErasedInKids(fat, soft, kids, n - 1);
      ErasedInTree(fat, soft, kids[n - 1]);
      KidClustersLast(fat, kids, n);
    }
  }

  // ----- the disk -----

  /** `d` with zeros in the clusters `cs`. */
  ghost function EraseSet(d: Disk, cs: set<int>, size: nat): (r: Disk)
    ensures |r.clusters| == |d.clusters|
  {
    d.(clusters := seq(|d.clusters|, i requires 0 <= i < |d.clusters| => if i + 2 in cs then Zeros(size) else d.clusters[i]))
  }

  lemma EraseSetFits(g: Geometry, d: Disk, cs: set<int>)
    requires Fits(g, d)
    ensures Fits(g, EraseSet(d, cs, g.clusterSize))
  {
  }

  function Members(s: seq<int>): set<int> {
    set c | c in s
  }

  lemma {:induction false} EraseChainIsSet(d: Disk, s: seq<int>, size: nat)
    requires InData(d, s)
    ensures EraseChain(d, s, size) == EraseSet(d, Members(s), size)
    decreases |s|
  {
    if s != [] {
      var next := PutCluster(d, s[0], Zeros(size));
      EraseChainIsSet(next, s[1..], size);
      assert forall c :: c in s <==> c == s[0] || c in s[1..];
      assert EraseSet(next, Members(s[1..]), size).clusters == EraseSet(d, Members(s), size).clusters;
    } else {
      assert EraseSet(d, {}, size).clusters == d.clusters;
    }
  }

  // ----- the volume and the disk after a deletion -----

  /** The volume with `left` in place of the subtree at `a`. */
  ghost function WithLeft(v: Volume, a: Address, left: Tree): Volume
    requires Valid(v.root, a)
  {
    v.(root := Put(v.root, a, left))
  }

  /** An entry that a path leads to. */
  ghost predicate Target(v: Volume, a: Address) {
    Valid(v.root, a) && a != [] && Live(At(v.root, a).rec)
  }

  lemma WithLeftSound(v: Volume, a: Address, left: Tree)
    requires VolumeSound(v) && Target(v, a) && LeftSound(Areas(v.bpb), v.fat, At(v.root, a), left)
    ensures VolumeSound(WithLeft(v, a, left))
  {
    PutSound(Areas(v.bpb), v.fat, v.root, a, left);
    KidAfterPut(v.root, a, left);
  }

  /** Deletion writes the metadata after each removed entry; all in all, this is what remains on the disk. */
  ghost function Erased(d: Disk, v: Volume, cs: set<int>): (r: Disk)
    requires VolumeSound(v) && Fits(Areas(v.bpb), d)
    ensures Fits(Areas(v.bpb), r)
  {
    EraseSetFits(Areas(v.bpb), d, cs);
    WriteMetadata(EraseSet(d, cs, ClusterSize(v.bpb)), v)
  }

  /** The directories of the smaller tree, or the clusters erased next, cover the directories of the larger. */
  ghost predicate Covers(v: Volume, w: Volume, cs: set<int>) {
    && w.bpb == v.bpb && w.fat == v.fat
    && DT.DirKidClusters(v.fat, v.root.kids) <= DT.DirKidClusters(v.fat, w.root.kids) + cs
  }

  /**
   A second removal, which leaves `w` and erases `more`, writes none of the clusters that the first one wrote for a
   directory that is gone without being erased; they hold what they held at the beginning.
   */
  ghost predicate Keeps(d: Disk, v: Volume, cs: set<int>, w: Volume, more: set<int>)
    requires VolumeSound(v) && Fits(Areas(v.bpb), d)
  {
    && w.bpb == v.bpb && w.fat == v.fat
    && forall c :: c in DT.DirKidClusters(v.fat, v.root.kids) && 2 <= c < |d.clusters| + 2 ==>
         || c in DT.DirKidClusters(w.fat, w.root.kids) || c in more
         || Erased(d, v, cs).clusters[c - 2] == if c in cs then Zeros(ClusterSize(v.bpb)) else d.clusters[c - 2]
  }

  lemma CoversKeeps(d: Disk, v: Volume, cs: set<int>, w: Volume, more: set<int>)
    requires VolumeSound(v) && Fits(Areas(v.bpb), d) && Covers(v, w, more)
    ensures Keeps(d, v, cs, w, more)
  {
  }

  /** The areas before the clusters. */
  lemma ErasedSystem(d: Disk, v: Volume, cs: set<int>)
    requires VolumeSound(v) && Fits(Areas(v.bpb), d)
    ensures var r := Erased(d, v, cs);
            && r.boot == Splice(d.boot, BPB_OFFSET, EncodeBpb(v.bpb)) && r.tail == d.tail
            && r.fats == Copies(FatBytes(v), v.bpb.numberOfFats)
            && r.root == DT.TableBytes(v.root.kids, RootDirSize(v.bpb)) && |r.clusters| == |d.clusters|
  {
  }

  lemma SpliceAgain(b: seq<Byte>, at: nat, d: seq<Byte>)
    requires at + |d| <= |b|
    ensures Splice(Splice(b, at, d), at, d) == Splice(b, at, d)
  {
  }

  /** Outside the directories a cluster is as it was, or zero if it was erased. */
  lemma ErasedOutside(d: Disk, v: Volume, cs: set<int>, c: int)
    requires VolumeSound(v) && Fits(Areas(v.bpb), d) && 2 <= c < |d.clusters| + 2
    requires c !in DT.DirKidClusters(v.fat, v.root.kids)
    ensures Erased(d, v, cs).clusters[c - 2] == if c in cs then Zeros(ClusterSize(v.bpb)) else d.clusters[c - 2]
  {
    EraseSetFits(Areas(v.bpb), d, cs);
    var d1 := WriteSystem(EraseSet(d, cs, ClusterSize(v.bpb)), v);
    DT.WriteKidsFrame(Areas(v.bpb), d1, v.fat, v.root.kids, |v.root.kids|, c);
  }

  /** The clusters of the directories hold what the volume determines, whatever was there before. */
  lemma ErasedInside(d: Disk, d': Disk, v: Volume, cs: set<int>, more: set<int>, c: int)
    requires VolumeSound(v) && Fits(Areas(v.bpb), d) && Fits(Areas(v.bpb), d') && 2 <= c < |d.clusters| + 2
    requires c in DT.DirKidClusters(v.fat, v.root.kids)
    ensures Erased(d, v, cs).clusters[c - 2] == Erased(d', v, more).clusters[c - 2]
  {
    var g, size := Areas(v.bpb), ClusterSize(v.bpb);
    EraseSetFits(g, d, cs);
    EraseSetFits(g, d', more);
    WriteKidsDetermined(g, WriteSystem(EraseSet(d', more, size), v), WriteSystem(EraseSet(d, cs, size), v),
                        v.fat, v.root.kids, |v.root.kids|, c);
  }

  lemma ErasedCluster(d: Disk, v: Volume, w: Volume, cs: set<int>, more: set<int>, c: int)
    requires VolumeSound(v) && VolumeSound(w) && Fits(Areas(v.bpb), d) && Keeps(d, v, cs, w, more) && 2 <= c < |d.clusters| + 2
    ensures Erased(Erased(d, v, cs), w, more).clusters[c - 2] == Erased(d, w, cs + more).clusters[c - 2]
  {
    var mid := Erased(d, v, cs);
    if c in DT.DirKidClusters(w.fat, w.root.kids) {
      ErasedInside(mid, d, w, more, cs + more, c);
    } else {
      ErasedOutside(mid, w, more, c);
      ErasedOutside(d, w, cs + more, c);
      if c !in more && c !in DT.DirKidClusters(v.fat, v.root.kids) {
        ErasedOutside(d, v, cs, c);
      }
    }
  }

  lemma ErasedTwiceSystem(d: Disk, v: Volume, w: Volume, cs: set<int>, more: set<int>)
    requires VolumeSound(v) && VolumeSound(w) && Fits(Areas(v.bpb), d) && Keeps(d, v, cs, w, more)
    ensures var once, twice := Erased(Erased(d, v, cs), w, more), Erased(d, w, cs + more);
            once == twice.(clusters := once.clusters) && |once.clusters| == |twice.clusters| == |d.clusters|
  {
    ErasedSystem(d, v, cs);
    ErasedSystem(Erased(d, v, cs), w, more);
    ErasedSystem(d, w, cs + more);
    SpliceAgain(d.boot, BPB_OFFSET, EncodeBpb(v.bpb));
  }

  /** A second deletion leaves nothing of what the first one wrote. */
  lemma ErasedTwice(d: Disk, v: Volume, w: Volume, cs: set<int>, more: set<int>)
    requires VolumeSound(v) && VolumeSound(w) && Fits(Areas(v.bpb), d) && Keeps(d, v, cs, w, more)
    ensures Erased(Erased(d, v, cs), w, more) == Erased(d, w, cs + more)
  {
    ErasedTwiceSystem(d, v, w, cs, more);
    var once, twice := Erased(Erased(d, v, cs), w, more), Erased(d, w, cs + more);
    forall i | 0 <= i < |d.clusters| ensures once.clusters[i] == twice.clusters[i] {
      ErasedCluster(d, v, w, cs, more, i + 2);
    }
    assert once.clusters == twice.clusters;
  }

  // ----- the directories of the larger tree are covered -----

  lemma LeafHasNoDirs(g: Geometry, fat: Fat.Table, u: Tree)
    requires SlotSound(g, fat, u) && !Live(u.rec)
    ensures DT.DirClusters(fat, u) == {}
  {
    LeafHasNoClusters(g, fat, u);
    DT.DirClustersInTree(fat, u);
  }

  lemma ClearedHasNoDirs(g: Geometry, fat: Fat.Table, kids: seq<Tree>, left: seq<Tree>)
    requires DirSound(g, fat, kids) && Cleared(kids, left, |kids|)
    ensures DT.DirKidClusters(fat, left) == {}
  {
    forall i | 0 <= i < |left| ensures DT.DirClusters(fat, left[i]) == {} {
      if Live(kids[i].rec) {
        DT.FreeHasNoClusters(fat);
      } else {
        LeafHasNoDirs(g, fat, kids[i]);
      }
    }
  }

  /** What covers a subtree covers the whole tree. */
  lemma {:induction false} CoversPut(fat: Fat.Table, t: Tree, a: Address, left: Tree, cs: set<int>)
    requires Valid(t, a) && a != [] && DT.DirClusters(fat, At(t, a)) <= DT.DirClusters(fat, left) + cs
    ensures DT.DirKidClusters(fat, t.kids) <= DT.DirKidClusters(fat, Put(t, a, left).kids) + cs
    decreases |a|
  {
    var kid, kids' := t.kids[a[0]], Put(t, a, left).kids;
    if |a| == 1 {
      assert a[1..] == [];
    } else {
      CoversPut(fat, kid, a[1..], left, cs);
    }
    forall i, c | 0 <= i < |t.kids| && c in DT.DirClusters(fat, t.kids[i]) && c !in cs
      ensures c in DT.DirKidClusters(fat, kids')
    {
      assert c in DT.DirClusters(fat, kids'[i]);
    }
  }

  // ----- the checks of f12_del -----

  /** The entry that f12_del removes, if its checks pass. */
  ghost predicate WillDelete(t: Tree, path: Path, recursive: bool) {
    && path != [] && Lookup(t, path).Some?
    && (recursive || !IsDirectory(At(t, Lookup(t, path).value).rec) || |At(t, Lookup(t, path).value).kids| <= 2)
  }

  /** The metadata after the removal. */
  ghost function DeletedFrom(v: Volume, a: Address, soft: bool): (w: Volume)
    requires VolumeSound(v) && Target(v, a)
    ensures VolumeSound(w) && w.bpb == v.bpb
  {
    SoundAt(Areas(v.bpb), v.fat, v.root, a);
    RemoveTreeSound(Areas(v.bpb), v.fat, soft, At(v.root, a));
    WithLeftSound(v, a, RemoveTree(v.fat, soft, At(v.root, a)).left);
    WithLeft(v, a, RemoveTree(v.fat, soft, At(v.root, a)).left)
  }

  lemma PlainIsTarget(v: Volume, path: Path)
    requires path != [] && Plain(path) && Lookup(v.root, path).Some?
    ensures Target(v, Lookup(v.root, path).value)
  {
    LookupLastName(v.root, path);
    assert PlainName(path[|path| - 1]);
  }

  // ----- main results -----

  lemma {:induction false} ApartClusters(g: Geometry, fat: Fat.Table, t: Tree, a: Address, b: Address)
    requires DirSound(g, fat, t.kids) && Valid(t, a) && Valid(t, b) && Apart(a, b)
    ensures TreeClusters(fat, At(t, a)) !! TreeClusters(fat, At(t, b))
    decreases |a|
  {
    var i, j := a[0], b[0];
    if i == j {
      assert a == [i] + a[1..] && b == [j] + b[1..];
      ApartClusters(g, fat, t.kids[i], a[1..], b[1..]);
    } else {
      InSlot(g, fat, t, a);
      InSlot(g, fat, t, b);
    }
  }

  lemma InSlot(g: Geometry, fat: Fat.Table, t: Tree, a: Address)
    requires DirSound(g, fat, t.kids) && Valid(t, a) && a != []
    ensures TreeClusters(fat, At(t, a)) <= TreeClusters(fat, t.kids[a[0]])
  {
    if |a| == 1 {
      assert a[1..] == [];
    } else {
      SoundAt(g, fat, t.kids[a[0]], a[1..]);
    }
  }

  /** Files elsewhere do not use the clusters of a subtree. */
  lemma FileElsewhere(g: Geometry, fat: Fat.Table, t: Tree, a: Address, b: Address)
    requires DirSound(g, fat, t.kids) && Valid(t, a) && Valid(t, b) && a != [] && b != [] && !(a <= b)
    requires Live(At(t, b).rec) && !IsDirectory(At(t, b).rec)
    ensures OwnClusters(fat, At(t, b).rec) !! TreeClusters(fat, At(t, a))
  {
    SoundAt(g, fat, t, b);
    if b <= a {
      assert a == b + a[|b|..];
      ValidAppend(t, b, a[|b|..]);
      assert false;
    }
    ApartClusters(g, fat, t, a, b);
  }

  /** A hard deletion of a normal subtree succeeds, leaves a free slot and erases all its clusters. */
  lemma DeleteSucceeds(v: Volume, a: Address)
    requires VolumeSound(v) && Target(v, a) && TwoDots(At(v.root, a))
    ensures RemoveTree(v.fat, false, At(v.root, a)).error == Success
    ensures RemoveTree(v.fat, false, At(v.root, a)).left == FREE
    ensures RemoveTree(v.fat, false, At(v.root, a)).erased == TreeClusters(v.fat, At(v.root, a))
    ensures VolumeSound(WithLeft(v, a, FREE))
  {
    var g, u := Areas(v.bpb), At(v.root, a);
    TwoDotsAreNormal(u);
    SoundAt(g, v.fat, v.root, a);
    RemoveTreeSucceeds(v.fat, u);
    RemoveTreeErases(g, v.fat, u);
    FreeSound(g, v.fat);
    WithLeftSound(v, a, FREE);
  }

  lemma FreeLeftSound(v: Volume, a: Address)
    requires VolumeSound(v) && Target(v, a)
    ensures VolumeSound(WithLeft(v, a, FREE))
  {
    FreeSound(Areas(v.bpb), v.fat);
    WithLeftSound(v, a, FREE);
  }

  /** The clusters of the removed subtree end up as zeros. */
  lemma DeleteZeroes(d: Disk, v: Volume, a: Address, c: int)
    requires VolumeSound(v) && Fits(Areas(v.bpb), d) && Target(v, a)
    requires c in TreeClusters(v.fat, At(v.root, a)) && 2 <= c < Areas(v.bpb).dataClusters + 2
    ensures VolumeSound(WithLeft(v, a, FREE))
    ensures Erased(d, WithLeft(v, a, FREE), TreeClusters(v.fat, At(v.root, a))).clusters[c - 2] == Zeros(ClusterSize(v.bpb))
  {
    var g, w := Areas(v.bpb), WithLeft(v, a, FREE);
    FreeLeftSound(v, a);
    FreeSound(g, v.fat);
    PutSound(g, v.fat, v.root, a, FREE);
    DirsInKids(v.fat, w.root.kids);
    ErasedOutside(d, w, TreeClusters(v.fat, At(v.root, a)), c);
  }

  lemma DirsInKids(fat: Fat.Table, kids: seq<Tree>)
    ensures DT.DirKidClusters(fat, kids) <= KidClusters(fat, kids)
  {
    forall i | 0 <= i < |kids| ensures DT.DirClusters(fat, kids[i]) <= TreeClusters(fat, kids[i]) {
      DT.DirClustersInTree(fat, kids[i]);
    }
  }

  /** Erasing a subtree does not change what a file elsewhere dumps. */
  lemma DumpElsewhere(d: Disk, v: Volume, a: Address, b: Address)
    requires VolumeSound(v) && Fits(Areas(v.bpb), d) && Valid(v.root, a) && a != [] && Valid(v.root, b) && !(a <= b)
    requires Dumpable(Areas(v.bpb), v.fat, At(v.root, b).rec)
    ensures var after := EraseSet(d, TreeClusters(v.fat, At(v.root, a)), ClusterSize(v.bpb));
            Fits(Areas(v.bpb), after) &&
            Dump(Areas(v.bpb), after, v.fat, At(v.root, b).rec) == Dump(Areas(v.bpb), d, v.fat, At(v.root, b).rec)
  {
    var g, cs := Areas(v.bpb), TreeClusters(v.fat, At(v.root, a));
    RootIsNoFile();
    FileElsewhere(g, v.fat, v.root, a, b);
    EraseSetFits(g, d, cs);
    DumpFrame(g, d, EraseSet(d, cs, g.clusterSize), v.fat, At(v.root, b).rec);
  }

  /** Every file outside the removed subtree keeps its bytes. */
  lemma DeleteKeepsFiles(d: Disk, v: Volume, p: Path, q: Path)
    requires VolumeSound(v) && Fits(Areas(v.bpb), d) && Plain(p) && Plain(q) && p != [] && Lookup(v.root, p).Some?
    ensures var a := Lookup(v.root, p).value; var cs := TreeClusters(v.fat, At(v.root, a));
            && Fits(Areas(v.bpb), EraseSet(d, cs, ClusterSize(v.bpb)))
            && FileContent(EraseSet(d, cs, ClusterSize(v.bpb)), WithLeft(v, a, FREE), q) ==
               ContentAt(d, v, Remaining(v.root, p, q))
  {
    var a := Lookup(v.root, p).value;
    Remove(v.root, p, q);
    EraseSetFits(Areas(v.bpb), d, TreeClusters(v.fat, At(v.root, a)));
    if Remaining(v.root, p, q).Some? {
      var b := Remaining(v.root, p, q).value;
      RemainingApart(v.root, p, q);
      RecordKept(v.root, a, FREE, b);
      if Dumpable(Areas(v.bpb), v.fat, At(v.root, b).rec) {
        DumpElsewhere(d, v, a, b);
      }
    }
  }

  /**
   f12_del: after the recursive deletion of `p` the image reads as a sound volume, paths through `p` lead through the
   next entry of its name or nowhere, and every other path gives what it gave before.
   */
  lemma DeleteThenGet(d: Disk, v: Volume, p: Path, q: Path, loaded: Volume)
    requires VolumeSound(v) && Fits(Areas(v.bpb), d) && Plain(p) && Plain(q) && p != [] && Lookup(v.root, p).Some?
    ensures VolumeSound(WithLeft(v, Lookup(v.root, p).value, FREE))
    ensures var a := Lookup(v.root, p).value;
            var w := WithLeft(v, a, FREE);
            var after := Erased(d, w, TreeClusters(v.fat, At(v.root, a)));
            && ReadsVolume(after, FilledVolume(w))
            && (ReadsVolume(after, loaded) ==>
                  FileContent(after, loaded, q) == ContentAt(d, v, Remaining(v.root, p, q)))
  {
    var a := Lookup(v.root, p).value;
    var w, cs := WithLeft(v, a, FREE), TreeClusters(v.fat, At(v.root, a));
    PlainIsTarget(v, p);
    FreeLeftSound(v, a);
    EraseSetFits(Areas(v.bpb), d, cs);
    var blank := EraseSet(d, cs, ClusterSize(v.bpb));
    MetadataRoundTrip(blank, w);
    WriteKeepsContents(blank, w, q);
    DeleteKeepsFiles(d, v, p, q);
    if ReadsVolume(Erased(d, w, cs), loaded) {
      ReadsVolumeIsUnique(Erased(d, w, cs), loaded, FilledVolume(w));
    }
  }

  // ----- one deletion after another -----

  /** The disk after the removal `r` that led to the volume `w`. */
  ghost function AfterRemoval<T>(d: Disk, w: Volume, r: Removal<T>): (after: Disk)
    requires VolumeSound(w) && Fits(Areas(w.bpb), d)
    ensures Fits(Areas(w.bpb), after)
  {
    if r.removed == 0 then d else Erased(d, w, r.erased)
  }

  lemma {:induction false} PutTwice(t: Tree, a: Address, w: Tree, x: Address, u: Tree)
    requires Valid(t, a) && Valid(w, x)
    ensures Valid(Put(t, a, w), a + x) && At(Put(t, a, w), a + x) == At(w, x)
    ensures Put(Put(t, a, w), a + x, u) == Put(t, a, Put(w, x, u))
  {
    if a == [] {
      assert a + x == x;
    } else {
      assert (a + x)[1..] == a[1..] + x;
      PutTwice(t.kids[a[0]], a[1..], w, x, u);
      var kid := t.kids[a[0]];
      assert t.kids[a[0] := Put(kid, a[1..], w)][a[0] := Put(Put(kid, a[1..], w), a[1..] + x, u)] ==
             t.kids[a[0] := Put(kid, a[1..], Put(w, x, u))];
    }
  }

  lemma {:induction false} PutSame(t: Tree, a: Address)
    requires Valid(t, a)
    ensures Put(t, a, At(t, a)) == t
  {
    if a != [] {
      PutSame(t.kids[a[0]], a[1..]);
      assert t.kids[a[0] := t.kids[a[0]]] == t.kids;
    }
  }

  /** The disk after two removals in turn, from `v` to `w` and on to `z`, is the disk after both as one. */
  lemma InTurn<S, T>(d: Disk, v: Volume, w: Volume, z: Volume, before: Removal<S>, r: Removal<T>)
    requires VolumeSound(v) && VolumeSound(w) && VolumeSound(z) && Fits(Areas(v.bpb), d)
    requires v.bpb == w.bpb == z.bpb && Keeps(d, w, before.erased, z, r.erased)
    requires before.removed == 0 ==> w == v && before.erased == {}
    requires r.removed == 0 ==> z == w && r.erased == {}
    ensures AfterRemoval(AfterRemoval(d, w, before), z, r) ==
            AfterRemoval(d, z, Removal(r.error, r.left, before.erased + r.erased, before.removed + r.removed))
  {
    if before.removed == 0 {
      assert before.erased + r.erased == r.erased;
    } else if r.removed == 0 {
      assert before.erased + r.erased == before.erased;
    } else {
      ErasedTwice(d, w, z, before.erased, r.erased);
    }
  }

  // ----- the turns of the recursion -----

  /** What the loop over the slots of `u` has left after `i` turns. */
  ghost function LeftOf(fat: Fat.Table, soft: bool, u: Tree, i: nat): Tree
    requires i <= |u.kids|
  {
    Node(u.rec, RemoveKids(fat, soft, u.kids, i).left)
  }

  /** The tree after one more turn. */
  lemma KidTurn(v: Volume, a: Address, soft: bool, u: Tree, i: nat)
    requires Valid(v.root, a) && i < |u.kids| && Live(u.kids[i].rec)
    requires RemoveKids(v.fat, soft, u.kids, i).error == Success
    ensures var w := WithLeft(v, a, LeftOf(v.fat, soft, u, i));
            && Valid(w.root, a + [i]) && At(w.root, a + [i]) == u.kids[i]
            && WithLeft(w, a + [i], RemoveTree(v.fat, soft, u.kids[i]).left) ==
               WithLeft(v, a, LeftOf(v.fat, soft, u, i + 1))
  {
    var left, r := LeftOf(v.fat, soft, u, i), RemoveTree(v.fat, soft, u.kids[i]);
    RemoveKidsRest(v.fat, soft, u.kids, i, i);
    assert [i][1..] == [] && At(left, [i]) == left.kids[i];
    PutTwice(v.root, a, left, [i], r.left);
  }

  /** A directory that the turn loses without erasing it is one below the slot, so it holds what it held. */
  lemma KidTurnKeeps(d: Disk, v: Volume, a: Address, soft: bool, u: Tree, i: nat, w: Volume, z: Volume, c: int)
    requires VolumeSound(v) && VolumeSound(w) && Fits(Areas(v.bpb), d) && Target(v, a) && u == At(v.root, a)
    requires i < |u.kids| && Live(u.kids[i].rec) && Settled(Areas(v.bpb), v.fat, d, u.kids[i])
    requires RemoveKids(v.fat, soft, u.kids, i).error == Success
    requires w == WithLeft(v, a, LeftOf(v.fat, soft, u, i)) && z == WithLeft(v, a, LeftOf(v.fat, soft, u, i + 1))
    requires c in DT.DirKidClusters(w.fat, w.root.kids) && c !in DT.DirKidClusters(z.fat, z.root.kids)
    requires 2 <= c < |d.clusters| + 2
    ensures c !in RemoveKids(v.fat, soft, u.kids, i).erased
    ensures Erased(d, w, RemoveKids(v.fat, soft, u.kids, i).erased).clusters[c - 2] == d.clusters[c - 2]
  {
    var kid, cs, g := u.kids[i], RemoveKids(v.fat, soft, u.kids, i).erased, Areas(v.bpb);
    KidTurn(v, a, soft, u, i);
    CoversPut(v.fat, w.root, a + [i], RemoveTree(v.fat, soft, kid).left, DT.DirClusters(v.fat, kid));
    ErasedInKids(v.fat, soft, u.kids, i);
    EarlierApart(v, a, u, i, c);
    EraseSetFits(g, d, cs);
    WriteMetadataAt(EraseSet(d, cs, ClusterSize(v.bpb)), d, w, a + [i], c);
  }

  /** The clusters below a slot are not those of the slots before it. */
  lemma EarlierApart(v: Volume, a: Address, u: Tree, i: nat, c: int)
    requires VolumeSound(v) && Target(v, a) && u == At(v.root, a) && i < |u.kids| && Live(u.kids[i].rec)
    requires c in DT.DirClusters(v.fat, u.kids[i])
    ensures c !in KidClusters(v.fat, u.kids[..i])
  {
    SoundAt(Areas(v.bpb), v.fat, v.root, a);
    DT.DirClustersInTree(v.fat, u.kids[i]);
    forall j | 0 <= j < |u.kids[..i]| ensures c !in TreeClusters(v.fat, u.kids[..i][j]) {
      assert TreeClusters(v.fat, u.kids[j]) !! TreeClusters(v.fat, u.kids[i]);
    }
  }

  lemma KidTurnNothing(v: Volume, a: Address, soft: bool, u: Tree, i: nat)
    requires Valid(v.root, a) && i < |u.kids| && Live(u.kids[i].rec)
    requires RemoveKids(v.fat, soft, u.kids, i).error == Success
    ensures var r := RemoveTree(v.fat, soft, u.kids[i]);
            r.removed == 0 ==>
              r.erased == {} && WithLeft(v, a, LeftOf(v.fat, soft, u, i + 1)) == WithLeft(v, a, LeftOf(v.fat, soft, u, i))
  {
    KidTurn(v, a, soft, u, i);
    NothingRemoved(v.fat, soft, u.kids[i]);
    PutSame(WithLeft(v, a, LeftOf(v.fat, soft, u, i)).root, a + [i]);
  }

  /** As long as nothing was removed, nothing is left differently. */
  lemma NothingYet(v: Volume, a: Address, soft: bool, u: Tree, i: nat)
    requires Valid(v.root, a) && u == At(v.root, a) && i <= |u.kids|
    ensures var before := RemoveKids(v.fat, soft, u.kids, i);
            before.removed == 0 ==> WithLeft(v, a, LeftOf(v.fat, soft, u, i)) == v && before.erased == {}
  {
    NoKidsRemoved(v.fat, soft, u.kids, i);
    PutSame(v.root, a);
  }

  lemma KidTurnKeepsAll(d: Disk, v: Volume, a: Address, soft: bool, u: Tree, i: nat, w: Volume, z: Volume)
    requires VolumeSound(v) && VolumeSound(w) && Fits(Areas(v.bpb), d) && Target(v, a) && u == At(v.root, a)
    requires i < |u.kids| && Live(u.kids[i].rec) && Settled(Areas(v.bpb), v.fat, d, u.kids[i])
    requires RemoveKids(v.fat, soft, u.kids, i).error == Success
    requires w == WithLeft(v, a, LeftOf(v.fat, soft, u, i)) && z == WithLeft(v, a, LeftOf(v.fat, soft, u, i + 1))
    ensures Keeps(d, w, RemoveKids(v.fat, soft, u.kids, i).erased, z, RemoveTree(v.fat, soft, u.kids[i]).erased)
  {
    var cs := RemoveKids(v.fat, soft, u.kids, i).erased;
    forall c | c in DT.DirKidClusters(w.fat, w.root.kids) && c !in DT.DirKidClusters(z.fat, z.root.kids) && 2 <= c < |d.clusters| + 2
      ensures c !in cs && Erased(d, w, cs).clusters[c - 2] == d.clusters[c - 2]
    {
      KidTurnKeeps(d, v, a, soft, u, i, w, z, c);
    }
  }

  /** The disk after one more turn. */
  lemma KidTurnDisk(d: Disk, v: Volume, a: Address, soft: bool, u: Tree, i: nat, w: Volume, z: Volume)
    requires VolumeSound(v) && VolumeSound(w) && VolumeSound(z) && Fits(Areas(v.bpb), d) && Target(v, a) && u == At(v.root, a)
    requires i < |u.kids| && Live(u.kids[i].rec) && Settled(Areas(v.bpb), v.fat, d, u.kids[i])
    requires RemoveKids(v.fat, soft, u.kids, i).error == Success
    requires w == WithLeft(v, a, LeftOf(v.fat, soft, u, i)) && z == WithLeft(v, a, LeftOf(v.fat, soft, u, i + 1))
    ensures AfterRemoval(AfterRemoval(d, w, RemoveKids(v.fat, soft, u.kids, i)), z, RemoveTree(v.fat, soft, u.kids[i])) ==
            AfterRemoval(d, z, RemoveKids(v.fat, soft, u.kids, i + 1))
  {
    hide VolumeSound, Settled;
    KidTurnKeepsAll(d, v, a, soft, u, i, w, z);
    KidTurnNothing(v, a, soft, u, i);
    NothingYet(v, a, soft, u, i);
    InTurn(d, v, w, z, RemoveKids(v.fat, soft, u.kids, i), RemoveTree(v.fat, soft, u.kids[i]));
  }

  /** lf12_del_entry on what is left of a directory after the loop, as its own removal. */
  ghost function LastTurn(fat: Fat.Table, soft: bool, u: Tree): Removal<Tree> {
    RemoveOne(fat, soft, Removal(Success, LeftOf(fat, soft, u, |u.kids|), {}, 0))
  }

  lemma LastTurnCovers(g: Geometry, fat: Fat.Table, soft: bool, u: Tree)
    requires Live(u.rec) && SlotSound(g, fat, u) && RemoveKids(fat, soft, u.kids, |u.kids|).error == Success && Descends(u.rec)
    ensures var left, r := LeftOf(fat, soft, u, |u.kids|), LastTurn(fat, soft, u);
            && DT.DirClusters(fat, left) <= DT.DirClusters(fat, r.left) + r.erased
            && (r.removed == 0 ==> r.left == left && r.erased == {})
  {
    var kids := RemoveKids(fat, soft, u.kids, |u.kids|);
    if !soft {
      RemoveKidsSucceeds(fat, u.kids, |u.kids|);
      ClearedHasNoDirs(g, fat, u.kids, kids.left);
    }
  }

  /** The loop and the last turn make up the whole removal. */
  lemma TreeTurns(fat: Fat.Table, soft: bool, u: Tree)
    requires Descends(u.rec) && CountUsed(u.kids) > 2
    ensures var kids, r, last := RemoveKids(fat, soft, u.kids, |u.kids|), RemoveTree(fat, soft, u), LastTurn(fat, soft, u);
            if kids.error != Success then
              r == Removal(kids.error, LeftOf(fat, soft, u, |u.kids|), kids.erased, kids.removed)
            else r == Removal(last.error, last.left, kids.erased + last.erased, kids.removed + last.removed)
  {
    var kids := RemoveKids(fat, soft, u.kids, |u.kids|);
    assert kids.erased + {} == kids.erased;
    assert {} + OwnClusters(fat, u.rec) == OwnClusters(fat, u.rec);
  }

  lemma LastTurnKept(v: Volume, a: Address, soft: bool, u: Tree)
    requires VolumeSound(v) && Target(v, a) && u == At(v.root, a)
    requires Descends(u.rec) && RemoveKids(v.fat, soft, u.kids, |u.kids|).error == Success
    ensures var w, z := WithLeft(v, a, LeftOf(v.fat, soft, u, |u.kids|)), WithLeft(v, a, LastTurn(v.fat, soft, u).left);
            var r := LastTurn(v.fat, soft, u);
            Covers(w, z, r.erased) && (r.removed == 0 ==> z == w && r.erased == {})
  {
    SoundAt(Areas(v.bpb), v.fat, v.root, a);
    LastTurnCovers(Areas(v.bpb), v.fat, soft, u);
    LastTurnPlace(v, a, LeftOf(v.fat, soft, u, |u.kids|), LastTurn(v.fat, soft, u));
  }

  /** The disk after the last turn. */
  lemma LastTurnDisk(d: Disk, v: Volume, a: Address, soft: bool, u: Tree, w: Volume, z: Volume)
    requires VolumeSound(v) && VolumeSound(w) && VolumeSound(z) && Fits(Areas(v.bpb), d) && Target(v, a) && u == At(v.root, a)
    requires Descends(u.rec) && CountUsed(u.kids) > 2 && RemoveKids(v.fat, soft, u.kids, |u.kids|).error == Success
    requires w == WithLeft(v, a, LeftOf(v.fat, soft, u, |u.kids|)) && z == WithLeft(v, a, LastTurn(v.fat, soft, u).left)
    ensures AfterRemoval(AfterRemoval(d, w, RemoveKids(v.fat, soft, u.kids, |u.kids|)), z, LastTurn(v.fat, soft, u)) ==
            AfterRemoval(d, z, RemoveTree(v.fat, soft, u))
  {
    LastTurnKept(v, a, soft, u);
    CoversKeeps(d, w, RemoveKids(v.fat, soft, u.kids, |u.kids|).erased, z, LastTurn(v.fat, soft, u).erased);
    NothingYet(v, a, soft, u, |u.kids|);
    TreeTurns(v.fat, soft, u);
    InTurn(d, v, w, z, RemoveKids(v.fat, soft, u.kids, |u.kids|), LastTurn(v.fat, soft, u));
  }

  lemma LastTurnPlace(v: Volume, a: Address, left: Tree, r: Removal<Tree>)
    requires Valid(v.root, a) && a != []
    requires DT.DirClusters(v.fat, left) <= DT.DirClusters(v.fat, r.left) + r.erased
    ensures Covers(WithLeft(v, a, left), WithLeft(v, a, r.left), r.erased)
  {
    var w := WithLeft(v, a, left);
    AtPut(v.root, a, left);
    assert a + [] == a && Valid(left, []);
    PutTwice(v.root, a, left, [], r.left);
    CoversPut(v.fat, w.root, a, r.left, r.erased);
  }
}
