/**
 What f12_del, f12_move and f12_put promise, said of the image before and after in terms of paths, entries and bytes
 (src/del.c, src/move.c, src/put.c).
 */
module Promises {
  import opened Bytes
  import opened Records
  import opened Options
  import opened Errors
  import opened BiosParameterBlock
  import opened Fat
  import opened Disks
  import opened ChainIo
  import opened Trees
  import opened Volumes
  import opened Creation
  import opened Lookups
  import opened Contents
  import opened Moves
  import opened Deletion
  import opened Runs
  import opened RecursiveOption

  // ----- the image afterwards -----

  /** The image `after` reads as the sound metadata `w`, with the parameter block of `v`. */
  ghost predicate ReadsAs(after: Disk, v: Volume, w: Volume) {
    VolumeSound(w) && w.bpb == v.bpb && ReadsVolume(after, w)
  }

  /** The path `r` leads afterwards to the entry that was at `x`, with the same record and the same bytes. */
  ghost predicate Leads(d: Disk, v: Volume, x: Option<Address>, after: Disk, w: Volume, r: Path)
    requires Sound(v.bpb) && Fits(Areas(v.bpb), d) && Sound(w.bpb) && Fits(Areas(w.bpb), after)
    requires x.Some? ==> Valid(v.root, x.value)
  {
    RecordAt(w.root, r) == RecordOf(v.root, x) && FileContent(after, w, r) == ContentAt(d, v, x)
  }

  /** Metadata with the same paths, records and contents, written and read back. */
  lemma WrittenLeads(d: Disk, v: Volume, x: Option<Address>, d': Disk, w: Volume, r: Path)
    requires Sound(v.bpb) && Fits(Areas(v.bpb), d) && VolumeSound(w) && Fits(Areas(w.bpb), d') && Plain(r)
    requires x.Some? ==> Valid(v.root, x.value)
    requires Leads(d, v, x, d', w, r)
    ensures Leads(d, v, x, WriteMetadata(d', w), FilledVolume(w), r)
  {
    FilledRootLookup(w, r);
    WriteKeepsContents(d', w, r);
  }

  lemma WrittenReads(d: Disk, v: Volume, w: Volume)
    requires VolumeSound(w) && w.bpb == v.bpb && Fits(Areas(w.bpb), d)
    ensures ReadsAs(WriteMetadata(d, w), v, FilledVolume(w))
  {
    MetadataRoundTrip(d, w);
    FilledVolumeSound(w);
  }

  /** An entry for which the recursive option is given or not asked for: a file, or a chain below three entries. */
  ghost predicate OptionFits(v: Volume, a: Address, recursive: bool)
    requires Valid(v.root, a)
  {
    var r := At(v.root, a).rec;
    recursive || !IsDirectory(r) ||
    (HasChain(v.fat, r.firstCluster) && ChainBytes(v.fat, r.firstCluster, ClusterSize(v.bpb)) < 96)
  }

  lemma OptionOfSlots(d: Disk, v: Volume, path: Path, recursive: bool)
    requires ReadsVolume(d, v) && Plain(path) && path != [] && Lookup(v.root, path).Some?
    ensures var a := Lookup(v.root, path).value;
            OptionFits(v, a, recursive) <==> recursive || !IsDirectory(At(v.root, a).rec) || |At(v.root, a).kids| <= 2
  {
    if IsDirectory(At(v.root, Lookup(v.root, path).value).rec) {
      OptionNeeded(d, v, path);
    }
  }

  // ----- f12_del -----

  /** The entry is gone: its path leads where it leads without it, and every other path leads to what it led to. */
  ghost predicate Gone(d: Disk, v: Volume, path: Path, after: Disk, w: Volume)
    requires Sound(v.bpb) && Fits(Areas(v.bpb), d) && path != [] && Lookup(v.root, path).Some?
  {
    ReadsAs(after, v, w) && forall r :: Plain(r) ==> Leads(d, v, Remaining(v.root, path, r), after, w, r)
  }

  /** Paths that do not go through the entry lead to what they led to. */
  ghost predicate OthersStay(d: Disk, v: Volume, path: Path, after: Disk, w: Volume)
    requires Sound(v.bpb) && Fits(Areas(v.bpb), d)
  {
    ReadsAs(after, v, w) && forall r :: Plain(r) && !(path <= r) ==> Leads(d, v, Lookup(v.root, r), after, w, r)
  }

  ghost predicate IsGone(d: Disk, v: Volume, path: Path, after: Disk)
    requires Sound(v.bpb) && Fits(Areas(v.bpb), d) && path != [] && Lookup(v.root, path).Some?
  {
    exists w :: Gone(d, v, path, after, w)
  }

  ghost predicate OthersRemain(d: Disk, v: Volume, path: Path, after: Disk)
    requires Sound(v.bpb) && Fits(Areas(v.bpb), d)
  {
    exists w :: OthersStay(d, v, path, after, w)
  }

  ghost predicate AreZero(d: Disk, cs: set<int>, size: nat) {
    forall c :: c in cs && 2 <= c < |d.clusters| + 2 ==> d.clusters[c - 2] == Zeros(size)
  }

  /**
   A deletion asks for an entry at the path and for the option where it is needed. A soft one changes nothing and
   fails for a directory with more than two entries. A hard one is done for every file, and for every directory with
   two dot entries in each directory below; then the entry is gone and its clusters are zero.
   */
  ghost predicate DeletePromise(d: Disk, v: Volume, path: Path, recursive: bool, soft: bool, done: bool, after: Disk)
    requires VolumeSound(v) && Fits(Areas(v.bpb), d)
  {
    if path == [] || Lookup(v.root, path).None? || !OptionFits(v, Lookup(v.root, path).value, recursive)
    then !done && after == d
    else
      var u := At(v.root, Lookup(v.root, path).value);
      if soft then after == d && (done <==> !IsDirectory(u.rec) || CountUsed(u.kids) <= 2)
      else
        && (!IsDirectory(u.rec) || TwoDots(u) ==> done)
        && (done <==> Deletable(u))
        && (done ==> IsGone(d, v, path, after))
        && (done && TwoDots(u) ==> AreZero(after, TreeClusters(v.fat, u), ClusterSize(v.bpb)))
        && (!done ==> OthersRemain(d, v, path, after))
  }

  /** Erasing some clusters of a subtree does not change what a file elsewhere dumps. */
  lemma DumpBeside(d: Disk, v: Volume, a: Address, cs: set<int>, b: Address)
    requires VolumeSound(v) && Fits(Areas(v.bpb), d) && Valid(v.root, a) && a != [] && Valid(v.root, b) && !(a <= b)
    requires Dumpable(Areas(v.bpb), v.fat, At(v.root, b).rec) && cs <= TreeClusters(v.fat, At(v.root, a))
    ensures var after := EraseSet(d, cs, ClusterSize(v.bpb));
            Fits(Areas(v.bpb), after) &&
            Dump(Areas(v.bpb), after, v.fat, At(v.root, b).rec) == Dump(Areas(v.bpb), d, v.fat, At(v.root, b).rec)
  {
    var g := Areas(v.bpb);
    RootIsNoFile();
    FileElsewhere(g, v.fat, v.root, a, b);
    EraseSetFits(g, d, cs);
    DumpFrame(g, d, EraseSet(d, cs, g.clusterSize), v.fat, At(v.root, b).rec);
  }

  /** An entry beside a changed subtree, of which some clusters were erased. */
  lemma BesideLeads(d: Disk, v: Volume, a: Address, left: Tree, cs: set<int>, b: Address, r: Path)
    requires VolumeSound(v) && Fits(Areas(v.bpb), d) && Valid(v.root, a) && a != [] && Valid(v.root, b) && !(a <= b)
    requires cs <= TreeClusters(v.fat, At(v.root, a)) && Lookup(Put(v.root, a, left), r) == Some(b)
    ensures Fits(Areas(v.bpb), EraseSet(d, cs, ClusterSize(v.bpb)))
    ensures Leads(d, v, Some(b), EraseSet(d, cs, ClusterSize(v.bpb)), WithLeft(v, a, left), r)
  {
    EraseSetFits(Areas(v.bpb), d, cs);
    RecordKept(v.root, a, left, b);
    if Dumpable(Areas(v.bpb), v.fat, At(v.root, b).rec) {
      DumpBeside(d, v, a, cs, b);
    }
  }

  /** A path after the entry was removed. */
  lemma RemovedLeads(d: Disk, v: Volume, path: Path, cs: set<int>, r: Path)
    requires VolumeSound(v) && Fits(Areas(v.bpb), d) && Plain(path) && path != [] && Lookup(v.root, path).Some? && Plain(r)
    requires cs <= TreeClusters(v.fat, At(v.root, Lookup(v.root, path).value))
    ensures var a := Lookup(v.root, path).value; var d' := EraseSet(d, cs, ClusterSize(v.bpb));
            && Fits(Areas(v.bpb), d')
            && Leads(d, v, Remaining(v.root, path, r), d', WithLeft(v, a, FREE), r)
  {
    var a := Lookup(v.root, path).value;
    EraseSetFits(Areas(v.bpb), d, cs);
    Remove(v.root, path, r);
    if Remaining(v.root, path, r).Some? {
      RemainingApart(v.root, path, r);
      BesideLeads(d, v, a, FREE, cs, Remaining(v.root, path, r).value, r);
    }
  }

  /** A changed subtree of the same name is not seen from other paths. */
  lemma {:induction false} PutLookup(t: Tree, path: Path, u: Tree, r: Path)
    requires path != [] && Lookup(t, path).Some? && !(path <= r)
    requires u.rec.name == At(t, Lookup(t, path).value).rec.name
    ensures Lookup(Put(t, Lookup(t, path).value, u), r) == Lookup(t, r)
    decreases |path|
  {
    var a, k := Lookup(t, path).value, FindFrom(t.kids, path[0], 0);
    assert a == [k] + a[1..] && path == [path[0]] + path[1..];
    PutBelow(t, k, a[1..], u);
    var kid := Put(t.kids[k], a[1..], u);
    if |path| == 1 {
      assert a[1..] == [] && path[1..] == [];
    }
    LookupWithKid(t, k, kid, r);
    if r != [] {
      PrefixStep(path, r);
      if r[0] == path[0] && |path| > 1 {
        PutLookup(t.kids[k], path[1..], u, r[1..]);
      }
    }
  }

  /** What an interrupted deletion leaves has the record of the directory. */
  lemma LeftRecord(fat: Fat.Table, u: Tree)
    requires RemoveTree(fat, false, u).error != Success
    ensures RemoveTree(fat, false, u).left.rec == u.rec
  {
  }

  /** Other paths after an interrupted deletion. */
  lemma InterruptedLeads(d: Disk, v: Volume, path: Path, left: Tree, cs: set<int>, r: Path)
    requires VolumeSound(v) && Fits(Areas(v.bpb), d) && path != [] && Lookup(v.root, path).Some? && !(path <= r)
    requires var u := At(v.root, Lookup(v.root, path).value); left.rec == u.rec && cs <= TreeClusters(v.fat, u)
    ensures var a := Lookup(v.root, path).value; var d' := EraseSet(d, cs, ClusterSize(v.bpb));
            && Fits(Areas(v.bpb), d') && Leads(d, v, Lookup(v.root, r), d', WithLeft(v, a, left), r)
  {
    EraseSetFits(Areas(v.bpb), d, cs);
    PutLookup(v.root, path, left, r);
    if Lookup(v.root, r).Some? {
      PrefixesAgree(v.root, path, r);
      BesideLeads(d, v, Lookup(v.root, path).value, left, cs, Lookup(v.root, r).value, r);
    }
  }

  /** A soft deletion of a directory with more than two entries ends with an error. */
  lemma SoftOutcome(fat: Fat.Table, u: Tree)
    ensures RemoveTree(fat, true, u).removed == 0
    ensures RemoveTree(fat, true, u).error == Success <==> !IsDirectory(u.rec) || CountUsed(u.kids) <= 2
  {
    SoftRemovesNothing(fat, u);
    if IsDirectory(u.rec) && CountUsed(u.kids) > 2 {
      SoftRemovesNoKids(fat, u.kids, |u.kids|);
      NoKidsRemoved(fat, true, u.kids, |u.kids|);
    }
  }

  /** A removal that succeeded removed something. */
  lemma RemovedSome(fat: Fat.Table, u: Tree)
    requires RemoveTree(fat, false, u).error == Success
    ensures RemoveTree(fat, false, u).removed > 0
  {
  }

  lemma DeletedIsGone(d: Disk, v: Volume, path: Path, cs: set<int>)
    requires VolumeSound(v) && Fits(Areas(v.bpb), d) && Plain(path) && path != [] && Lookup(v.root, path).Some?
    requires cs <= TreeClusters(v.fat, At(v.root, Lookup(v.root, path).value))
    ensures var w := WithLeft(v, Lookup(v.root, path).value, FREE);
            VolumeSound(w) && w.bpb == v.bpb && Gone(d, v, path, Erased(d, w, cs), FilledVolume(w))
  {
    var a := Lookup(v.root, path).value;
    var w := WithLeft(v, a, FREE);
    PlainIsTarget(v, path);
    FreeLeftSound(v, a);
    EraseSetFits(Areas(v.bpb), d, cs);
    var blank := EraseSet(d, cs, ClusterSize(v.bpb));
    WrittenReads(blank, v, w);
    forall r | Plain(r) ensures Leads(d, v, Remaining(v.root, path, r), Erased(d, w, cs), FilledVolume(w), r) {
      RemovedLeads(d, v, path, cs, r);
      WrittenLeads(d, v, Remaining(v.root, path, r), blank, w, r);
    }
  }

  lemma InterruptedStays(d: Disk, v: Volume, path: Path, left: Tree, cs: set<int>)
    requires VolumeSound(v) && Fits(Areas(v.bpb), d) && Plain(path) && path != [] && Lookup(v.root, path).Some?
    requires var a := Lookup(v.root, path).value; var u := At(v.root, a);
             left.rec == u.rec && cs <= TreeClusters(v.fat, u) && VolumeSound(WithLeft(v, a, left))
    ensures var w := WithLeft(v, Lookup(v.root, path).value, left);
            w.bpb == v.bpb && OthersStay(d, v, path, Erased(d, w, cs), FilledVolume(w))
  {
    var w := WithLeft(v, Lookup(v.root, path).value, left);
    EraseSetFits(Areas(v.bpb), d, cs);
    var blank := EraseSet(d, cs, ClusterSize(v.bpb));
    WrittenReads(blank, v, w);
    forall r | Plain(r) && !(path <= r) ensures Leads(d, v, Lookup(v.root, r), Erased(d, w, cs), FilledVolume(w), r) {
      InterruptedLeads(d, v, path, left, cs, r);
      WrittenLeads(d, v, Lookup(v.root, r), blank, w, r);
    }
  }

  lemma DeleteOutcome(d: Disk, v: Volume, path: Path, recursive: bool, soft: bool)
    requires VolumeSound(v) && Fits(Areas(v.bpb), d) && Plain(path)
    ensures WillDelete(v.root, path, recursive) ==> Target(v, Lookup(v.root, path).value)
    ensures Outcome(d, v, DeleteAll(path, recursive, soft)).0 ==
            if WillDelete(v.root, path, recursive) then
              AfterRemoval(d, DeletedFrom(v, Lookup(v.root, path).value, soft), RemovalAt(v, path, soft))
            else d
  {
    if WillDelete(v.root, path, recursive) {
      PlainIsTarget(v, path);
    }
  }

  /** The disk after a hard deletion that removed something. */
  lemma AfterHard(d: Disk, v: Volume, a: Address)
    requires VolumeSound(v) && Fits(Areas(v.bpb), d) && Target(v, a)
    requires RemoveTree(v.fat, false, At(v.root, a)).removed > 0
    ensures var r := RemoveTree(v.fat, false, At(v.root, a)); var w := WithLeft(v, a, r.left);
            && VolumeSound(w) && w.bpb == v.bpb && r.erased <= TreeClusters(v.fat, At(v.root, a))
            && AfterRemoval(d, DeletedFrom(v, a, false), r) == Erased(d, w, r.erased)
  {
    hide RemoveTree, TreeClusters, Erased;
    assert DeletedFrom(v, a, false) == WithLeft(v, a, RemoveTree(v.fat, false, At(v.root, a)).left);
    ErasedInTree(v.fat, false, At(v.root, a));
  }

  lemma ErasedAreZero(d: Disk, v: Volume, a: Address)
    requires VolumeSound(v) && Fits(Areas(v.bpb), d) && Target(v, a) && VolumeSound(WithLeft(v, a, FREE))
    ensures AreZero(Erased(d, WithLeft(v, a, FREE), TreeClusters(v.fat, At(v.root, a))), TreeClusters(v.fat, At(v.root, a)),
                    ClusterSize(v.bpb))
  {
    hide Erased, TreeClusters, VolumeSound;
    var w, cs := WithLeft(v, a, FREE), TreeClusters(v.fat, At(v.root, a));
    var after := Erased(d, w, cs);
    forall c | c in cs && 2 <= c < |after.clusters| + 2 ensures after.clusters[c - 2] == Zeros(ClusterSize(v.bpb)) {
      DeleteZeroes(d, v, a, c);
    }
  }

  /** A hard deletion that is done. */
  lemma HardDeletion(d: Disk, v: Volume, path: Path)
    requires VolumeSound(v) && Fits(Areas(v.bpb), d) && Plain(path) && path != [] && Lookup(v.root, path).Some?
    requires Target(v, Lookup(v.root, path).value) && Deletable(At(v.root, Lookup(v.root, path).value))
    ensures var a := Lookup(v.root, path).value; var u := At(v.root, a);
            var after := AfterRemoval(d, DeletedFrom(v, a, false), RemoveTree(v.fat, false, u));
            && RemoveTree(v.fat, false, u).error == Success && IsGone(d, v, path, after)
            && (TwoDots(u) ==> AreZero(after, TreeClusters(v.fat, u), ClusterSize(v.bpb)))
  {
    hide Gone, Erased, AreZero, DeletedFrom, AfterRemoval, TwoDots, Deletable, TreeClusters, RemoveTree, VolumeSound;
    var a := Lookup(v.root, path).value;
    var u := At(v.root, a);
    var r, w := RemoveTree(v.fat, false, u), WithLeft(v, a, FREE);
    TargetIsLive(v, a);
    RemoveTreeSucceeds(v.fat, u);
    RemovedSome(v.fat, u);
    AfterHard(d, v, a);
    DeletedIsGone(d, v, path, r.erased);
    assert Gone(d, v, path, Erased(d, w, r.erased), FilledVolume(w));
    if TwoDots(u) {
      DeleteSucceeds(v, a);
      ErasedAreZero(d, v, a);
    }
  }

  lemma TargetIsLive(v: Volume, a: Address)
    requires Target(v, a)
    ensures Live(At(v.root, a).rec)
  {
  }

  /** A hard deletion that ends with an error. */
  lemma HardFailure(d: Disk, v: Volume, path: Path)
    requires VolumeSound(v) && ReadsVolume(d, v) && Plain(path) && path != [] && Lookup(v.root, path).Some?
    requires Target(v, Lookup(v.root, path).value) && !Deletable(At(v.root, Lookup(v.root, path).value))
    ensures var a := Lookup(v.root, path).value; var u := At(v.root, a);
            var after := AfterRemoval(d, DeletedFrom(v, a, false), RemoveTree(v.fat, false, u));
            RemoveTree(v.fat, false, u).error != Success && OthersRemain(d, v, path, after)
  {
    hide OthersRemain, Erased, DeletedFrom, TreeClusters, RemoveTree, Deletable;
    var a := Lookup(v.root, path).value;
    TargetIsLive(v, a);
    NotDeleted(v.fat, At(v.root, a));
    if RemoveTree(v.fat, false, At(v.root, a)).removed == 0 {
      NothingGone(d, v, path);
    } else {
      SomeGone(d, v, path, RemoveTree(v.fat, false, At(v.root, a)));
    }
  }

  lemma NotDeleted(fat: Fat.Table, u: Tree)
    requires Live(u.rec) && !Deletable(u)
    ensures RemoveTree(fat, false, u).error != Success && RemoveTree(fat, false, u).left.rec == u.rec
  {
    RemoveTreeSucceeds(fat, u);
    LeftRecord(fat, u);
  }

  lemma NothingGone(d: Disk, v: Volume, path: Path)
    requires VolumeSound(v) && ReadsVolume(d, v)
    ensures OthersRemain(d, v, path, d)
  {
    assert OthersStay(d, v, path, d, v);
  }

  lemma SomeGone(d: Disk, v: Volume, path: Path, r: Removal<Tree>)
    requires VolumeSound(v) && Fits(Areas(v.bpb), d) && Plain(path) && path != [] && Lookup(v.root, path).Some?
    requires Target(v, Lookup(v.root, path).value) && r == RemoveTree(v.fat, false, At(v.root, Lookup(v.root, path).value))
    requires r.removed > 0 && r.left.rec == At(v.root, Lookup(v.root, path).value).rec
    ensures var a := Lookup(v.root, path).value;
            OthersRemain(d, v, path, AfterRemoval(d, DeletedFrom(v, a, false), r))
  {
    hide OthersStay, Erased, DeletedFrom, AfterRemoval, TreeClusters, RemoveTree;
    var a := Lookup(v.root, path).value;
    AfterHard(d, v, a);
    InterruptedStays(d, v, path, r.left, r.erased);
    assert OthersStay(d, v, path, Erased(d, WithLeft(v, a, r.left), r.erased), FilledVolume(WithLeft(v, a, r.left)));
  }

  /** The command of a run keeps the promise. */
  lemma DeleteKeepsPromise(d: Disk, v: Volume, path: Path, recursive: bool, soft: bool)
    requires VolumeSound(v) && ReadsVolume(d, v) && Plain(path)
    ensures var done := WillDelete(v.root, path, recursive) && RemovalAt(v, path, soft).error == Success;
            DeletePromise(d, v, path, recursive, soft, done, Outcome(d, v, DeleteAll(path, recursive, soft)).0)
  {
    DeleteOutcome(d, v, path, recursive, soft);
    if path != [] && Lookup(v.root, path).Some? {
      var u := At(v.root, Lookup(v.root, path).value);
      OptionOfSlots(d, v, path, recursive);
      PlainIsTarget(v, path);
      if TwoDots(u) {
        TwoDotsAreNormal(u);
      }
      if WillDelete(v.root, path, recursive) {
        if soft {
          SoftOutcome(v.fat, u);
        } else if Deletable(u) {
          HardDeletion(d, v, path);
        } else {
          HardFailure(d, v, path);
        }
      }
    }
  }

  // ----- f12_move -----

  /** Both entries exist, the destination is a directory with a free slot and not below the source. */
  ghost predicate MoveFits(v: Volume, p: Path, q: Path, recursive: bool) {
    && Lookup(v.root, p).Some? && Lookup(v.root, q).Some? && !(p <= q)
    && OptionFits(v, Lookup(v.root, p).value, recursive)
    && var dest := At(v.root, Lookup(v.root, q).value);
       IsDirectory(dest.rec) && CountUsed(dest.kids) < |dest.kids|
  }

  /** Another entry of the destination has the name, in a slot before all free slots. */
  ghost predicate NameBefore(t: Tree, p: Path, q: Path)
    requires p != [] && Lookup(t, p).Some? && Lookup(t, q).Some?
  {
    var b := Lookup(t, q).value;
    var kids := At(t, b).kids;
    exists i :: 0 <= i < |kids| && kids[i].rec.name == p[|p| - 1] && b + [i] != Lookup(t, p).value &&
                forall j :: 0 <= j < i ==> Used(kids[j].rec)
  }

  /** The place before the move of what a path leads to afterwards. */
  ghost function Before(t: Tree, p: Path, q: Path, r: Path): (x: Option<Address>)
    requires p != [] && Lookup(t, p).Some? && Lookup(t, q).Some?
    ensures x.Some? ==> Valid(t, x.value)
  {
    if q + [p[|p| - 1]] <= r && !NameBefore(t, p, q) then Lookup(t, p + r[|q| + 1..]) else Remaining(t, p, r)
  }

  /**
   What was at and below `p` is at and below the name in `q`, unless another entry has the name; every other path leads
   where it leads without the entry.
   */
  ghost predicate MovedInto(d: Disk, v: Volume, p: Path, q: Path, after: Disk, w: Volume)
    requires Sound(v.bpb) && Fits(Areas(v.bpb), d) && p != [] && Lookup(v.root, p).Some? && Lookup(v.root, q).Some?
  {
    ReadsAs(after, v, w) && forall r :: Plain(r) ==> Leads(d, v, Before(v.root, p, q, r), after, w, r)
  }

  ghost predicate IsMoved(d: Disk, v: Volume, p: Path, q: Path, after: Disk)
    requires Sound(v.bpb) && Fits(Areas(v.bpb), d) && p != [] && Lookup(v.root, p).Some? && Lookup(v.root, q).Some?
  {
    exists w :: MovedInto(d, v, p, q, after, w)
  }

  /** A move is done exactly if its conditions hold, and changes nothing otherwise; onto itself it is done, and nothing. */
  ghost predicate MovePromise(d: Disk, v: Volume, p: Path, q: Path, recursive: bool, done: bool, after: Disk)
    requires VolumeSound(v) && Fits(Areas(v.bpb), d) && p != []
  {
    if p == q then done && after == d
    else if MoveFits(v, p, q, recursive) then done && IsMoved(d, v, p, q, after)
    else !done && after == d
  }

  lemma FitsIsWill(d: Disk, v: Volume, p: Path, q: Path, recursive: bool)
    requires VolumeSound(v) && ReadsVolume(d, v) && Plain(p) && p != [] && p != q
    ensures MoveFits(v, p, q, recursive) <==> WillMove(v.root, p, q, recursive)
  {
    if Lookup(v.root, p).Some? && Lookup(v.root, q).Some? {
      OptionOfSlots(d, v, p, recursive);
      FullIsNoneFree(At(v.root, Lookup(v.root, q).value).kids);
    }
  }

  /** A used slot before all free slots is before the first free slot. */
  lemma BeforeFree(kids: seq<Tree>, i: nat)
    requires i < |kids| && Used(kids[i].rec)
    ensures (forall j :: 0 <= j < i ==> Used(kids[j].rec)) <==> i < FindFree(kids, 0)
  {
    if FindFree(kids, 0) <= i {
      assert !Used(kids[FindFree(kids, 0)].rec);
    }
  }

  lemma NameBeforeCovers(t: Tree, p: Path, q: Path)
    requires p != [] && Plain(p) && Lookup(t, p).Some? && Lookup(t, q).Some?
    ensures NameBefore(t, p, q) <==> CoveredPath(t, p, q)
  {
    hide FindFree;
    var a, b := Lookup(t, p).value, Lookup(t, q).value;
    var kids, name := At(t, b).kids, p[|p| - 1];
    LookupLastName(t, p);
    assert PlainName(name);
    forall i | 0 <= i < |kids| && kids[i].rec.name == name
      ensures (forall j :: 0 <= j < i ==> Used(kids[j].rec)) <==> i < Slot(t, b)
    {
      BeforeFree(kids, i);
    }
  }

  lemma BeforeIsCameFrom(t: Tree, p: Path, q: Path, r: Path)
    requires p != [] && Plain(p) && Lookup(t, p).Some? && Lookup(t, q).Some?
    ensures Before(t, p, q, r) == CameFrom(t, p, q, r)
  {
    NameBeforeCovers(t, p, q);
  }

  /** A path in the moved metadata. */
  lemma MovedLeads(d: Disk, v: Volume, p: Path, q: Path, r: Path)
    requires VolumeSound(v) && Fits(Areas(v.bpb), d) && MoveReady(v.root, p, q) && Plain(r)
    ensures Leads(d, v, Before(v.root, p, q, r), d, MovedVolume(v, p, q), r)
  {
    BeforeIsCameFrom(v.root, p, q, r);
    MoveRecords(v.root, p, q, r);
    MoveContents(d, v, p, q, r);
  }

  lemma MoveIsSeen(d: Disk, v: Volume, p: Path, q: Path)
    requires VolumeSound(v) && Fits(Areas(v.bpb), d) && MoveReady(v.root, p, q)
    ensures var w := MovedVolume(v, p, q); VolumeSound(w) && w.bpb == v.bpb && IsMoved(d, v, p, q, WriteMetadata(d, w))
  {
    MovedVolumeSound(v, p, q);
    var w := MovedVolume(v, p, q);
    WrittenReads(d, v, w);
    forall r | Plain(r) ensures Leads(d, v, Before(v.root, p, q, r), WriteMetadata(d, w), FilledVolume(w), r) {
      MovedLeads(d, v, p, q, r);
      WrittenLeads(d, v, Before(v.root, p, q, r), d, w, r);
    }
    assert MovedInto(d, v, p, q, WriteMetadata(d, w), FilledVolume(w));
  }

  /** The disk after the command. */
  lemma MoveAfter(d: Disk, v: Volume, p: Path, q: Path, recursive: bool)
    requires VolumeSound(v) && Fits(Areas(v.bpb), d) && Plain(p) && Plain(q)
    ensures Outcome(d, v, MoveTo(p, q, recursive)).0 ==
            if WillMove(v.root, p, q, recursive) then WriteMetadata(d, MovedTo(v, p, q, recursive)) else d
  {
  }

  /** The command of a run keeps the promise. */
  lemma MoveKeepsPromise(d: Disk, v: Volume, p: Path, q: Path, recursive: bool)
    requires VolumeSound(v) && ReadsVolume(d, v) && Plain(p) && Plain(q) && p != []
    ensures var done := Relation(p, q) == Equal || WillMove(v.root, p, q, recursive);
            MovePromise(d, v, p, q, recursive, done, Outcome(d, v, MoveTo(p, q, recursive)).0)
  {
    hide Outcome, IsMoved, MovedTo, MovedVolume, MoveReady;
    MoveAfter(d, v, p, q, recursive);
    if p != q {
      FitsIsWill(d, v, p, q, recursive);
      if WillMove(v.root, p, q, recursive) {
        ReadyIsMoved(v, p, q, recursive);
        MoveIsSeen(d, v, p, q);
      }
    }
  }
}
