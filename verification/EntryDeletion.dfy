/** Deleting entries on the image (src/del.c, lf12_del_entry in src/libfat12/io.c). */
module EntryDeletion {
  import opened Records
  import opened Errors
  import opened BiosParameterBlock
  import opened Fat
  import opened Disks
  import opened ChainIo
  import opened Trees
  import opened Volumes
  import opened Moves
  import opened Rewriting
  import opened Deletion
  import opened DirectoryEntries
  import opened MetadataIo
  import opened EntryCreation
  import opened EntryMoves

  /** Sound metadata and the image that they belong to. */
  ghost predicate Loaded(img: Image, meta: Metadata)
    reads img, meta, meta.fatEntries, Objects(meta.shape)
  {
    meta.Valid() && VolumeSound(meta.Volume()) && Mounted(meta.bpb, img.contents)
  }

  /** The entry at address `a` of loaded metadata. */
  ghost predicate Chosen(meta: Metadata, entry: DirectoryEntry, a: Address)
    reads meta
  {
    Valid(meta.tree, a) && a != [] && entry == SubShape(meta.shape, a).self && Live(At(meta.tree, a).rec)
  }

  /** The first part of lf12_del_entry: the check and the erased chain. */
  method EraseEntryChain(img: Image, meta: Metadata, entry: DirectoryEntry, ghost a: Address)
    requires Loaded(img, meta) && Chosen(meta, entry, a)
    modifies img
    ensures Loaded(img, meta)
    ensures img.Disk(Areas(meta.bpb)) == EraseSet(old(img.Disk(Areas(meta.bpb))),
              OwnClusters(meta.fatEntries[..], At(meta.tree, a).rec), ClusterSize(meta.bpb))
  {
    ghost var g, fat := Areas(meta.bpb), meta.fatEntries[..];
    ghost var d, r := img.Disk(g), At(meta.tree, a).rec;
    RepSplit(meta.shape, meta.tree, a);
    SoundAt(g, fat, meta.tree, a);
    assert allocated(Objects(meta.shape)) && forall o :: o in Objects(meta.shape) ==> o as object != img;
    assert meta.Valid();
    if entry.rec.firstCluster != 0 {
      ViewFits(g, img.contents);
      EraseChainIsSet(d, ChainOf(fat, r.firstCluster), ClusterSize(meta.bpb));
      EraseClusterChain(img, meta.bpb, meta.fatEntries, meta.endOfChainMarker, entry.rec.firstCluster);
      assert meta.Valid();
    } else {
      assert EraseSet(d, {}, ClusterSize(meta.bpb)).clusters == d.clusters;
    }
  }

  /** erase_entry */
  method ForgetEntry(img: Image, meta: Metadata, entry: DirectoryEntry, ghost a: Address)
    requires Loaded(img, meta) && Chosen(meta, entry, a)
    modifies meta`shape, meta`tree, entry
    ensures Loaded(img, meta)
    ensures meta.tree == Put(old(meta.tree), a, FREE) && meta.shape == PutShape(old(meta.shape), a, Shape(entry, []))
  {
    ghost var s, t := meta.shape, meta.tree;
    OpenUp(s, t, a);
    assert entry in Objects(SubShape(s, a));
    ClearSlot(entry, s, t, a);
    FreeSound(Areas(meta.bpb), meta.fatEntries[..]);
    WithLeftSound(Volumes.Volume(meta.bpb, meta.fatEntries[..], t), a, FREE);
    meta.shape, meta.tree := PutShape(s, a, Shape(entry, [])), Put(t, a, FREE);
  }

  /** The call of lf12_write_metadata. */
  method Save(img: Image, meta: Metadata) returns (err: Error)
    requires Loaded(img, meta)
    modifies img
    ensures err == Success && Loaded(img, meta)
    ensures img.Disk(Areas(meta.bpb)) == WriteMetadata(old(img.Disk(Areas(meta.bpb))), meta.Volume())
  {
    assert allocated(Objects(meta.shape)) && forall o :: o in Objects(meta.shape) ==> o as object != img;
    assert meta.Valid();
    err := SaveMetadata(img, meta);
    assert meta.Valid();
  }

  /** The part of lf12_del_entry that changes something. */
  method EraseEntry(img: Image, meta: Metadata, entry: DirectoryEntry, ghost a: Address) returns (err: Error)
    requires Loaded(img, meta) && Chosen(meta, entry, a)
    modifies img, meta`shape, meta`tree, entry
    ensures err == Success && Loaded(img, meta)
    ensures meta.tree == Put(old(meta.tree), a, FREE) && meta.shape == PutShape(old(meta.shape), a, Shape(entry, []))
    ensures img.Disk(Areas(meta.bpb)) == Erased(old(img.Disk(Areas(meta.bpb))), meta.Volume(),
              OwnClusters(meta.fatEntries[..], old(At(meta.tree, a).rec)))
  {
    EraseEntryChain(img, meta, entry, a);
    ForgetEntry(img, meta, entry, a);
    err := Save(img, meta);
  }

  /** What a removal at `a` makes of the slots and the tree; `k` are the objects that are left there. */
  ghost predicate Removed(s: Shape, t: Tree, a: Address, k: Shape, left: Tree, s': Shape, t': Tree) {
    && Valid(t, a) && t' == Put(t, a, left) && s' == PutShape(s, a, k)
    && k.self == SubShape(s, a).self && Objects(k) <= Objects(SubShape(s, a))
  }

  lemma NothingPut(s: Shape, t: Tree, a: Address)
    requires Rep(s, t) && Valid(t, a)
    ensures Removed(s, t, a, SubShape(s, a), At(t, a), s, t)
  {
    PutSame(t, a);
    PutSameShape(s, t, a);
  }

  /** The condition under which a directory counts as not empty. */
  method HasMoreThanDots(img: Image, meta: Metadata, entry: DirectoryEntry, ghost a: Address) returns (more: bool)
    requires Loaded(img, meta) && Chosen(meta, entry, a)
    ensures Loaded(img, meta)
    ensures more <==> IsDirectory(At(meta.tree, a).rec) && CountUsed(At(meta.tree, a).kids) > 2
  {
    RepSplit(meta.shape, meta.tree, a);
    assert allocated(Objects(meta.shape)) && Loaded(img, meta);
    var used := GetChildCount(entry, SubShape(meta.shape, a), At(meta.tree, a));
    assert Loaded(img, meta);
    more := used > 2;
  }

  lemma OneRemoved(fat: Fat.Table, u: Tree, d: Disk, w: Volumes.Volume)
    requires !(IsDirectory(u.rec) && CountUsed(u.kids) > 2) && VolumeSound(w) && Fits(Areas(w.bpb), d)
    ensures var r := RemoveOne(fat, false, Removal(Success, u, {}, 0));
            r.error == Success && r.left == FREE && AfterRemoval(d, w, r) == Erased(d, w, OwnClusters(fat, u.rec))
  {
    assert {} + OwnClusters(fat, u.rec) == OwnClusters(fat, u.rec);
  }

  /** The part of lf12_del_entry after its checks. */
  method DelNow(img: Image, meta: Metadata, entry: DirectoryEntry, ghost a: Address) returns (err: Error, ghost k: Shape)
    requires Loaded(img, meta) && Chosen(meta, entry, a)
    requires !(IsDirectory(At(meta.tree, a).rec) && CountUsed(At(meta.tree, a).kids) > 2)
    modifies img, meta`shape, meta`tree, entry
    ensures Loaded(img, meta)
    ensures var r := RemoveOne(meta.fatEntries[..], false, Removal(Success, old(At(meta.tree, a)), {}, 0));
            && err == r.error && Removed(old(meta.shape), old(meta.tree), a, k, r.left, meta.shape, meta.tree)
            && img.Disk(Areas(meta.bpb)) == AfterRemoval(old(img.Disk(Areas(meta.bpb))), meta.Volume(), r)
  {
    ghost var d, u := img.Disk(Areas(meta.bpb)), At(meta.tree, a);
    ViewFits(Areas(meta.bpb), img.contents);
    assert entry in Objects(SubShape(meta.shape, a));
    err := EraseEntry(img, meta, entry, a);
    k := Shape(entry, []);
    OneRemoved(meta.fatEntries[..], u, d, meta.Volume());
  }

  lemma NoneRemoved(fat: Fat.Table, soft: bool, u: Tree, d: Disk, w: Volumes.Volume)
    requires (IsDirectory(u.rec) && CountUsed(u.kids) > 2) || soft
    requires VolumeSound(w) && Fits(Areas(w.bpb), d)
    ensures var r := RemoveOne(fat, soft, Removal(Success, u, {}, 0));
            && r.error == (if IsDirectory(u.rec) && CountUsed(u.kids) > 2 then DirNotEmpty else Success)
            && r.left == u && AfterRemoval(d, w, r) == d
  {
  }

  /** lf12_del_entry */
  method DelEntry(img: Image, meta: Metadata, entry: DirectoryEntry, soft: bool, ghost a: Address)
    returns (err: Error, ghost k: Shape)
    requires Loaded(img, meta) && Chosen(meta, entry, a)
    modifies img, meta`shape, meta`tree, entry
    ensures Loaded(img, meta)
    ensures var r := RemoveOne(meta.fatEntries[..], soft, Removal(Success, old(At(meta.tree, a)), {}, 0));
            && err == r.error && Removed(old(meta.shape), old(meta.tree), a, k, r.left, meta.shape, meta.tree)
            && img.Disk(Areas(meta.bpb)) == AfterRemoval(old(img.Disk(Areas(meta.bpb))), meta.Volume(), r)
  {
    NothingPut(meta.shape, meta.tree, a);
    ViewFits(Areas(meta.bpb), img.contents);
    var more := HasMoreThanDots(img, meta, entry, a);
    if !more && !soft {
      err, k := DelNow(img, meta, entry, a);
    } else {
      k := SubShape(meta.shape, a);
      NoneRemoved(meta.fatEntries[..], soft, At(meta.tree, a), img.Disk(Areas(meta.bpb)), meta.Volume());
      err := if more then DirNotEmpty else Success;
    }
  }

  // ----- recursive_del_entry -----

  lemma {:induction false} PutShapeTwice(s: Shape, a: Address, k: Shape, x: Address, j: Shape)
    requires ValidShape(s, a) && ValidShape(k, x)
    ensures PutShape(PutShape(s, a, k), a + x, j) == PutShape(s, a, PutShape(k, x, j))
    ensures SubShape(PutShape(s, a, k), a + x) == SubShape(k, x)
  {
    if a == [] {
      assert a + x == x;
    } else {
      assert (a + x)[1..] == a[1..] + x;
      var kid := s.kids[a[0]];
      PutShapeTwice(kid, a[1..], k, x, j);
      assert s.kids[a[0] := PutShape(kid, a[1..], k)][a[0] := PutShape(PutShape(kid, a[1..], k), a[1..] + x, j)] ==
             s.kids[a[0] := PutShape(kid, a[1..], PutShape(k, x, j))];
    }
  }

  /** Slots, tree and disk. */
  datatype State = State(s: Shape, t: Tree, d: Disk)

  /** A recursive deletion: the entry's address and subtree, and the state in which it starts. */
  datatype Job = Job(soft: bool, a: Address, u: Tree, start: State)

  /** The same slots, with fewer objects below them. */
  ghost predicate SameSlots(k: Shape, now: Shape) {
    && now.self == k.self && |now.kids| == |k.kids|
    && forall j :: 0 <= j < |k.kids| ==> now.kids[j].self == k.kids[j].self && Objects(now.kids[j]) <= Objects(k.kids[j])
  }

  ghost predicate SoundState(p: Bpb, fat: Fat.Table, x: State) {
    VolumeSound(Volumes.Volume(p, fat, x.t)) && Fits(Areas(p), x.d)
  }

  ghost predicate Started(p: Bpb, fat: Fat.Table, job: Job) {
    && SoundState(p, fat, job.start) && Target(Volumes.Volume(p, fat, job.start.t), job.a)
    && job.u == At(job.start.t, job.a) && ValidShape(job.start.s, job.a)
    && |SubShape(job.start.s, job.a).kids| == |job.u.kids|
  }

  /** The state after `i` turns of the loop; `k` are the objects that are left of the subtree. */
  ghost predicate Progress(p: Bpb, fat: Fat.Table, job: Job, k: Shape, i: nat, now: State) {
    && Started(p, fat, job) && SoundState(p, fat, now) && i <= |job.u.kids|
    && Removed(job.start.s, job.start.t, job.a, k, LeftOf(fat, job.soft, job.u, i), now.s, now.t)
    && SameSlots(SubShape(job.start.s, job.a), k)
    && (Settled(Areas(p), fat, job.start.d, job.u) ==>
          now.d == AfterRemoval(job.start.d, Volumes.Volume(p, fat, now.t), RemoveKids(fat, job.soft, job.u.kids, i)))
  }

  /** The state after the whole deletion. */
  ghost predicate Finished(p: Bpb, fat: Fat.Table, job: Job, k: Shape, r: Removal<Tree>, now: State) {
    && Started(p, fat, job) && SoundState(p, fat, now)
    && Removed(job.start.s, job.start.t, job.a, k, r.left, now.s, now.t)
    && (Settled(Areas(p), fat, job.start.d, job.u) ==> now.d == AfterRemoval(job.start.d, Volumes.Volume(p, fat, now.t), r))
  }

  /** The objects at a slot of what is left. */
  lemma SlotOf(job: Job, k: Shape, left: Tree, now: State, i: nat, j: Shape)
    requires Removed(job.start.s, job.start.t, job.a, k, left, now.s, now.t) && ValidShape(job.start.s, job.a) && i < |k.kids|
    ensures SubShape(now.s, job.a + [i]) == k.kids[i]
    ensures PutShape(now.s, job.a + [i], j) == PutShape(job.start.s, job.a, WithKidShape(k, i, j))
  {
    PutShapeTwice(job.start.s, job.a, k, [i], j);
    assert [i][1..] == [] && SubShape(k, [i]) == k.kids[i];
  }

  lemma StillSameSlots(k0: Shape, k: Shape, i: nat, j: Shape)
    requires SameSlots(k0, k) && i < |k.kids| && j.self == k.kids[i].self && Objects(j) <= Objects(k.kids[i])
    requires Objects(k) <= Objects(k0)
    ensures SameSlots(k0, WithKidShape(k, i, j)) && Objects(WithKidShape(k, i, j)) <= Objects(k0)
  {
    ObjectsWithKid(k, i, j);
    assert Objects(k.kids[i]) <= Objects(k) && Others(k, i) <= Objects(k);
  }

  /** The job of one turn of the loop. */
  ghost function KidJob(job: Job, i: nat, now: State): Job
    requires i < |job.u.kids|
  {
    Job(job.soft, job.a + [i], job.u.kids[i], now)
  }

  /** After the metadata were written in the loop. */
  lemma SettledAgain(d: Disk, v: Volumes.Volume, a: Address, soft: bool, u: Tree, i: nat, w: Volumes.Volume)
    requires VolumeSound(v) && VolumeSound(w) && Fits(Areas(v.bpb), d) && Target(v, a) && u == At(v.root, a)
    requires i < |u.kids| && Live(u.kids[i].rec) && RemoveKids(v.fat, soft, u.kids, i).error == Success
    requires w == WithLeft(v, a, LeftOf(v.fat, soft, u, i)) && SlotSound(Areas(v.bpb), v.fat, u.kids[i])
    ensures Settled(Areas(v.bpb), v.fat, Erased(d, w, RemoveKids(v.fat, soft, u.kids, i).erased), u.kids[i])
  {
    var cs := RemoveKids(v.fat, soft, u.kids, i).erased;
    KidTurn(v, a, soft, u, i);
    EraseSetFits(Areas(v.bpb), d, cs);
    WrittenIsSettled(EraseSet(d, cs, ClusterSize(v.bpb)), w, a + [i], u.kids[i]);
  }

  /** In the middle of the loop, what is below the next slot is settled. */
  lemma SettledKid(p: Bpb, fat: Fat.Table, job: Job, i: nat, now: State)
    requires Started(p, fat, job) && SoundState(p, fat, now) && Settled(Areas(p), fat, job.start.d, job.u)
    requires i < |job.u.kids| && Live(job.u.kids[i].rec) && RemoveKids(fat, job.soft, job.u.kids, i).error == Success
    requires now.t == Put(job.start.t, job.a, LeftOf(fat, job.soft, job.u, i))
    requires now.d == AfterRemoval(job.start.d, Volumes.Volume(p, fat, now.t), RemoveKids(fat, job.soft, job.u.kids, i))
    ensures Settled(Areas(p), fat, job.start.d, job.u.kids[i]) && Settled(Areas(p), fat, now.d, job.u.kids[i])
  {
    SettledSlot(Areas(p), fat, job.start.d, job.u, i);
    SettledAgain(job.start.d, Volumes.Volume(p, fat, job.start.t), job.a, job.soft, job.u, i, Volumes.Volume(p, fat, now.t));
  }

  lemma KidProgressDisk(p: Bpb, fat: Fat.Table, job: Job, i: nat, now: State, next: State)
    requires Started(p, fat, job) && SoundState(p, fat, now) && SoundState(p, fat, next)
    requires Settled(Areas(p), fat, job.start.d, job.u)
    requires i < |job.u.kids| && Live(job.u.kids[i].rec) && RemoveKids(fat, job.soft, job.u.kids, i).error == Success
    requires now.t == Put(job.start.t, job.a, LeftOf(fat, job.soft, job.u, i))
    requires next.t == Put(job.start.t, job.a, LeftOf(fat, job.soft, job.u, i + 1))
    requires now.d == AfterRemoval(job.start.d, Volumes.Volume(p, fat, now.t), RemoveKids(fat, job.soft, job.u.kids, i))
    requires Settled(Areas(p), fat, now.d, job.u.kids[i]) ==>
               next.d == AfterRemoval(now.d, Volumes.Volume(p, fat, next.t), RemoveTree(fat, job.soft, job.u.kids[i]))
    ensures next.d == AfterRemoval(job.start.d, Volumes.Volume(p, fat, next.t), RemoveKids(fat, job.soft, job.u.kids, i + 1))
  {
    var v := Volumes.Volume(p, fat, job.start.t);
    SettledKid(p, fat, job, i, now);
    KidTurnDisk(job.start.d, v, job.a, job.soft, job.u, i, Volumes.Volume(p, fat, now.t), Volumes.Volume(p, fat, next.t));
  }

  lemma KidProgressTree(p: Bpb, fat: Fat.Table, job: Job, k: Shape, i: nat, now: State, j: Shape, next: State)
    requires Progress(p, fat, job, k, i, now) && i < |job.u.kids| && Live(job.u.kids[i].rec)
    requires RemoveKids(fat, job.soft, job.u.kids, i).error == Success
    requires Removed(now.s, now.t, job.a + [i], j, RemoveTree(fat, job.soft, job.u.kids[i]).left, next.s, next.t)
    ensures SameSlots(SubShape(job.start.s, job.a), WithKidShape(k, i, j))
    ensures Removed(job.start.s, job.start.t, job.a, WithKidShape(k, i, j), LeftOf(fat, job.soft, job.u, i + 1), next.s, next.t)
  {
    var v := Volumes.Volume(p, fat, job.start.t);
    SlotOf(job, k, LeftOf(fat, job.soft, job.u, i), now, i, j);
    StillSameSlots(SubShape(job.start.s, job.a), k, i, j);
    KidTurn(v, job.a, job.soft, job.u, i);
  }

  /** The state after one more turn, for a live entry. */
  lemma KidProgress(p: Bpb, fat: Fat.Table, job: Job, k: Shape, i: nat, now: State, j: Shape, next: State)
    requires Progress(p, fat, job, k, i, now) && i < |job.u.kids| && Live(job.u.kids[i].rec)
    requires RemoveKids(fat, job.soft, job.u.kids, i).error == Success
    requires Finished(p, fat, KidJob(job, i, now), j, RemoveTree(fat, job.soft, job.u.kids[i]), next)
    ensures Progress(p, fat, job, WithKidShape(k, i, j), i + 1, next)
  {
    KidProgressTree(p, fat, job, k, i, now, j, next);
    if Settled(Areas(p), fat, job.start.d, job.u) {
      KidProgressDisk(p, fat, job, i, now, next);
    }
  }

  /** One more turn for a slot that is free or a dot entry. */
  lemma SkipProgress(p: Bpb, fat: Fat.Table, job: Job, k: Shape, i: nat, now: State)
    requires Progress(p, fat, job, k, i, now) && i < |job.u.kids| && !Live(job.u.kids[i].rec)
    ensures Progress(p, fat, job, k, i + 1, now)
    ensures RemoveKids(fat, job.soft, job.u.kids, i + 1) == RemoveKids(fat, job.soft, job.u.kids, i)
  {
  }

  /** After an error the loop does nothing more. */
  lemma {:induction false} StopsAtError(fat: Fat.Table, soft: bool, kids: seq<Tree>, i: nat, n: nat)
    requires i <= n <= |kids| && RemoveKids(fat, soft, kids, i).error != Success
    ensures RemoveKids(fat, soft, kids, n) == RemoveKids(fat, soft, kids, i)
    decreases n
  {
    if i < n {
      StopsAtError(fat, soft, kids, i, n - 1);
    }
  }

  lemma AllTurnsFailed(p: Bpb, fat: Fat.Table, job: Job, k: Shape, i: nat, now: State)
    requires Progress(p, fat, job, k, i, now) && RemoveKids(fat, job.soft, job.u.kids, i).error != Success
    requires Descends(job.u.rec) && CountUsed(job.u.kids) > 2
    ensures Finished(p, fat, job, k, RemoveTree(fat, job.soft, job.u), now)
    ensures RemoveTree(fat, job.soft, job.u).error == RemoveKids(fat, job.soft, job.u.kids, i).error
  {
    StopsAtError(fat, job.soft, job.u.kids, i, |job.u.kids|);
    TreeTurns(fat, job.soft, job.u);
  }

  /** The last turn: lf12_del_entry for the directory itself. */
  lemma AllTurnsDone(p: Bpb, fat: Fat.Table, job: Job, k: Shape, now: State, j: Shape, next: State)
    requires Progress(p, fat, job, k, |job.u.kids|, now) && SoundState(p, fat, next)
    requires RemoveKids(fat, job.soft, job.u.kids, |job.u.kids|).error == Success
    requires Descends(job.u.rec) && CountUsed(job.u.kids) > 2
    requires var last := LastTurn(fat, job.soft, job.u);
             && Removed(now.s, now.t, job.a, j, last.left, next.s, next.t)
             && next.d == AfterRemoval(now.d, Volumes.Volume(p, fat, next.t), last)
    ensures Finished(p, fat, job, j, RemoveTree(fat, job.soft, job.u), next)
    ensures RemoveTree(fat, job.soft, job.u).error == LastTurn(fat, job.soft, job.u).error
  {
    var v := Volumes.Volume(p, fat, job.start.t);
    TreeTurns(fat, job.soft, job.u);
    PutAgain(job.start.s, job.start.t, job.a, k, LeftOf(fat, job.soft, job.u, |job.u.kids|), j,
             LastTurn(fat, job.soft, job.u).left);
    if Settled(Areas(p), fat, job.start.d, job.u) {
      LastTurnDisk(job.start.d, v, job.a, job.soft, job.u, Volumes.Volume(p, fat, now.t), Volumes.Volume(p, fat, next.t));
    }
  }

  lemma PutAgain(s: Shape, t: Tree, a: Address, k: Shape, left: Tree, j: Shape, u: Tree)
    requires ValidShape(s, a) && Valid(t, a)
    ensures PutShape(PutShape(s, a, k), a, j) == PutShape(s, a, j)
    ensures Valid(Put(t, a, left), a) && Put(Put(t, a, left), a, u) == Put(t, a, u)
    ensures SubShape(PutShape(s, a, k), a) == k
  {
    assert a + [] == a && PutShape(k, [], j) == j;
    PutShapeTwice(s, a, k, [], j);
    AtPut(t, a, left);
    PutTwice(t, a, left, [], u);
  }

  // ----- the methods -----

  ghost function StateOf(img: Image, meta: Metadata): State
    requires Mounted(meta.bpb, img.contents)
    reads img, meta
  {
    State(meta.shape, meta.tree, img.Disk(Areas(meta.bpb)))
  }

  /** Loaded metadata after `i` turns of the loop. */
  ghost predicate Turned(img: Image, meta: Metadata, job: Job, k: Shape, i: nat)
    reads img, meta, meta.fatEntries, Objects(meta.shape)
  {
    Loaded(img, meta) && Progress(meta.bpb, meta.fatEntries[..], job, k, i, StateOf(img, meta))
  }

  /** Loaded metadata after the whole deletion. */
  ghost predicate Done(img: Image, meta: Metadata, job: Job, k: Shape, err: Error)
    reads img, meta, meta.fatEntries, Objects(meta.shape)
  {
    var r := RemoveTree(meta.fatEntries[..], job.soft, job.u);
    Loaded(img, meta) && err == r.error && Finished(meta.bpb, meta.fatEntries[..], job, k, r, StateOf(img, meta))
  }

  /** One turn of the loop, for a live entry. */
  method DelKid(img: Image, meta: Metadata, child: DirectoryEntry, soft: bool, ghost job: Job, ghost k: Shape, ghost i: nat)
    returns (err: Error, ghost left: Shape)
    requires Turned(img, meta, job, k, i) && i < |job.u.kids| && Live(job.u.kids[i].rec) && job.soft == soft
    requires RemoveKids(meta.fatEntries[..], soft, job.u.kids, i).error == Success && child == k.kids[i].self
    modifies img, meta`shape, meta`tree, Objects(k.kids[i])
    ensures Turned(img, meta, job, left, i + 1)
    ensures err == RemoveKids(meta.fatEntries[..], soft, job.u.kids, i + 1).error
    decreases job.u, 0
  {
    ghost var now, fat := StateOf(img, meta), meta.fatEntries[..];
    KidPlace(meta.bpb, fat, job, k, i, now);
    ghost var j;
    err, j := DelTree(img, meta, child, soft, job.a + [i], job.u.kids[i]);
    KidProgress(meta.bpb, fat, job, k, i, now, j, StateOf(img, meta));
    left := WithKidShape(k, i, j);
  }

  /** Where the slot of a turn is. */
  lemma KidPlace(p: Bpb, fat: Fat.Table, job: Job, k: Shape, i: nat, now: State)
    requires Progress(p, fat, job, k, i, now) && i < |job.u.kids| && Live(job.u.kids[i].rec)
    requires RemoveKids(fat, job.soft, job.u.kids, i).error == Success
    ensures Valid(now.t, job.a + [i]) && At(now.t, job.a + [i]) == job.u.kids[i]
    ensures SubShape(now.s, job.a + [i]) == k.kids[i]
  {
    KidTurn(Volumes.Volume(p, fat, job.start.t), job.a, job.soft, job.u, i);
    SlotOf(job, k, LeftOf(fat, job.soft, job.u, i), now, i, k.kids[i]);
  }

  /** The entry's slots after some turns. */
  lemma SlotsLeft(img: Image, meta: Metadata, job: Job, k: Shape, i: nat)
    requires Turned(img, meta, job, k, i)
    ensures Rep(k, LeftOf(meta.fatEntries[..], job.soft, job.u, i)) && |k.self.children| == |job.u.kids|
    ensures forall j :: 0 <= j < |job.u.kids| ==> k.self.children[j] == k.kids[j].self
    ensures i < |job.u.kids| ==> k.kids[i].self.rec == job.u.kids[i].rec
    ensures Objects(k) <= Objects(SubShape(job.start.s, job.a)) && k.self == SubShape(job.start.s, job.a).self
  {
    var fat := meta.fatEntries[..];
    var left := LeftOf(fat, job.soft, job.u, i);
    PutAgain(job.start.s, job.start.t, job.a, k, left, k, left);
    AtPut(job.start.t, job.a, left);
    RepSplit(meta.shape, meta.tree, job.a);
    if i < |job.u.kids| {
      RemoveKidsRest(fat, job.soft, job.u.kids, i, i);
    }
  }

  /** One turn of the loop of recursive_del_entry. */
  method DelSlot(img: Image, meta: Metadata, entry: DirectoryEntry, soft: bool, i: nat, ghost job: Job, ghost k: Shape)
    returns (err: Error, ghost left: Shape)
    requires Turned(img, meta, job, k, i) && i < |job.u.kids| && job.soft == soft && entry == k.self
    requires RemoveKids(meta.fatEntries[..], soft, job.u.kids, i).error == Success
    modifies img, meta`shape, meta`tree, Objects(k)
    ensures Turned(img, meta, job, left, i + 1)
    ensures err == RemoveKids(meta.fatEntries[..], soft, job.u.kids, i + 1).error
    decreases job.u, 1
  {
    SlotsLeft(img, meta, job, k, i);
    var child := entry.children[i];
    if !Used(child.rec) || IsDotDir(child.rec) {
      SkipProgress(meta.bpb, meta.fatEntries[..], job, k, i, StateOf(img, meta));
      return Success, k;
    }
    assert Objects(k.kids[i]) <= Objects(k);
    err, left := DelKid(img, meta, child, soft, job, k, i);
  }

  lemma NoTurnYet(fat: Fat.Table, soft: bool, kids: seq<Tree>)
    ensures RemoveKids(fat, soft, kids, 0).error == Success
  {
  }

  /** The loop of recursive_del_entry; `i` is the number of turns until the end or an error. */
  method DelKids(img: Image, meta: Metadata, entry: DirectoryEntry, soft: bool, ghost job: Job)
    returns (err: Error, ghost k: Shape, ghost i: nat)
    requires Turned(img, meta, job, SubShape(job.start.s, job.a), 0) && job.soft == soft
    requires entry == SubShape(job.start.s, job.a).self
    modifies img, meta`shape, meta`tree, Objects(SubShape(job.start.s, job.a))
    ensures Turned(img, meta, job, k, i) && err == RemoveKids(meta.fatEntries[..], soft, job.u.kids, i).error
    ensures err == Success ==> i == |job.u.kids|
    decreases job.u, 2
  {
    hide Turned, RemoveKids, Loaded, Progress, Rep, LeftOf, SubShape, Objects, StateOf, Descends, Separate;
    err, k, i := Success, SubShape(job.start.s, job.a), 0;
    NoTurnYet(meta.fatEntries[..], soft, job.u.kids);
    SlotsLeft(img, meta, job, k, i);
    for n := 0 to |entry.children|
      invariant Turned(img, meta, job, k, n) && err == Success && i == n
      invariant RemoveKids(meta.fatEntries[..], soft, job.u.kids, n).error == Success
      invariant k.self == entry && Objects(k) <= Objects(SubShape(job.start.s, job.a))
    {
      err, k := DelSlot(img, meta, entry, soft, n, job, k);
      i := n + 1;
      SlotsLeft(img, meta, job, k, i);
      if err != Success {
        return;
      }
    }
  }

  /** recursive_del_entry */
  method DelTree(img: Image, meta: Metadata, entry: DirectoryEntry, soft: bool, ghost a: Address, ghost u: Tree)
    returns (err: Error, ghost k: Shape)
    requires Loaded(img, meta) && Chosen(meta, entry, a) && u == At(meta.tree, a)
    modifies img, meta`shape, meta`tree, Objects(SubShape(meta.shape, a))
    ensures Done(img, meta, Job(soft, a, u, old(StateOf(img, meta))), k, err)
    decreases u, 4
  {
    ghost var job := Job(soft, a, u, StateOf(img, meta));
    JobStarts(img, meta, job);
    var more := HasMoreThanDots(img, meta, entry, a);
    if more {
      err, k := DelFull(img, meta, entry, soft, job);
    } else {
      err, k := DelAlone(img, meta, entry, soft, job);
    }
  }

  /** A directory with more than two used slots. */
  method DelFull(img: Image, meta: Metadata, entry: DirectoryEntry, soft: bool, ghost job: Job)
    returns (err: Error, ghost k: Shape)
    requires Turned(img, meta, job, SubShape(job.start.s, job.a), 0) && job.soft == soft
    requires entry == SubShape(job.start.s, job.a).self && Descends(job.u.rec) && CountUsed(job.u.kids) > 2
    modifies img, meta`shape, meta`tree, Objects(SubShape(job.start.s, job.a))
    ensures Done(img, meta, job, k, err)
    decreases job.u, 3
  {
    ghost var i;
    err, k, i := DelKids(img, meta, entry, soft, job);
    if err != Success {
      AllTurnsFailed(meta.bpb, meta.fatEntries[..], job, k, i, StateOf(img, meta));
      return;
    }
    err, k := DelLast(img, meta, entry, soft, job, k);
  }

  /** A file, or a directory with at most two used slots. */
  method DelAlone(img: Image, meta: Metadata, entry: DirectoryEntry, soft: bool, ghost job: Job)
    returns (err: Error, ghost k: Shape)
    requires Loaded(img, meta) && Started(meta.bpb, meta.fatEntries[..], job) && job.start == StateOf(img, meta)
    requires job.soft == soft && entry == SubShape(job.start.s, job.a).self
    requires !(IsDirectory(job.u.rec) && CountUsed(job.u.kids) > 2)
    modifies img, meta`shape, meta`tree, entry
    ensures Done(img, meta, job, k, err)
  {
    err, k := DelEntry(img, meta, entry, soft, job.a);
  }

  lemma JobStarts(img: Image, meta: Metadata, job: Job)
    requires Loaded(img, meta) && Chosen(meta, SubShape(meta.shape, job.a).self, job.a)
    requires job.u == At(meta.tree, job.a) && job.start == StateOf(img, meta)
    ensures Turned(img, meta, job, SubShape(job.start.s, job.a), 0)
  {
    NothingPut(meta.shape, meta.tree, job.a);
    ViewFits(Areas(meta.bpb), img.contents);
    RepSplit(meta.shape, meta.tree, job.a);
    ValidInShape(meta.shape, meta.tree, job.a);
  }

  /** What is at the address after the loop. */
  lemma LastPlace(p: Bpb, fat: Fat.Table, job: Job, k: Shape, now: State)
    requires Progress(p, fat, job, k, |job.u.kids|, now)
    ensures Valid(now.t, job.a) && At(now.t, job.a) == LeftOf(fat, job.soft, job.u, |job.u.kids|)
    ensures SubShape(now.s, job.a) == k && job.a != []
  {
    var before := LeftOf(fat, job.soft, job.u, |job.u.kids|);
    PutAgain(job.start.s, job.start.t, job.a, k, before, k, before);
    AtPut(job.start.t, job.a, before);
  }

  /** The call of lf12_del_entry after the loop. */
  method DelLast(img: Image, meta: Metadata, entry: DirectoryEntry, soft: bool, ghost job: Job, ghost k: Shape)
    returns (err: Error, ghost left: Shape)
    requires Turned(img, meta, job, k, |job.u.kids|) && job.soft == soft && entry == k.self
    requires RemoveKids(meta.fatEntries[..], soft, job.u.kids, |job.u.kids|).error == Success
    requires Descends(job.u.rec) && CountUsed(job.u.kids) > 2
    modifies img, meta`shape, meta`tree, entry
    ensures Done(img, meta, job, left, err)
  {
    ghost var now, fat := StateOf(img, meta), meta.fatEntries[..];
    LastPlace(meta.bpb, fat, job, k, now);
    err, left := DelEntry(img, meta, entry, soft, job.a);
    AllTurnsDone(meta.bpb, fat, job, k, now, left, StateOf(img, meta));
  }
}
