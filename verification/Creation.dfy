/** Creating directories and entries in the tree (src/libfat12/path.c, src/libfat12/io.c). */
module Creation {
  import opened Records
  import opened Options
  import opened Errors
  import opened Fat
  import opened Disks
  import opened ChainIo
  import opened Trees

  /** A name that no free slot and no dot entry has; every parsed name is plain (module ShortNames). */
  predicate PlainName(n: ShortName) {
    n[0] != 0 && n[0] != DOT
  }

  predicate Plain(path: Path) {
    forall i :: 0 <= i < |path| ==> PlainName(path[i])
  }

  lemma PlainRest(path: Path)
    requires Plain(path) && path != []
    ensures PlainName(path[0]) && Plain(path[1..]) && Plain(path[..|path| - 1])
  {
  }

  // ----- what the code computes -----

  /** Slots of a new directory; its chain is sized for `244` entries, but the table has `224`. */
  const NEW_SLOTS: nat := 224
  const NEW_TABLE_SIZE: nat := 244 * 32

  function TableClusters(size: nat): nat
    requires 0 < size
  {
    (NEW_TABLE_SIZE + size - 1) / size
  }

  function FreeSlots(n: nat): (r: seq<Tree>)
    ensures |r| == n && forall i :: 0 <= i < n ==> r[i] == FREE
  {
    seq(n, i => FREE)
  }

  /** lf12_create_directory_table for the slot record `r` in a directory with the record `parent`. */
  ghost function MakeTable(size: nat, fat: Table, parent: Record, r: Record): (res: (Error, Table, Tree))
    requires 0 < size && Indexable(fat)
    ensures |res.1| == |fat|
  {
    var (first, after) := Allocate(fat, TableClusters(size));
    var entry := r.(attributes := SUBDIRECTORY, firstCluster := first);
    if first == 0 then (ImageFull, after, Node(entry, FreeSlots(NEW_SLOTS)))
    else
      var dot := Node(entry.(name := DOT_NAME, firstCluster := 0), []);
      var dotDot := Node(parent.(name := DOT_DOT_NAME, firstCluster := 0), []);
      (Success, after, Node(entry, [dot, dotDot] + FreeSlots(NEW_SLOTS - 2)))
  }

  ghost function WithKid(t: Tree, i: nat, kid: Tree): Tree
    requires i < |t.kids|
  {
    t.(kids := t.kids[i := kid])
  }

  /** lf12_path_create_directories; nothing is left to do at the end of the path. */
  ghost function MakeDirs(size: nat, fat: Table, t: Tree, path: Path): (res: (Error, Table, Tree))
    requires 0 < size && Indexable(fat)
    ensures |res.1| == |fat| && res.2.rec == t.rec && |res.2.kids| == |t.kids|
    decreases |path|
  {
    if path == [] then (Success, fat, t)
    else
      var i := FindFrom(t.kids, path[0], 0);
      if i < |t.kids| then
        if !IsDirectory(t.kids[i].rec) then (NotADir, fat, t)
        else
          var (e, after, kid) := MakeDirs(size, fat, t.kids[i], path[1..]);
          (e, after, WithKid(t, i, kid))
      else
        var j := FindFree(t.kids, 0);
        if j == |t.kids| then (DirFull, fat, t)
        else
          var (e, after, kid) := MakeTable(size, fat, t.rec, t.kids[j].rec.(name := path[0]));
          if e != Success then (e, after, WithKid(t, j, kid))
          else
            var (e', after', kid') := MakeDirs(size, after, kid, path[1..]);
            (e', after', WithKid(t, j, kid'))
  }

  /** Number of components of `path` that do not exist below `t`. */
  ghost function Missing(t: Tree, path: Path): nat
    decreases |path|
  {
    if path == [] then 0
    else
      var i := FindFrom(t.kids, path[0], 0);
      if i < |t.kids| then Missing(t.kids[i], path[1..]) else |path|
  }

  /** The slot of a directory that a new entry of that name takes: its own, or the first free one. */
  ghost function SlotFor(kids: seq<Tree>, name: ShortName): (r: nat)
    ensures r <= |kids|
  {
    var i := FindFrom(kids, name, 0);
    if i < |kids| then i else FindFree(kids, 0)
  }

  /** lf12_create_entry_from_path, with the address of the entry. */
  ghost function CreateEntry(size: nat, fat: Table, root: Tree, path: Path): (res: (Error, Table, Tree, Address))
    requires 0 < size && Indexable(fat) && path != []
    ensures |res.1| == |fat|
    ensures res.0 == Success ==> Valid(res.2, res.3) && res.3 != []
  {
    var dir := path[..|path| - 1];
    var (e, after, t) := MakeDirs(size, fat, root, dir);
    if e != Success then (e, after, t, [])
    else match Lookup(t, dir)
      case None => (FileNotFound, after, t, [])
      case Some(a) =>
        var name, parent := path[|path| - 1], At(t, a);
        var i := SlotFor(parent.kids, name);
        if i == |parent.kids| then (DirFull, after, t, [])
        else
          ValidAppend(t, a, [i]);
          SetRecordElsewhere(t, a + [i], At(t, a + [i]).rec.(name := name), a + [i]);
          (Success, after, SetRecord(t, a + [i], At(t, a + [i]).rec.(name := name)), a + [i])
  }

  // ----- growth: used entries stay, new names fill free slots -----

  /** Every used slot of `t` is kept in `t'`, and a newly used slot has a name that was not in use. */
  ghost predicate Grows(t: Tree, t': Tree) {
    && |t'.kids| == |t.kids|
    && (forall i :: 0 <= i < |t.kids| && Used(t.kids[i].rec) ==>
          t'.kids[i].rec == t.kids[i].rec && Grows(t.kids[i], t'.kids[i]))
    && (forall i, j :: 0 <= i < |t.kids| && 0 <= j < |t.kids| && Used(t.kids[i].rec) && !Used(t.kids[j].rec) ==>
          t'.kids[j].rec.name != t.kids[i].rec.name)
  }

  lemma {:induction false} GrowsReflexive(t: Tree)
    ensures Grows(t, t)
  {
    forall i | 0 <= i < |t.kids| ensures Grows(t.kids[i], t.kids[i]) {
      GrowsReflexive(t.kids[i]);
    }
    assert forall i, j :: 0 <= i < |t.kids| && 0 <= j < |t.kids| && Used(t.kids[i].rec) && !Used(t.kids[j].rec) ==>
        t.kids[j].rec.name[0] != t.kids[i].rec.name[0];
  }

  /** An entry that could be looked up keeps its address and its record. */
  lemma {:induction false} GrowsLookup(t: Tree, t': Tree, path: Path)
    requires Grows(t, t') && Plain(path) && Lookup(t, path).Some? && path != []
    ensures Lookup(t', path) == Lookup(t, path)
    ensures var a := Lookup(t, path).value; At(t', a).rec == At(t, a).rec && Grows(At(t, a), At(t', a))
    decreases |path|
  {
    PlainRest(path);
    var i := FindFrom(t.kids, path[0], 0);
    assert Used(t.kids[i].rec);
    SameFind(t.kids, t'.kids, path[0]);
    if |path| > 1 {
      GrowsLookup(t.kids[i], t'.kids[i], path[1..]);
    } else {
      assert Lookup(t.kids[i], path[1..]) == Some([]);
    }
  }

  /** The first slot with a name that was in use is the same one. */
  lemma SameFind(kids: seq<Tree>, kids': seq<Tree>, name: ShortName)
    requires |kids'| == |kids| && name[0] != 0 && FindFrom(kids, name, 0) < |kids|
    requires forall i :: 0 <= i < |kids| && Used(kids[i].rec) ==> kids'[i].rec.name == kids[i].rec.name
    requires forall i, j :: 0 <= i < |kids| && 0 <= j < |kids| && Used(kids[i].rec) && !Used(kids[j].rec) ==>
        kids'[j].rec.name != kids[i].rec.name
    ensures FindFrom(kids', name, 0) == FindFrom(kids, name, 0)
  {
    var i := FindFrom(kids, name, 0);
    assert Used(kids[i].rec) && kids'[i].rec.name == name;
    forall j | 0 <= j < i ensures kids'[j].rec.name != name {
      assert kids[j].rec.name != name;
    }
    FindIsFirst(kids', name, i);
  }

  lemma FindIsFirst(kids: seq<Tree>, name: ShortName, i: nat)
    requires i < |kids| && kids[i].rec.name == name
    requires forall j :: 0 <= j < i ==> kids[j].rec.name != name
    ensures FindFrom(kids, name, 0) == i
  {
  }

  // ----- directory creation -----

  lemma NewSlotIsUsed(n: ShortName)
    requires PlainName(n)
    ensures n != DOT_NAME && n != DOT_DOT_NAME
  {
    assert DOT_NAME[0] == DOT && DOT_DOT_NAME[0] == DOT;
  }

  /** Whatever the outcome, used entries stay and new names fill free slots. */
  lemma {:induction false} MakeDirsGrows(size: nat, fat: Table, t: Tree, path: Path)
    requires 0 < size && Indexable(fat) && Plain(path)
    ensures Grows(t, MakeDirs(size, fat, t, path).2)
    decreases |path|
  {
    GrowsReflexive(t);
    if path != [] {
      PlainRest(path);
      var i, j := FindFrom(t.kids, path[0], 0), FindFree(t.kids, 0);
      var t' := MakeDirs(size, fat, t, path).2;
      if i < |t.kids| {
        if IsDirectory(t.kids[i].rec) {
          MakeDirsGrows(size, fat, t.kids[i], path[1..]);
          GrowsAt(t, i, t'.kids[i]);
        }
      } else if j < |t.kids| {
        GrowsInto(t, j, t'.kids[j], path[0]);
      }
    }
  }

  lemma GrowsAt(t: Tree, i: nat, kid: Tree)
    requires i < |t.kids| && Used(t.kids[i].rec) && kid.rec == t.kids[i].rec && Grows(t.kids[i], kid) && Grows(t, t)
    ensures Grows(t, WithKid(t, i, kid))
  {
  }

  lemma GrowsInto(t: Tree, j: nat, kid: Tree, name: ShortName)
    requires j < |t.kids| && !Used(t.kids[j].rec) && Grows(t, t)
    requires kid.rec.name == name && FindFrom(t.kids, name, 0) == |t.kids|
    ensures Grows(t, WithKid(t, j, kid))
  {
  }

  /** Every component of the path is a directory. */
  ghost predicate DirectoriesAlong(t: Tree, path: Path)
    decreases |path|
  {
    path == [] ||
    (var i := FindFrom(t.kids, path[0], 0);
     i < |t.kids| && IsDirectory(t.kids[i].rec) && DirectoriesAlong(t.kids[i], path[1..]))
  }

  lemma AlongKid(t: Tree, i: nat, kid: Tree, path: Path)
    requires path != [] && i < |t.kids| && kid.rec.name == path[0] && IsDirectory(kid.rec)
    requires forall j :: 0 <= j < i ==> t.kids[j].rec.name != path[0]
    requires DirectoriesAlong(kid, path[1..])
    ensures DirectoriesAlong(WithKid(t, i, kid), path)
  {
    FindIsFirst(WithKid(t, i, kid).kids, path[0], i);
  }

  /** After a successful call the whole path consists of directories. */
  lemma {:induction false} MakeDirsAlong(size: nat, fat: Table, t: Tree, path: Path)
    requires 0 < size && Indexable(fat) && MakeDirs(size, fat, t, path).0 == Success
    ensures DirectoriesAlong(MakeDirs(size, fat, t, path).2, path)
    decreases |path|, 1
  {
    if path != [] {
      var i, j := FindFrom(t.kids, path[0], 0), FindFree(t.kids, 0);
      if i < |t.kids| {
        MakeDirsAlong(size, fat, t.kids[i], path[1..]);
        AlongKid(t, i, MakeDirs(size, fat, t.kids[i], path[1..]).2, path);
      } else {
        NewDirsAlong(size, fat, t, path, j);
      }
    }
  }

  lemma {:induction false} NewDirsAlong(size: nat, fat: Table, t: Tree, path: Path, j: nat)
    requires 0 < size && Indexable(fat) && path != [] && MakeDirs(size, fat, t, path).0 == Success
    requires FindFrom(t.kids, path[0], 0) == |t.kids| && j == FindFree(t.kids, 0) < |t.kids|
    ensures DirectoriesAlong(MakeDirs(size, fat, t, path).2, path)
    decreases |path|, 0
  {
    var (e, after, kid) := MakeTable(size, fat, t.rec, t.kids[j].rec.(name := path[0]));
    MakeDirsAlong(size, after, kid, path[1..]);
    AlongKid(t, j, MakeDirs(size, after, kid, path[1..]).2, path);
  }

  /** Such a path resolves to a directory. */
  lemma {:induction false} AlongResolves(t: Tree, path: Path)
    requires DirectoriesAlong(t, path) && IsDirectory(t.rec)
    ensures Lookup(t, path).Some? && IsDirectory(At(t, Lookup(t, path).value).rec)
    decreases |path|
  {
    if path != [] {
      AlongResolves(t.kids[FindFrom(t.kids, path[0], 0)], path[1..]);
    }
  }

  /** Where the path leads to directories already, the call changes nothing. */
  lemma {:induction false} MakeDirsExisting(size: nat, fat: Table, t: Tree, path: Path)
    requires 0 < size && Indexable(fat) && DirectoriesAlong(t, path)
    ensures MakeDirs(size, fat, t, path) == (Success, fat, t)
    decreases |path|
  {
    if path != [] {
      var i := FindFrom(t.kids, path[0], 0);
      MakeDirsExisting(size, fat, t.kids[i], path[1..]);
      assert t.kids[i := t.kids[i]] == t.kids;
    }
  }

  /** On success the path resolves to a directory, and a second call changes nothing. */
  lemma MakeDirsResolves(size: nat, fat: Table, t: Tree, path: Path)
    requires 0 < size && Indexable(fat) && IsDirectory(t.rec)
    requires MakeDirs(size, fat, t, path).0 == Success
    ensures var (e, fat', t') := MakeDirs(size, fat, t, path);
            && Lookup(t', path).Some? && IsDirectory(At(t', Lookup(t', path).value).rec)
            && MakeDirs(size, fat', t', path) == (Success, fat', t')
  {
    var (e, fat', t') := MakeDirs(size, fat, t, path);
    MakeDirsAlong(size, fat, t, path);
    AlongResolves(t', path);
    MakeDirsExisting(size, fat', t', path);
  }

  // ----- directory creation keeps the tree sound -----

  /** `won` adds to `had` only clusters that are free in `fat`. */
  ghost predicate FreshOnly(fat: Table, had: set<int>, won: set<int>) {
    forall c :: c in won ==> c in had || (0 <= c < |fat| && fat[c] == 0)
  }

  /** The table can serve directory slots of cluster numbers below the end of the data area. */
  ghost predicate Allocatable(g: Geometry, fat: Table) {
    Indexable(fat) && g.dataClusters + 2 <= |fat| && 0 < g.clusterSize < 0x1_0000
  }

  ghost function Room(g: Geometry, fat: Table): nat
    requires g.dataClusters + 2 <= |fat|
  {
    |FreeUpTo(fat, g.dataClusters + 2)|
  }

  lemma ExtendsTwice(a: Table, b: Table, c: Table)
    requires Extends(a, b) && Extends(b, c)
    ensures Extends(a, c)
  {
  }

  lemma KidReplaced(g: Geometry, fat: Table, after: Table, kids: seq<Tree>, i: nat, kid: Tree)
    requires Indexable(fat) && Extends(fat, after) && DirSound(g, fat, kids) && i < |kids| && SlotSound(g, after, kid)
    requires FreshOnly(fat, TreeClusters(fat, kids[i]), TreeClusters(after, kid))
    ensures DirSound(g, after, kids[i := kid])
    ensures FreshOnly(fat, KidClusters(fat, kids), KidClusters(after, kids[i := kid]))
  {
    DirSoundExtends(g, fat, after, kids);
    SlotSoundExtends(g, fat, after, kids[i]);
    forall c | c in TreeClusters(after, kid) && c in KidClusters(fat, kids) ensures c in TreeClusters(fat, kids[i]) {
      var j :| 0 <= j < |kids| && c in TreeClusters(fat, kids[j]);
      SoundClustersAllocated(g, fat, kids[j], c);
    }
    DirSoundUpdate(g, after, kids, i, kid);
    KidClustersUpdate(g, after, kids, i, kid);
    assert TreeClusters(fat, kids[i]) <= KidClusters(fat, kids);
  }

  lemma GrownSlotSound(g: Geometry, fat: Table, after: Table, t: Tree, t': Tree)
    requires Indexable(fat) && Extends(fat, after) && SlotSound(g, fat, t) && Descends(t.rec)
    requires t'.rec == t.rec && |t'.kids| == |t.kids| && DirSound(g, after, t'.kids)
    requires FreshOnly(fat, KidClusters(fat, t.kids), KidClusters(after, t'.kids))
    ensures SlotSound(g, after, t') && FreshOnly(fat, TreeClusters(fat, t), TreeClusters(after, t'))
  {
    SlotSoundExtends(g, fat, after, t);
    ClustersSurvive(fat, after, t.rec.firstCluster);
    forall c | c in OwnClusters(fat, t.rec) ensures c !in KidClusters(after, t'.kids) {
      ChainIsAllocated(fat, t.rec.firstCluster, c);
    }
  }

  lemma FreeSlotHasNoClusters(g: Geometry, fat: Table, t: Tree)
    requires SlotSound(g, fat, t) && !Used(t.rec)
    ensures TreeClusters(fat, t) == {}
  {
  }

  lemma TableFits(size: nat)
    requires 0 < size < 0x1_0000
    ensures 0 < TableClusters(size)
    ensures NEW_TABLE_SIZE <= Span(TableClusters(size), size) < 0x1_0000
  {
    var n := TableClusters(size);
    SpanIsProduct(n, size);
    assert n * size <= NEW_TABLE_SIZE + size - 1 < n * size + size;
  }

  lemma LeavesSound(g: Geometry, fat: Table, dot: Tree, dotDot: Tree, n: nat)
    requires dot.kids == [] && dotDot.kids == [] && IsDotDir(dot.rec) && IsDotDir(dotDot.rec)
    ensures DirSound(g, fat, [dot, dotDot] + FreeSlots(n)) && KidClusters(fat, [dot, dotDot] + FreeSlots(n)) == {}
  {
    var kids := [dot, dotDot] + FreeSlots(n);
    EmptyRecordIsZero();
    assert DOT_NAME[0] == DOT && DOT_DOT_NAME[0] == DOT;
    forall i | 0 <= i < |kids| ensures SlotSound(g, fat, kids[i]) && TreeClusters(fat, kids[i]) == {} {
      assert kids[i] == FREE || kids[i] == dot || kids[i] == dotDot;
    }
  }

  /** The chain of a new directory: the lowest free clusters, all in the data area. */
  lemma TableChain(g: Geometry, fat: Table)
    requires Allocatable(g, fat) && TableClusters(g.clusterSize) <= Room(g, fat)
    ensures var n := TableClusters(g.clusterSize); var (first, after) := Allocate(fat, n);
            && first != 0 && Extends(fat, after) && Room(g, after) == Room(g, fat) - n
            && DataChain(after, first, g.dataClusters) && FreshOnly(fat, {}, Clusters(after, first))
            && NEW_TABLE_SIZE <= ChainBytes(after, first, g.clusterSize) < 0x1_0000
  {
    var n := TableClusters(g.clusterSize);
    TableFits(g.clusterSize);
    AllocateBelow(fat, n, g.dataClusters + 2);
    AllocateFirstFit(fat, n);
    var s := FreeClusters(fat)[..n];
    assert forall i :: 0 <= i < |s| ==> s[i] in s;
    ChainOfIs(Allocate(fat, n).1, s);
  }

  /** A new directory table lies in fresh clusters and is sound. */
  lemma MakeTableSound(g: Geometry, fat: Table, parent: Record, r: Record)
    requires Allocatable(g, fat) && PlainName(r.name) && IsDirectory(parent)
    requires TableClusters(g.clusterSize) <= Room(g, fat)
    ensures var (e, after, t) := MakeTable(g.clusterSize, fat, parent, r);
            && e == Success && Extends(fat, after) && SlotSound(g, after, t) && Descends(t.rec)
            && FreshOnly(fat, {}, TreeClusters(after, t)) && KidClusters(after, t.kids) == {}
            && Room(g, after) == Room(g, fat) - TableClusters(g.clusterSize)
  {
    TableChain(g, fat);
    NewSlotIsUsed(r.name);
    var (e, after, t) := MakeTable(g.clusterSize, fat, parent, r);
    LeavesSound(g, after, t.kids[0], t.kids[1], NEW_SLOTS - 2);
  }

  /** The step of MakeDirs into an existing directory. */
  lemma ExistingDirSound(g: Geometry, fat: Table, after: Table, t: Tree, i: nat, kid: Tree)
    requires Indexable(fat) && Extends(fat, after) && DirSound(g, fat, t.kids) && i < |t.kids|
    requires Descends(t.kids[i].rec) && kid.rec == t.kids[i].rec && |kid.kids| == |t.kids[i].kids|
    requires DirSound(g, after, kid.kids)
    requires FreshOnly(fat, KidClusters(fat, t.kids[i].kids), KidClusters(after, kid.kids))
    ensures DirSound(g, after, WithKid(t, i, kid).kids)
    ensures FreshOnly(fat, KidClusters(fat, t.kids), KidClusters(after, WithKid(t, i, kid).kids))
  {
    GrownSlotSound(g, fat, after, t.kids[i], kid);
    KidReplaced(g, fat, after, t.kids, i, kid);
  }

  /** The step of MakeDirs into a new directory `kid`, filled to `kid'` afterwards. */
  lemma NewDirSound(g: Geometry, fat: Table, mid: Table, after: Table, t: Tree, j: nat, kid: Tree, kid': Tree)
    requires Indexable(fat) && Extends(fat, mid) && Extends(mid, after) && DirSound(g, fat, t.kids) && j < |t.kids|
    requires !Used(t.kids[j].rec) && SlotSound(g, mid, kid) && Descends(kid.rec)
    requires FreshOnly(fat, {}, TreeClusters(mid, kid)) && KidClusters(mid, kid.kids) == {}
    requires kid'.rec == kid.rec && |kid'.kids| == |kid.kids| && DirSound(g, after, kid'.kids)
    requires FreshOnly(mid, {}, KidClusters(after, kid'.kids))
    ensures DirSound(g, after, WithKid(t, j, kid').kids)
    ensures FreshOnly(fat, KidClusters(fat, t.kids), KidClusters(after, WithKid(t, j, kid').kids))
  {
    GrownSlotSound(g, mid, after, kid, kid');
    ExtendsTwice(fat, mid, after);
    forall c | c in TreeClusters(after, kid') ensures 0 <= c < |fat| && fat[c] == 0 {
      if c in TreeClusters(mid, kid) {
      } else {
        SoundClustersAllocated(g, after, kid', c);
      }
    }
    FreeSlotHasNoClusters(g, fat, t.kids[j]);
    KidReplaced(g, fat, after, t.kids, j, kid');
  }

  /**
   With room for the missing directories below the end of the data area, a successful call changes no entry of
   the FAT in use, and the tree stays sound: new chains are complete and share no cluster with any other.
   */
  lemma {:induction false} MakeDirsSound(g: Geometry, fat: Table, t: Tree, path: Path)
    requires Allocatable(g, fat) && DirSound(g, fat, t.kids) && IsDirectory(t.rec) && Plain(path)
    requires Span(Missing(t, path), TableClusters(g.clusterSize)) <= Room(g, fat)
    requires MakeDirs(g.clusterSize, fat, t, path).0 == Success
    ensures var (e, after, t') := MakeDirs(g.clusterSize, fat, t, path);
            && Extends(fat, after) && DirSound(g, after, t'.kids)
            && FreshOnly(fat, KidClusters(fat, t.kids), KidClusters(after, t'.kids))
            && Room(g, after) == Room(g, fat) - Span(Missing(t, path), TableClusters(g.clusterSize))
    decreases |path|
  {
    if path != [] {
      PlainRest(path);
      NewSlotIsUsed(path[0]);
      var i, j := FindFrom(t.kids, path[0], 0), FindFree(t.kids, 0);
      if i < |t.kids| {
        MakeDirsSound(g, fat, t.kids[i], path[1..]);
        var (e, after, kid) := MakeDirs(g.clusterSize, fat, t.kids[i], path[1..]);
        ExistingDirSound(g, fat, after, t, i, kid);
      } else {
        NewDirsSound(g, fat, t, path, j);
      }
    }
  }

  lemma {:induction false} NewDirsSound(g: Geometry, fat: Table, t: Tree, path: Path, j: nat)
    requires Allocatable(g, fat) && DirSound(g, fat, t.kids) && IsDirectory(t.rec) && Plain(path) && path != []
    requires FindFrom(t.kids, path[0], 0) == |t.kids| && j == FindFree(t.kids, 0) < |t.kids|
    requires Span(|path|, TableClusters(g.clusterSize)) <= Room(g, fat)
    requires MakeDirs(g.clusterSize, fat, t, path).0 == Success
    ensures var (e, after, t') := MakeDirs(g.clusterSize, fat, t, path);
            && Extends(fat, after) && DirSound(g, after, t'.kids)
            && FreshOnly(fat, KidClusters(fat, t.kids), KidClusters(after, t'.kids))
            && Room(g, after) == Room(g, fat) - Span(|path|, TableClusters(g.clusterSize))
    decreases |path|, 0
  {
    PlainRest(path);
    var n := TableClusters(g.clusterSize);
    var r := t.kids[j].rec.(name := path[0]);
    MakeTableSound(g, fat, t.rec, r);
    var (e, mid, kid) := MakeTable(g.clusterSize, fat, t.rec, r);
    FreshTableHasNoPlainName(g.clusterSize, fat, t.rec, r, path[1..]);
    MakeDirsSound(g, mid, kid, path[1..]);
    var (e', after, kid') := MakeDirs(g.clusterSize, mid, kid, path[1..]);
    ExtendsTwice(fat, mid, after);
    NewDirSound(g, fat, mid, after, t, j, kid, kid');
  }

  lemma NewTableNames(size: nat, fat: Table, parent: Record, r: Record)
    requires 0 < size && Indexable(fat)
    ensures var kids := MakeTable(size, fat, parent, r).2.kids;
            forall i :: 0 <= i < |kids| ==> !PlainName(kids[i].rec.name)
  {
    EmptyRecordIsZero();
    assert DOT_NAME[0] == DOT && DOT_DOT_NAME[0] == DOT;
    var (first, after) := Allocate(fat, TableClusters(size));
    var kids := MakeTable(size, fat, parent, r).2.kids;
    forall i | 0 <= i < |kids| ensures !PlainName(kids[i].rec.name) {
      assert first == 0 || i >= 2 ==> kids[i] == FREE;
    }
  }

  /** Nothing can be found in a new directory, so all of the rest of the path is missing. */
  lemma FreshTableHasNoPlainName(size: nat, fat: Table, parent: Record, r: Record, path: Path)
    requires 0 < size && Indexable(fat) && Plain(path)
    ensures Missing(MakeTable(size, fat, parent, r).2, path) == |path|
  {
    NewTableNames(size, fat, parent, r);
    if path != [] {
      PlainRest(path);
    }
  }

  /** Directory creation leaves all entries outside the data area alone. */
  lemma {:induction false} MakeDirsKeptOutside(g: Geometry, fat: Table, t: Tree, path: Path)
    requires Allocatable(g, fat)
    requires Span(Missing(t, path), TableClusters(g.clusterSize)) <= Room(g, fat) && Plain(path)
    ensures KeptOutside(g.dataClusters + 2, fat, MakeDirs(g.clusterSize, fat, t, path).1)
    decreases |path|
  {
    if path != [] {
      PlainRest(path);
      var i, j := FindFrom(t.kids, path[0], 0), FindFree(t.kids, 0);
      if i < |t.kids| {
        MakeDirsKeptOutside(g, fat, t.kids[i], path[1..]);
      } else if j < |t.kids| {
        var n, r := TableClusters(g.clusterSize), t.kids[j].rec.(name := path[0]);
        TableFits(g.clusterSize);
        AllocateKeptOutside(fat, n, g.dataClusters + 2);
        AllocateBelow(fat, n, g.dataClusters + 2);
        var (e, after, kid) := MakeTable(g.clusterSize, fat, t.rec, r);
        FreshTableHasNoPlainName(g.clusterSize, fat, t.rec, r, path[1..]);
        MakeDirsKeptOutside(g, after, kid, path[1..]);
      }
    }
  }

  /** A successful call has found clusters for every missing directory, wherever they lie. */
  lemma {:induction false} MakeDirsUses(size: nat, fat: Table, t: Tree, path: Path)
    requires 0 < size && Indexable(fat) && Plain(path) && MakeDirs(size, fat, t, path).0 == Success
    ensures Span(Missing(t, path), TableClusters(size)) <= |FreeClusters(fat)|
    decreases |path|
  {
    if path != [] {
      PlainRest(path);
      var i, j := FindFrom(t.kids, path[0], 0), FindFree(t.kids, 0);
      if i < |t.kids| {
        MakeDirsUses(size, fat, t.kids[i], path[1..]);
      } else {
        NewTablesUse(size, fat, t, path, j);
      }
    }
  }

  lemma {:induction false} NewTablesUse(size: nat, fat: Table, t: Tree, path: Path, j: nat)
    requires 0 < size && Indexable(fat) && Plain(path) && path != [] && MakeDirs(size, fat, t, path).0 == Success
    requires FindFrom(t.kids, path[0], 0) == |t.kids| && j == FindFree(t.kids, 0) < |t.kids|
    ensures Span(|path|, TableClusters(size)) <= |FreeClusters(fat)|
    decreases |path|, 0
  {
    var r, n := t.kids[j].rec.(name := path[0]), TableClusters(size);
    var (e, after, kid) := MakeTable(size, fat, t.rec, r);
    FreshTableHasNoPlainName(size, fat, t.rec, r, path[1..]);
    MakeDirsUses(size, after, kid, path[1..]);
    AllocateFails(fat, n);
    AllocateUsesUp(fat, n);
  }
}
