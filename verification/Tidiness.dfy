/** Directories with unique plain names and two dot entries: what every command keeps when no move meets its own name. */
module Tidiness {
  import opened Bytes
  import opened Records
  import opened Options
  import opened Errors
  import opened BiosParameterBlock
  import opened Fat
  import opened Disks
  import opened Trees
  import opened Volumes
  import opened Creation
  import opened Files
  import opened Putting
  import opened Moves
  import opened Deletion
  import DT = DirectoryTables

  /** No two used slots have the same name. */
  predicate Unique(kids: seq<Tree>) {
    forall i, j :: 0 <= i < j < |kids| && Used(kids[i].rec) && Used(kids[j].rec) ==> kids[i].rec.name != kids[j].rec.name
  }

  predicate TidyDir(kids: seq<Tree>) {
    Unique(kids) && forall i :: 0 <= i < |kids| ==> Tidy(kids[i])
  }

  /** An entry has a plain name; a directory has two dot entries and unique names, and so all directories below it. */
  predicate Tidy(t: Tree) {
    (Live(t.rec) ==> PlainName(t.rec.name)) && (Descends(t.rec) ==> DotCount(t.kids) == 2 && TidyDir(t.kids))
  }

  ghost predicate TidyVolume(v: Volume) {
    TidyDir(v.root.kids)
  }

  predicate IsDot(r: Record) {
    Used(r) && IsDotDir(r)
  }

  /** The dot entries are counted by the records, and slots without one at the end do not count. */
  lemma {:induction false} SameDots(kids: seq<Tree>, more: seq<Tree>)
    requires |kids| <= |more| && forall i :: |kids| <= i < |more| ==> !IsDot(more[i].rec)
    requires forall i :: 0 <= i < |kids| ==> (IsDot(more[i].rec) <==> IsDot(kids[i].rec))
    ensures DotCount(more) == DotCount(kids)
    decreases |more|
  {
    if |kids| < |more| {
      SameDots(kids, more[..|more| - 1]);
    } else if more != [] {
      SameDots(kids[..|kids| - 1], more[..|more| - 1]);
    }
  }

  lemma {:induction false} TidyHasTwoDots(t: Tree)
    requires Tidy(t)
    ensures TwoDots(t)
  {
    if Descends(t.rec) {
      forall i | 0 <= i < |t.kids| ensures TwoDots(t.kids[i]) {
        TidyHasTwoDots(t.kids[i]);
      }
    }
  }

  lemma FreeIsTidy()
    ensures Tidy(FREE) && !Used(FREE.rec) && !IsDot(FREE.rec)
  {
    EmptyRecordIsZero();
  }

  // ----- one changed slot -----

  /** Slot `i` may hold `u` instead. */
  ghost predicate Fitting(kids: seq<Tree>, i: nat, u: Tree) {
    && i < |kids| && Tidy(u) && (IsDot(u.rec) <==> IsDot(kids[i].rec))
    && (Used(u.rec) ==> forall j :: 0 <= j < |kids| && j != i && Used(kids[j].rec) ==> kids[j].rec.name != u.rec.name)
  }

  lemma TidySlot(kids: seq<Tree>, i: nat, u: Tree)
    requires TidyDir(kids) && Fitting(kids, i, u)
    ensures TidyDir(kids[i := u]) && DotCount(kids[i := u]) == DotCount(kids)
  {
    SameDots(kids, kids[i := u]);
  }

  lemma SameRecordFits(kids: seq<Tree>, i: nat, u: Tree)
    requires TidyDir(kids) && i < |kids| && u.rec == kids[i].rec && Tidy(u)
    ensures Fitting(kids, i, u)
  {
    forall j | 0 <= j < |kids| && j != i && Used(kids[j].rec) && Used(u.rec) ensures kids[j].rec.name != u.rec.name {
      assert if i < j then kids[i].rec.name != kids[j].rec.name else kids[j].rec.name != kids[i].rec.name;
    }
  }

  /** A fitting slot anywhere in the tree. */
  ghost predicate FittingAt(t: Tree, a: Address, u: Tree)
    requires Valid(t, a) && a != []
  {
    Valid(t, a[..|a| - 1]) && Fitting(At(t, a[..|a| - 1]).kids, a[|a| - 1], u)
  }

  lemma {:induction false} TidyPut(t: Tree, a: Address, u: Tree)
    requires TidyDir(t.kids) && Valid(t, a) && a != [] && FittingAt(t, a, u)
    ensures TidyDir(Put(t, a, u).kids) && DotCount(Put(t, a, u).kids) == DotCount(t.kids)
    decreases |a|
  {
    var i := a[0];
    var kid := t.kids[i];
    if |a| == 1 {
      assert a[..0] == [];
      TidySlot(t.kids, i, u);
    } else {
      var rest := a[1..];
      assert a[..|a| - 1][1..] == rest[..|rest| - 1];
      if Descends(kid.rec) {
        TidyPut(kid, rest, u);
      }
      SameRecordFits(t.kids, i, Put(kid, rest, u));
      TidySlot(t.kids, i, Put(kid, rest, u));
    }
  }

  /** In a sound tree every subtree and every directory on the way is tidy. */
  lemma {:induction false} TidyAt(g: Geometry, fat: Table, t: Tree, a: Address)
    requires DirSound(g, fat, t.kids) && TidyDir(t.kids) && Valid(t, a)
    ensures (a != [] ==> Tidy(At(t, a))) && TidyDir(At(t, a).kids)
    decreases |a|
  {
    if a != [] {
      var kid := t.kids[a[0]];
      assert SlotSound(g, fat, kid) && Tidy(kid);
      if Descends(kid.rec) {
        TidyAt(g, fat, kid, a[1..]);
      } else {
        assert kid.kids == [];
      }
    }
  }

  lemma DirOfSlot(t: Tree, a: Address)
    requires Valid(t, a) && a != []
    ensures var dir, i := a[..|a| - 1], a[|a| - 1]; Valid(t, dir) && i < |At(t, dir).kids| && At(t, a) == At(t, dir).kids[i]
  {
    var dir, i := a[..|a| - 1], a[|a| - 1];
    assert a == dir + [i];
    AtPutAbove(t, a, At(t, a), dir);
    ValidAppend(t, dir, [i]);
    assert At(At(t, dir), [i]) == At(t, dir).kids[i];
  }

  // ----- unique names -----

  /** In a tidy tree a plain path leads to the only entry of its name in its directory. */
  lemma TidyIsOnly(g: Geometry, fat: Table, t: Tree, p: Path)
    requires DirSound(g, fat, t.kids) && TidyDir(t.kids) && p != [] && Plain(p) && Lookup(t, p).Some?
    ensures OnlyOfItsName(t, Lookup(t, p).value)
  {
    var a := Lookup(t, p).value;
    var dir, i := a[..|a| - 1], a[|a| - 1];
    DirOfSlot(t, a);
    TidyAt(g, fat, t, dir);
    LookupLastName(t, p);
    assert PlainName(p[|p| - 1]);
    var kids := At(t, dir).kids;
    forall j | 0 <= j < |kids| && j != i ensures kids[j].rec.name != kids[i].rec.name {
      assert Used(kids[j].rec) ==> if i < j then kids[i].rec.name != kids[j].rec.name
                                   else kids[j].rec.name != kids[i].rec.name;
    }
  }

  /** A directory without an entry of the name, or with just the one at `a`. */
  lemma NoOtherFrom(t: Tree, q: Path, name: ShortName, a: Address)
    requires Lookup(t, q).Some? && PlainName(name)
    requires Lookup(t, q + [name]) == None
    ensures NoOther(t, a, Lookup(t, q).value, name)
  {
    var b := Lookup(t, q).value;
    var kids := At(t, b).kids;
    LookupAppend(t, q, [name]);
    var r := FindFrom(kids, name, 0);
    if r < |kids| {
      LookupName(At(t, b), name);
    }
  }

  lemma NoOtherOfOnly(t: Tree, a: Address, b: Address)
    requires Valid(t, a) && a != [] && OnlyOfItsName(t, a) && b == a[..|a| - 1] && Valid(t, b)
    ensures NoOther(t, a, b, At(t, a).rec.name)
  {
    DirOfSlot(t, a);
    forall i | 0 <= i < |At(t, b).kids| && b + [i] != a ensures At(t, b).kids[i].rec.name != At(t, a).rec.name {
      assert a == b + [a[|a| - 1]];
    }
  }

  // ----- written and read back -----

  lemma {:induction false} TidyFilled(g: Geometry, fat: Table, t: Tree)
    requires SlotSound(g, fat, t) && Tidy(t)
    ensures Tidy(DT.Filled(g, fat, t))
    decreases t, 1
  {
    if Descends(t.rec) {
      TidyFilledKids(g, fat, t.kids, DT.Capacity(g, fat, t.rec.firstCluster));
    }
  }

  lemma {:induction false} TidyFilledKids(g: Geometry, fat: Table, kids: seq<Tree>, n: nat)
    requires DirSound(g, fat, kids) && TidyDir(kids) && |kids| <= n
    ensures TidyDir(DT.FilledKids(g, fat, kids, n)) && DotCount(DT.FilledKids(g, fat, kids, n)) == DotCount(kids)
    decreases kids, 0
  {
    var filled := DT.FilledKids(g, fat, kids, n);
    FreeIsTidy();
    forall i | 0 <= i < n ensures Tidy(filled[i]) && filled[i].rec == if i < |kids| then kids[i].rec else EMPTY {
      if i < |kids| {
        TidyFilled(g, fat, kids[i]);
      }
    }
    SameDots(kids, filled);
  }

  lemma TidyWritten(v: Volume)
    requires VolumeSound(v) && TidyVolume(v)
    ensures TidyVolume(FilledVolume(v))
  {
    TidyFilledKids(Areas(v.bpb), v.fat, v.root.kids, |v.root.kids|);
  }

  // ----- the commands -----

  /** Removing an entry. */
  lemma TidyRemove(g: Geometry, fat: Table, t: Tree, a: Address)
    requires DirSound(g, fat, t.kids) && TidyDir(t.kids) && Valid(t, a) && a != [] && Live(At(t, a).rec)
    ensures TidyDir(Put(t, a, FREE).kids)
  {
    DirOfSlot(t, a);
    FreeIsTidy();
    TidyPut(t, a, FREE);
  }

  /** Moving an entry to a directory where no other has its name. */
  lemma TidyMove(g: Geometry, fat: Table, t: Tree, a: Address, b: Address)
    requires DirSound(g, fat, t.kids) && TidyDir(t.kids) && Movable(t, a, b) && Live(At(t, a).rec)
    requires NoOther(t, a, b, At(t, a).rec.name)
    ensures TidyDir(Moved(t, a, b).kids)
  {
    var i, u, mid := Slot(t, b), At(t, a), Put(t, a, FREE);
    TidyRemove(g, fat, t, a);
    TidyAt(g, fat, t, a);
    TargetApart(t, a, b);
    AtPutElsewhere(t, a, FREE, b + [i]);
    DirAfterRemoval(t, a, b);
    FreeIsTidy();
    assert (b + [i])[..|b|] == b;
    assert Fitting(At(mid, b).kids, i, u);
    TidyPut(mid, b + [i], u);
  }

  lemma TwoDotEntries(dots: seq<Tree>)
    requires |dots| == 2 && IsDot(dots[0].rec) && IsDot(dots[1].rec)
    ensures DotCount(dots) == 2
  {
    var one := dots[..1];
    assert one[..0] == [] && DotCount(one) == 1;
  }

  /** A new directory. */
  lemma TidyTable(size: nat, fat: Table, parent: Record, r: Record)
    requires 0 < size && Indexable(fat) && PlainName(r.name) && IsDirectory(parent)
    requires MakeTable(size, fat, parent, r).0 == Success
    ensures var t := MakeTable(size, fat, parent, r).2;
            TidyDir(t.kids) && DotCount(t.kids) == 2 && t.rec.name == r.name && Descends(t.rec)
  {
    var t := MakeTable(size, fat, parent, r).2;
    var dots := t.kids[..2];
    FreeIsTidy();
    NewSlotIsUsed(r.name);
    assert DOT_NAME[0] == DOT && DOT_NAME[1] == SPACE && DOT_DOT_NAME[0] == DOT && DOT_DOT_NAME[1] == DOT;
    assert IsDot(dots[0].rec) && IsDot(dots[1].rec) && forall i :: 2 <= i < |t.kids| ==> t.kids[i] == FREE;
    TwoDotEntries(dots);
    SameDots(dots, t.kids);
  }

  /** Making directories, with success. */
  lemma {:induction false} TidyMakeDirs(size: nat, fat: Table, t: Tree, path: Path)
    requires 0 < size && Indexable(fat) && Plain(path) && TidyDir(t.kids) && IsDirectory(t.rec)
    requires MakeDirs(size, fat, t, path).0 == Success
    ensures var t' := MakeDirs(size, fat, t, path).2; TidyDir(t'.kids) && DotCount(t'.kids) == DotCount(t.kids)
    decreases |path|
  {
    if path != [] {
      PlainRest(path);
      NewSlotIsUsed(path[0]);
      var i, j := FindFrom(t.kids, path[0], 0), FindFree(t.kids, 0);
      if i < |t.kids| {
        var kid := MakeDirs(size, fat, t.kids[i], path[1..]).2;
        TidyMakeDirs(size, fat, t.kids[i], path[1..]);
        SameRecordFits(t.kids, i, kid);
        TidySlot(t.kids, i, kid);
      } else {
        var r := t.kids[j].rec.(name := path[0]);
        var (e, after, kid) := MakeTable(size, fat, t.rec, r);
        TidyTable(size, fat, t.rec, r);
        TidyMakeDirs(size, after, kid, path[1..]);
        TidySlot(t.kids, j, MakeDirs(size, after, kid, path[1..]).2);
      }
    }
  }

  /** The slot of a new or replaced file. */
  lemma FileFits(kids: seq<Tree>, name: ShortName, r: Record)
    requires TidyDir(kids) && PlainName(name) && r.name == name && !IsDirectory(r) && SlotFor(kids, name) < |kids|
    ensures Fitting(kids, SlotFor(kids, name), Node(r, []))
  {
    var i := SlotFor(kids, name);
    NewSlotIsUsed(name);
    if FindFrom(kids, name, 0) < |kids| {
      forall j | 0 <= j < |kids| && j != i && Used(kids[j].rec) ensures kids[j].rec.name != name {
        assert if i < j then kids[i].rec.name != kids[j].rec.name else kids[j].rec.name != kids[i].rec.name;
      }
    }
  }

  /** Putting a file. */
  lemma TidyFile(g: Geometry, fat: Table, root: Tree, path: Path, first: U16, n: U32, stamp: Stamp)
    requires ReadyFor(g, fat, root, path, first) && TidyDir(root.kids)
    ensures TidyDir(WithFile(g, fat, root, path, first, n, stamp).kids)
  {
    var t, a := Prepared(g, fat, root, path), CreateEntry(g.clusterSize, fat, root, path).3;
    PlainRest(path);
    WithFileIsSet(g, fat, root, path, first, n, stamp);
    EntryPlace(g.clusterSize, fat, root, path);
    TidyMakeDirs(g.clusterSize, fat, root, DirOf(path));
    PreparedSound(g, fat, root, path, first);
    var b := Lookup(t, DirOf(path)).value;
    assert a[..|a| - 1] == b;
    var after := CreateEntry(g.clusterSize, fat, root, path).1;
    TidyAt(g, after, t, b);
    var r := FileRecord(At(t, a).rec.(name := LastOf(path)), first, n, stamp);
    FileFits(At(t, b).kids, LastOf(path), r);
    TidyPut(t, a, Node(r, []));
  }
}
