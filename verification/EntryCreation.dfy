/** Creating directories and entries among the directory slots (src/libfat12/path.c, src/libfat12/io.c). */
module EntryCreation {
  import opened Bytes
  import opened Records
  import opened Errors
  import opened BiosParameterBlock
  import opened Fat
  import opened Trees
  import opened Creation
  import opened DirectoryEntries

  /** lf12_entry_from_path */
  method EntryFromPath(entry: DirectoryEntry, path: Path, ghost s: Shape, ghost t: Tree) returns (r: DirectoryEntry?)
    requires Rep(s, t) && s.self == entry
    ensures r == match Lookup(t, path) case None => null case Some(a) => SubShape(s, a).self
    decreases |path|
  {
    if path == [] {
      return entry;
    }
    var i := 0;
    assert allocated(Objects(s));
    while i < |entry.children|
      invariant 0 <= i <= |entry.children| && i <= FindFrom(t.kids, path[0], 0) && Rep(s, t)
    {
      if entry.children[i].rec.name == path[0] {
        FindIsFirst(t.kids, path[0], i);
        r := EntryFromPath(entry.children[i], path[1..], s.kids[i], t.kids[i]);
        return;
      }
      FindLater(t.kids, path[0], 0, i);
      i := i + 1;
    }
    return null;
  }

  lemma {:induction false} FindLater(kids: seq<Tree>, name: ShortName, from: nat, i: nat)
    requires from <= i < |kids| && i <= FindFrom(kids, name, from) && kids[i].rec.name != name
    ensures i < FindFrom(kids, name, from)
  {
  }

  /** lf12_create_directory_table */
  method CreateDirectoryTable(p: Bpb, fat: array<U16>, marker: U16, entry: DirectoryEntry)
    returns (err: Error, ghost s: Shape)
    requires marker == END_OF_CHAIN && 0 < ClusterSize(p) && 2 <= fat.Length && Indexable(fat[..])
    requires entry.parent != null && entry.parent != entry
    modifies fat, entry
    ensures s.self == entry && Separate(s) && entry.parent == old(entry.parent)
    ensures forall o :: o in Objects(s) && o != entry ==> fresh(o)
    ensures var (e, after, t) := MakeTable(ClusterSize(p), old(fat[..]), old(entry.parent.rec), old(entry.rec));
            err == e && fat[..] == after && Rep(s, t)
  {
    var children := NewSlots(NEW_SLOTS);
    LeavesFacts(children);
    s := Shape(entry, Leaves(children));
    entry.children := children;
    entry.rec := entry.rec.(attributes := SUBDIRECTORY);
    var first := CreateClusterChain(fat, marker, TableClusters(ClusterSize(p)));
    entry.rec := entry.rec.(firstCluster := first);
    if first == 0 {
      return ImageFull, s;
    }
    children[0].rec := entry.rec.(name := DOT_NAME, firstCluster := 0);
    children[0].parent := entry;
    children[1].rec := entry.parent.rec.(name := DOT_DOT_NAME, firstCluster := 0);
    children[1].parent := entry;
    return Success, s;
  }

  /** The first slot of that name, or the number of slots. */
  method FindSlot(entry: DirectoryEntry, name: ShortName, ghost s: Shape, ghost t: Tree) returns (i: nat)
    requires Rep(s, t) && s.self == entry
    ensures i == FindFrom(t.kids, name, 0)
  {
    i := 0;
    assert allocated(Objects(s));
    while i < |entry.children|
      invariant 0 <= i <= |entry.children| && i <= FindFrom(t.kids, name, 0) && Rep(s, t)
    {
      if entry.children[i].rec.name == name {
        FindIsFirst(t.kids, name, i);
        return;
      }
      FindLater(t.kids, name, 0, i);
      i := i + 1;
    }
  }

  /** get_free_entry: the first free slot, or the number of slots. */
  method FindFreeSlot(entry: DirectoryEntry, ghost s: Shape, ghost t: Tree) returns (i: nat)
    requires Rep(s, t) && s.self == entry
    ensures i == FindFree(t.kids, 0)
  {
    i := 0;
    assert allocated(Objects(s));
    while i < |entry.children|
      invariant 0 <= i <= |entry.children| && i <= FindFree(t.kids, 0) && Rep(s, t)
    {
      if entry.children[i].rec.name[0] == 0 {
        FreeIsFirst(t.kids, i);
        return;
      }
      FreeLater(t.kids, 0, i);
      i := i + 1;
    }
  }

  lemma FreeIsFirst(kids: seq<Tree>, i: nat)
    requires i < |kids| && !Used(kids[i].rec) && forall j :: 0 <= j < i ==> Used(kids[j].rec)
    ensures FindFree(kids, 0) == i
  {
  }

  lemma {:induction false} FreeLater(kids: seq<Tree>, from: nat, i: nat)
    requires from <= i < |kids| && i <= FindFree(kids, from) && Used(kids[i].rec)
    ensures i < FindFree(kids, from)
  {
  }

  /** What directory creation leaves of the objects below `entry`. */
  ghost predicate Made(s: Shape, s': Shape, t': Tree)
    reads Objects(s')
  {
    s'.self == s.self && Separate(s') && Rep(s', t')
  }

  /** lf12_path_create_directories */
  method PathCreateDirectories(p: Bpb, fat: array<U16>, marker: U16, entry: DirectoryEntry, path: Path,
                               ghost s: Shape, ghost t: Tree)
    returns (err: Error, ghost s': Shape)
    requires marker == END_OF_CHAIN && 0 < ClusterSize(p) && 2 <= fat.Length && Indexable(fat[..]) && path != []
    requires Rep(s, t) && Separate(s) && s.self == entry
    modifies fat, Objects(s)
    ensures var (e, after, t') := MakeDirs(ClusterSize(p), old(fat[..]), t, path);
            err == e && fat[..] == after && Made(s, s', t')
    ensures forall o :: o in Objects(s') && o !in Objects(s) ==> fresh(o)
    decreases |path|
  {
    s' := s;
    assert allocated(Objects(s));
    var i := FindSlot(entry, path[0], s, t);
    if i < |entry.children| {
      if !IsDirectory(entry.children[i].rec) {
        return NotADir, s';
      }
      err, s' := CreateBelow(p, fat, marker, entry, i, path, s, t);
      return;
    }
    i := FindFreeSlot(entry, s, t);
    if i == |entry.children| {
      return DirFull, s';
    }
    MakeDirsInSlot(ClusterSize(p), fat[..], t, path, i);
    err, s' := CreateInSlot(p, fat, marker, entry, i, path, s, t);
  }

  /** One slot of a directory was replaced by objects of its own or fresh ones. */
  lemma MadeInKid(s: Shape, t: Tree, i: nat, k: Shape, u: Tree)
    requires Separate(s) && i < |s.kids| && RepBut(s, t, i) && Made(s.kids[i], k, u)
    requires forall o :: o in Objects(k) && o in Objects(s) ==> o in Objects(s.kids[i])
    ensures Made(s, WithKidShape(s, i, k), WithKid(t, i, u))
    ensures forall o :: o in Objects(WithKidShape(s, i, k)) ==> o in Objects(s) || o in Objects(k)
  {
    RepWithKid(s, t, i, k, u);
    SeparateWithKid(s, i, k);
  }

  /** The path continues in the existing directory of slot `i`. */
  method CreateBelow(p: Bpb, fat: array<U16>, marker: U16, entry: DirectoryEntry, i: nat, path: Path,
                     ghost s: Shape, ghost t: Tree)
    returns (err: Error, ghost s': Shape)
    requires marker == END_OF_CHAIN && 0 < ClusterSize(p) && 2 <= fat.Length && Indexable(fat[..]) && path != []
    requires Rep(s, t) && Separate(s) && s.self == entry && i < |t.kids|
    modifies fat, Objects(s)
    ensures var (e, after, u) := MakeDirs(ClusterSize(p), old(fat[..]), t.kids[i], path[1..]);
            err == e && fat[..] == after && Made(s, s', WithKid(t, i, u))
    ensures forall o :: o in Objects(s') && o !in Objects(s) ==> fresh(o)
    decreases |path|, 0
  {
    if |path| == 1 {
      assert WithKid(t, i, t.kids[i]) == t;
      return Success, s;
    }
    OthersApart(s, i);
    assert allocated(Objects(s)) && allocated(Others(s, i));
    ghost var k;
    assert RepBut(s, t, i) && Rep(s.kids[i], t.kids[i]);
    err, k := PathCreateDirectories(p, fat, marker, entry.children[i], path[1..], s.kids[i], t.kids[i]);
    assert RepBut(s, t, i);
    MadeInKid(s, t, i, k, MakeDirs(ClusterSize(p), old(fat[..]), t.kids[i], path[1..]).2);
    s' := WithKidShape(s, i, k);
  }

  /** A new directory table and the rest of the path in it. */
  ghost function NewDirs(size: nat, fat: Table, parent: Record, r: Record, rest: Path): (Error, Table, Tree)
    requires 0 < size && Indexable(fat)
  {
    var (e, mid, kid) := MakeTable(size, fat, parent, r);
    if e != Success then (e, mid, kid) else MakeDirs(size, mid, kid, rest)
  }

  lemma MakeDirsInSlot(size: nat, fat: Table, t: Tree, path: Path, j: nat)
    requires 0 < size && Indexable(fat) && path != []
    requires FindFrom(t.kids, path[0], 0) == |t.kids| && j == FindFree(t.kids, 0) < |t.kids|
    ensures var (e, after, u) := NewDirs(size, fat, t.rec, t.kids[j].rec.(name := path[0]), path[1..]);
            MakeDirs(size, fat, t, path) == (e, after, WithKid(t, j, u))
  {
  }

  method CreateAndDescend(p: Bpb, fat: array<U16>, marker: U16, entry: DirectoryEntry, slot: DirectoryEntry, path: Path)
    returns (err: Error, ghost k: Shape, ghost u: Tree)
    requires marker == END_OF_CHAIN && 0 < ClusterSize(p) && 2 <= fat.Length && Indexable(fat[..]) && path != []
    requires entry != slot
    modifies fat, slot
    ensures Made(Shape(slot, []), k, u) && forall o :: o in Objects(k) && o != slot ==> fresh(o)
    ensures (err, fat[..], u) ==
            NewDirs(ClusterSize(p), old(fat[..]), old(entry.rec), old(slot.rec).(name := path[0]), path[1..])
    decreases |path|, 0
  {
    err, k, u := NewDirectory(p, fat, marker, entry, slot, path[0]);
    if err == Success && |path| > 1 {
      ghost var mid := fat[..];
      assert allocated(Objects(k));
      err, k := PathCreateDirectories(p, fat, marker, slot, path[1..], k, u);
      u := MakeDirs(ClusterSize(p), mid, u, path[1..]).2;
    }
  }

  /** A new directory in the free slot `j`, and the rest of the path in it. */
  method CreateInSlot(p: Bpb, fat: array<U16>, marker: U16, entry: DirectoryEntry, j: nat, path: Path,
                      ghost s: Shape, ghost t: Tree)
    returns (err: Error, ghost s': Shape)
    requires marker == END_OF_CHAIN && 0 < ClusterSize(p) && 2 <= fat.Length && Indexable(fat[..]) && path != []
    requires Rep(s, t) && Separate(s) && s.self == entry && j < |t.kids|
    modifies fat, Objects(s)
    ensures var (e, after, u) := NewDirs(ClusterSize(p), old(fat[..]), t.rec, t.kids[j].rec.(name := path[0]), path[1..]);
            err == e && fat[..] == after && Made(s, s', WithKid(t, j, u))
    ensures forall o :: o in Objects(s') && o !in Objects(s) ==> fresh(o)
    decreases |path|, 1
  {
    OthersApart(s, j);
    assert allocated(Objects(s)) && allocated(Others(s, j));
    ghost var k, u;
    assert RepBut(s, t, j) && entry.children[j] == s.kids[j].self && s.kids[j].self in Objects(s.kids[j]);
    err, k, u := CreateAndDescend(p, fat, marker, entry, entry.children[j], path);
    assert RepBut(s, t, j);
    MadeInKid(s, t, j, k, u);
    s' := WithKidShape(s, j, k);
  }

  /** Names the free slot and gives it a directory table. */
  method NewDirectory(p: Bpb, fat: array<U16>, marker: U16, entry: DirectoryEntry, slot: DirectoryEntry, name: ShortName)
    returns (err: Error, ghost k: Shape, ghost u: Tree)
    requires marker == END_OF_CHAIN && 0 < ClusterSize(p) && 2 <= fat.Length && Indexable(fat[..]) && entry != slot
    modifies fat, slot
    ensures Made(Shape(slot, []), k, u) && forall o :: o in Objects(k) && o != slot ==> fresh(o)
    ensures (err, fat[..], u) ==
            MakeTable(ClusterSize(p), old(fat[..]), old(entry.rec), old(slot.rec).(name := name))
  {
    slot.rec := slot.rec.(name := name);
    slot.parent := entry;
    u := MakeTable(ClusterSize(p), fat[..], entry.rec, slot.rec).2;
    err, k := CreateDirectoryTable(p, fat, marker, slot);
  }

  // ----- changing one slot somewhere in the tree -----

  lemma PutSameShape(s: Shape, t: Tree, a: Address)
    requires Rep(s, t) && Valid(t, a)
    ensures PutShape(s, a, SubShape(s, a)) == s
  {
    if a != [] {
      PutSameShape(s.kids[a[0]], t.kids[a[0]], a[1..]);
      assert s.kids[a[0] := s.kids[a[0]]] == s.kids;
    }
  }

  /** Sets the record of the slot at address `a`. */
  method SetRecordOf(slot: DirectoryEntry, r: Record, ghost s: Shape, ghost t: Tree, ghost a: Address)
    requires Rep(s, t) && Separate(s) && Valid(t, a) && slot == SubShape(s, a).self
    modifies slot`rec
    ensures slot.rec == r && Rep(s, SetRecord(t, a, r))
  {
    RepSplit(s, t, a);
    OutsideApart(s, t, a);
    PutSameShape(s, t, a);
    ghost var k := SubShape(s, a);
    assert slot in Objects(k) && slot !in KidObjects(k.kids);
    assert RepHole(s, t, a);
    slot.rec := r;
    assert RepHole(s, t, a);
    assert Rep(k, At(t, a).(rec := r)) by {
      assert forall i :: 0 <= i < |k.kids| ==> slot !in Objects(k.kids[i]);
    }
    RepFill(s, t, a, k, At(t, a).(rec := r));
  }

  lemma {:induction false} SubShapeAppend(s: Shape, t: Tree, b: Address, i: nat)
    requires Rep(s, t) && Valid(t, b) && i < |At(t, b).kids|
    ensures Rep(SubShape(s, b), At(t, b)) && SubShape(s, b + [i]) == SubShape(s, b).kids[i]
    ensures Valid(t, b + [i]) && At(t, b + [i]) == At(t, b).kids[i]
  {
    RepSplit(s, t, b);
    ValidAppend(t, b, [i]);
    assert At(At(t, b), [i]) == At(t, b).kids[i];
    if b == [] {
      assert b + [i] == [i] && [i][1..] == [];
      assert SubShape(s.kids[i], []) == s.kids[i];
    } else {
      assert (b + [i])[1..] == b[1..] + [i];
      SubShapeAppend(s.kids[b[0]], t.kids[b[0]], b[1..], i);
    }
  }

  /** The slot for a name in a directory: its own or the first free one. */
  method ChooseSlot(parent: DirectoryEntry, name: ShortName, ghost s: Shape, ghost t: Tree) returns (i: nat)
    requires Rep(s, t) && s.self == parent
    ensures i == SlotFor(t.kids, name)
  {
    assert allocated(Objects(s));
    i := FindSlot(parent, name, s, t);
    if i == |parent.children| {
      i := FindFreeSlot(parent, s, t);
    }
  }

  /** lf12_create_entry_from_path */
  method CreateEntryFromPath(p: Bpb, fat: array<U16>, marker: U16, root: DirectoryEntry, path: Path,
                             ghost s: Shape, ghost t: Tree)
    returns (err: Error, entry: DirectoryEntry?, ghost s': Shape, ghost a: Address)
    requires marker == END_OF_CHAIN && 0 < ClusterSize(p) && 2 <= fat.Length && Indexable(fat[..]) && path != []
    requires Rep(s, t) && Separate(s) && s.self == root
    modifies fat, Objects(s)
    ensures var (e, after, t', a') := CreateEntry(ClusterSize(p), old(fat[..]), t, path);
            && err == e && fat[..] == after && Made(s, s', t') && a == a'
            && (err == Success ==> Valid(t', a) && entry == SubShape(s', a).self)
    ensures forall o :: o in Objects(s') && o !in Objects(s) ==> fresh(o)
  {
    var dir, name := path[..|path| - 1], path[|path| - 1];
    entry, s', a := null, s, [];
    ghost var (e, after, t') := MakeDirs(ClusterSize(p), fat[..], t, dir);
    if |path| > 1 {
      err, s' := PathCreateDirectories(p, fat, marker, root, dir, s, t);
      if err != Success {
        return;
      }
    }
    err, entry, a := PlaceEntry(root, dir, name, s', t');
  }

  /** The part of lf12_create_entry_from_path after the directories were created. */
  method PlaceEntry(root: DirectoryEntry, dir: Path, name: ShortName, ghost s: Shape, ghost t: Tree)
    returns (err: Error, entry: DirectoryEntry?, ghost a: Address)
    requires Rep(s, t) && Separate(s) && s.self == root
    modifies Objects(s)
    ensures match Lookup(t, dir)
            case None => err == FileNotFound && Rep(s, t) && a == []
            case Some(b) =>
              var i := SlotFor(At(t, b).kids, name);
              if i == |At(t, b).kids| then err == DirFull && Rep(s, t) && a == []
              else
                && err == Success && a == b + [i] && Valid(t, a)
                && Rep(s, SetRecord(t, a, At(t, a).rec.(name := name))) && entry == SubShape(s, a).self
  {
    a, entry := [], null;
    assert allocated(Objects(s));
    var parent := EntryFromPath(root, dir, s, t);
    assert Rep(s, t);
    if parent == null {
      return FileNotFound, null, a;
    }
    ghost var b := Lookup(t, dir).value;
    RepSplit(s, t, b);
    var i := ChooseSlot(parent, name, SubShape(s, b), At(t, b));
    assert Rep(s, t);
    RepSplit(s, t, b);
    if i == |parent.children| {
      return DirFull, null, a;
    }
    entry := parent.children[i];
    a := b + [i];
    SubShapeAppend(s, t, b, i);
    OutsideApart(s, t, a);
    SetRecordOf(entry, entry.rec.(name := name), s, t, a);
    err := Success;
  }
}
