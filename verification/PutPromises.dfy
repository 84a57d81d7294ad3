/** What f12_put promises: when it is done, what files hold then, and what the new entry is (src/put.c, src/libfat12/io.c). */
module PutPromises {
  import opened Bytes
  import opened Records
  import opened Options
  import opened Errors
  import opened BiosParameterBlock
  import opened Fat
  import opened Disks
  import opened ChainIo
  import opened Trees
  import opened Volumes
  import opened Creation
  import opened Lookups
  import opened Placing
  import opened Files
  import opened Contents
  import opened Putting
  import opened Moves
  import opened Runs
  import opened Promises

  // ----- new directories -----

  lemma TableRounding(size: nat)
    requires 0 < size
    ensures 7808 <= Span(TableClusters(size), size) < 7808 + size
  {
    SpanIsProduct(TableClusters(size), size);
    RoundedUp(7808, size);
  }

  lemma RoundedUp(n: nat, size: nat)
    requires 0 < size
    ensures n <= (n + size - 1) / size * size < n + size
  {
    var q := (n + size - 1) / size;
    assert n + size - 1 == q * size + (n + size - 1) % size;
  }

  /**
   A new directory: 224 slots, of which the first two are "." and ".." without a cluster and the others are free, the
   directory attribute and no other, and a chain for 244 entries.
   */
  lemma NewDirectory(g: Geometry, fat: Table, parent: Record, r: Record)
    requires Allocatable(g, fat) && TableClusters(g.clusterSize) <= Room(g, fat)
    ensures var (e, after, t) := MakeTable(g.clusterSize, fat, parent, r);
            && e == Success && t.rec.name == r.name && t.rec.attributes == 0x10 && |t.kids| == 224
            && t.kids[0].rec.name == [0x2E, 0x20, 0x20, 0x20, 0x20, 0x20, 0x20, 0x20, 0x20, 0x20, 0x20]
            && t.kids[1].rec.name == [0x2E, 0x2E, 0x20, 0x20, 0x20, 0x20, 0x20, 0x20, 0x20, 0x20, 0x20]
            && t.kids[0].rec.attributes == 0x10 && t.kids[1].rec.attributes == parent.attributes
            && t.kids[0].rec.firstCluster == 0 && t.kids[1].rec.firstCluster == 0
            && t.kids[0].kids == [] && t.kids[1].kids == [] && forall i :: 2 <= i < 224 ==> t.kids[i] == FREE
    ensures var (e, after, t) := MakeTable(g.clusterSize, fat, parent, r);
            && t.rec.(attributes := r.attributes, firstCluster := r.firstCluster) == r
            && t.kids[0].rec.(name := r.name, firstCluster := t.rec.firstCluster) == t.rec
            && t.kids[1].rec.(name := parent.name, firstCluster := parent.firstCluster) == parent
    ensures var (e, after, t) := MakeTable(g.clusterSize, fat, parent, r);
            HasChain(after, t.rec.firstCluster) &&
            7808 <= ChainBytes(after, t.rec.firstCluster, g.clusterSize) < 7808 + g.clusterSize
  {
    TableChain(g, fat);
    TableRounding(g.clusterSize);
    NewChainLength(g, fat);
  }

  lemma NewChainLength(g: Geometry, fat: Table)
    requires Allocatable(g, fat) && TableClusters(g.clusterSize) <= Room(g, fat)
    ensures var n := TableClusters(g.clusterSize); var (first, after) := Allocate(fat, n);
            HasChain(after, first) && |ChainOf(after, first)| == n
  {
    var n := TableClusters(g.clusterSize);
    TableFits(g.clusterSize);
    AllocateBelow(fat, n, g.dataClusters + 2);
    AllocateFirstFit(fat, n);
    ChainOfIs(Allocate(fat, n).1, FreeClusters(fat)[..n]);
  }

  /** A new directory below a directory with the record `parent`: 224 slots, the first two of which are "." and "..". */
  ghost predicate IsNewDirectory(t: Tree, parent: Record) {
    && t.rec.attributes == 0x10 && t.rec.firstCluster != 0 && |t.kids| == 224
    && t.kids[0].rec.name == [0x2E, 0x20, 0x20, 0x20, 0x20, 0x20, 0x20, 0x20, 0x20, 0x20, 0x20]
    && t.kids[0].rec.(name := t.rec.name, firstCluster := t.rec.firstCluster) == t.rec && t.kids[0].rec.firstCluster == 0
    && t.kids[1].rec.name == [0x2E, 0x2E, 0x20, 0x20, 0x20, 0x20, 0x20, 0x20, 0x20, 0x20, 0x20]
    && t.kids[1].rec.(name := parent.name, firstCluster := parent.firstCluster) == parent && t.kids[1].rec.firstCluster == 0
  }

  lemma TableIsNew(size: nat, fat: Table, parent: Record, r: Record)
    requires 0 < size && Indexable(fat) && MakeTable(size, fat, parent, r).0 == Success
    ensures IsNewDirectory(MakeTable(size, fat, parent, r).2, parent) && MakeTable(size, fat, parent, r).2.rec.name == r.name
  {
  }

  /** Making directories below a new one leaves its dot entries. */
  lemma StaysNew(size: nat, fat: Table, t: Tree, parent: Record, path: Path)
    requires 0 < size && Indexable(fat) && Plain(path) && IsNewDirectory(t, parent)
    ensures IsNewDirectory(MakeDirs(size, fat, t, path).2, parent)
  {
    if path != [] {
      PlainRest(path);
      assert Used(t.kids[0].rec) && Used(t.kids[1].rec);
      assert t.kids[0].rec.name != path[0] && t.kids[1].rec.name != path[0];
    }
  }

  /** Directories that a path needs and that do not exist are made new, each with the record of the one above in "..". */
  lemma {:induction false} MissingAreNew(size: nat, fat: Table, t: Tree, path: Path, k: nat)
    requires 0 < size && Indexable(fat) && Plain(path) && MakeDirs(size, fat, t, path).0 == Success
    requires 0 < k <= |path| && Lookup(t, path[..k]).None?
    ensures var t' := MakeDirs(size, fat, t, path).2;
            && Lookup(t', path[..k]).Some? && Lookup(t', path[..k - 1]).Some?
            && IsNewDirectory(At(t', Lookup(t', path[..k]).value), At(t', Lookup(t', path[..k - 1]).value).rec)
    decreases |path|
  {
    PlainRest(path);
    var t' := MakeDirs(size, fat, t, path).2;
    var i, j := FindFrom(t.kids, path[0], 0), FindFree(t.kids, 0);
    assert path[..k][1..] == path[1..][..k - 1] && path[..k][0] == path[0];
    if i < |t.kids| {
      MissingInKid(size, fat, t, path, k, i);
    } else {
      MissingHere(size, fat, t, path, k, j);
    }
  }

  lemma WayThrough(t: Tree, path: Path, k: nat, i: nat)
    requires 1 < k <= |path| && i < |t.kids| && FindFrom(t.kids, path[0], 0) == i
    ensures Lookup(t, path[..k]) == Below([i], Lookup(t.kids[i], path[1..][..k - 1]))
    ensures Lookup(t, path[..k - 1]) == Below([i], Lookup(t.kids[i], path[1..][..k - 2]))
    ensures Lookup(t, path[..k]).Some? ==>
              At(t, Lookup(t, path[..k]).value) == At(t.kids[i], Lookup(t.kids[i], path[1..][..k - 1]).value)
    ensures Lookup(t, path[..k - 1]).Some? ==>
              At(t, Lookup(t, path[..k - 1]).value) == At(t.kids[i], Lookup(t.kids[i], path[1..][..k - 2]).value)
  {
    assert path[..k][1..] == path[1..][..k - 1] && path[..k - 1][1..] == path[1..][..k - 2];
  }

  lemma FirstExists(t: Tree, path: Path)
    requires path != [] && FindFrom(t.kids, path[0], 0) < |t.kids|
    ensures Lookup(t, path[..1]).Some?
  {
    assert path[..1][1..] == [] && Lookup(t.kids[FindFrom(t.kids, path[0], 0)], []).Some?;
  }

  lemma {:induction false} MissingInKid(size: nat, fat: Table, t: Tree, path: Path, k: nat, i: nat)
    requires 0 < size && Indexable(fat) && Plain(path) && MakeDirs(size, fat, t, path).0 == Success
    requires 0 < k <= |path| && Lookup(t, path[..k]).None? && i == FindFrom(t.kids, path[0], 0) < |t.kids|
    ensures var t' := MakeDirs(size, fat, t, path).2;
            && Lookup(t', path[..k]).Some? && Lookup(t', path[..k - 1]).Some?
            && IsNewDirectory(At(t', Lookup(t', path[..k]).value), At(t', Lookup(t', path[..k - 1]).value).rec)
    decreases |path|, 0
  {
    var t' := MakeDirs(size, fat, t, path).2;
    PlainRest(path);
    SameNames(t.kids, t'.kids, path[0], 0);
    FirstExists(t, path);
    assert k > 1;
    WayThrough(t, path, k, i);
    MissingAreNew(size, fat, t.kids[i], path[1..], k - 1);
    WayThrough(t', path, k, i);
  }

  lemma {:induction false} MissingHere(size: nat, fat: Table, t: Tree, path: Path, k: nat, j: nat)
    requires 0 < size && Indexable(fat) && Plain(path) && MakeDirs(size, fat, t, path).0 == Success
    requires 0 < k <= |path| && FindFrom(t.kids, path[0], 0) == |t.kids| && j == FindFree(t.kids, 0)
    ensures var t' := MakeDirs(size, fat, t, path).2;
            && Lookup(t', path[..k]).Some? && Lookup(t', path[..k - 1]).Some?
            && IsNewDirectory(At(t', Lookup(t', path[..k]).value), At(t', Lookup(t', path[..k - 1]).value).rec)
    decreases |path|, 0
  {
    var t' := MakeDirs(size, fat, t, path).2;
    PlainRest(path);
    var r := t.kids[j].rec.(name := path[0]);
    var (e, after, kid) := MakeTable(size, fat, t.rec, r);
    TableIsNew(size, fat, t.rec, r);
    StaysNew(size, after, kid, t.rec, path[1..]);
    FindIsFirst(t'.kids, path[0], j);
    if k == 1 {
      assert path[..1] == [path[0]] && path[..1][1..] == [] && path[..0] == [];
      assert Lookup(t'.kids[j], []) == Some([]) && [j] + [] == [j] && [j][1..] == [];
    } else {
      NothingInTable(size, fat, t.rec, r, path[1..][..k - 1]);
      MissingAreNew(size, after, kid, path[1..], k - 1);
      WayThrough(t', path, k, j);
    }
  }

  lemma NothingInTable(size: nat, fat: Table, parent: Record, r: Record, q: Path)
    requires 0 < size && Indexable(fat) && Plain(q) && q != []
    ensures Lookup(MakeTable(size, fat, parent, r).2, q).None?
  {
    NewTableNames(size, fat, parent, r);
    PlainRest(q);
  }

  // ----- the slot of the new entry -----

  /** A free slot, or one with a plain name. */
  predicate NoDot(r: Record) {
    !Used(r) || PlainName(r.name)
  }

  /** In a directory below a new one, slots without a dot name are empty. */
  lemma {:induction false} NewSlots(size: nat, fat: Table, parent: Record, r: Record, path: Path, i: nat)
    requires 0 < size && Indexable(fat) && Plain(path) && MakeTable(size, fat, parent, r).0 == Success
    requires var (e, after, kid) := MakeTable(size, fat, parent, r);
             && MakeDirs(size, after, kid, path).0 == Success && Lookup(MakeDirs(size, after, kid, path).2, path).Some?
             && var t := MakeDirs(size, after, kid, path).2; var dir := At(t, Lookup(t, path).value);
                i < |dir.kids| && NoDot(dir.kids[i].rec)
    ensures var (e, after, kid) := MakeTable(size, fat, parent, r);
            var t := MakeDirs(size, after, kid, path).2;
            At(t, Lookup(t, path).value).kids[i].rec == EMPTY
    decreases |path|
  {
    var (e, after, kid) := MakeTable(size, fat, parent, r);
    NewTableNames(size, fat, parent, r);
    if path == [] {
      assert DOT_NAME[0] == DOT && DOT_DOT_NAME[0] == DOT;
    } else {
      PlainRest(path);
      var j := FindFree(kid.kids, 0);
      var t := MakeDirs(size, after, kid, path).2;
      assert FindFrom(kid.kids, path[0], 0) == |kid.kids|;
      NewInSlot(size, after, kid, path);
      NewSlots(size, after, kid.rec, kid.kids[j].rec.(name := path[0]), path[1..], i);
    }
  }

  /** The first component is made in the first free slot. */
  lemma NewInSlot(size: nat, fat: Table, t: Tree, path: Path)
    requires 0 < size && Indexable(fat) && path != [] && Plain(path) && MakeDirs(size, fat, t, path).0 == Success
    requires FindFrom(t.kids, path[0], 0) == |t.kids| && Lookup(MakeDirs(size, fat, t, path).2, path).Some?
    ensures var j := FindFree(t.kids, 0); j < |t.kids|
    ensures var j := FindFree(t.kids, 0);
            var (e, after, kid) := MakeTable(size, fat, t.rec, t.kids[j].rec.(name := path[0]));
            && e == Success && MakeDirs(size, after, kid, path[1..]).0 == Success
            && var t', kid' := MakeDirs(size, fat, t, path).2, MakeDirs(size, after, kid, path[1..]).2;
               && Lookup(kid', path[1..]).Some? && Lookup(t', path).value == [j] + Lookup(kid', path[1..]).value
               && At(t', Lookup(t', path).value) == At(kid', Lookup(kid', path[1..]).value)
  {
    var j := FindFree(t.kids, 0);
    var t' := MakeDirs(size, fat, t, path).2;
    NewTableNames(size, fat, t.rec, t.kids[j].rec.(name := path[0]));
    PlainRest(path);
    FindIsFirst(t'.kids, path[0], j);
  }

  /** What a slot of the directory at the end of a path held before directories were made: its record, or nothing. */
  ghost function HeldAt(t: Tree, a: Address): Record {
    if Valid(t, a) then At(t, a).rec else EMPTY
  }

  lemma HeldBelow(t: Tree, k: nat, x: Address)
    requires k < |t.kids|
    ensures HeldAt(t, [k] + x) == HeldAt(t.kids[k], x)
    ensures t.kids[k].kids == [] && x != [] ==> HeldAt(t, [k] + x) == EMPTY
  {
    assert ([k] + x)[1..] == x;
  }

  lemma SoundKid(g: Geometry, f: Table, t: Tree, k: nat)
    requires DirSound(g, f, t.kids) && k < |t.kids|
    ensures PlainName(t.kids[k].rec.name) && IsDirectory(t.kids[k].rec) ==> DirSound(g, f, t.kids[k].kids)
    ensures !Used(t.kids[k].rec) ==> t.kids[k].kids == []
  {
    assert SlotSound(g, f, t.kids[k]);
    assert PlainName(t.kids[k].rec.name) && IsDirectory(t.kids[k].rec) ==> Descends(t.kids[k].rec);
  }

  lemma {:induction false} MadeSlots(g: Geometry, f: Table, fat: Table, t: Tree, path: Path, i: nat)
    requires 0 < g.clusterSize && Indexable(fat) && Plain(path) && DirSound(g, f, t.kids) && IsDirectory(t.rec)
    requires MakeDirs(g.clusterSize, fat, t, path).0 == Success
    requires var t' := MakeDirs(g.clusterSize, fat, t, path).2;
             && Lookup(t', path).Some?
             && var dir := At(t', Lookup(t', path).value); i < |dir.kids| && NoDot(dir.kids[i].rec)
    ensures var t' := MakeDirs(g.clusterSize, fat, t, path).2; var b := Lookup(t', path).value;
            At(t', b).kids[i].rec == HeldAt(t, b + [i])
    decreases |path|
  {
    hide DirSound;
    var t' := MakeDirs(g.clusterSize, fat, t, path).2;
    var b := Lookup(t', path).value;
    if path == [] {
      assert b + [i] == [i] + [];
      HeldBelow(t, i, []);
      assert HeldAt(t.kids[i], []) == t.kids[i].rec;
    } else if FindFrom(t.kids, path[0], 0) < |t.kids| {
      MadeInExisting(g, f, fat, t, path, i);
    } else {
      MadeInNew(g, f, fat, t, path, i);
    }
  }

  lemma {:induction false} MadeInExisting(g: Geometry, f: Table, fat: Table, t: Tree, path: Path, i: nat)
    requires 0 < g.clusterSize && Indexable(fat) && Plain(path) && DirSound(g, f, t.kids) && path != []
    requires MakeDirs(g.clusterSize, fat, t, path).0 == Success && FindFrom(t.kids, path[0], 0) < |t.kids|
    requires var t' := MakeDirs(g.clusterSize, fat, t, path).2;
             && Lookup(t', path).Some?
             && var dir := At(t', Lookup(t', path).value); i < |dir.kids| && NoDot(dir.kids[i].rec)
    ensures var t' := MakeDirs(g.clusterSize, fat, t, path).2; var b := Lookup(t', path).value;
            At(t', b).kids[i].rec == HeldAt(t, b + [i])
    decreases |path|, 0
  {
    hide DirSound, HeldAt, MakeDirs, Lookup;
    var k := FindFrom(t.kids, path[0], 0);
    PlainRest(path);
    SoundKid(g, f, t, k);
    InExisting(g.clusterSize, fat, t, path);
    MadeSlots(g, f, fat, t.kids[k], path[1..], i);
    var b' := Lookup(MakeDirs(g.clusterSize, fat, t.kids[k], path[1..]).2, path[1..]).value;
    assert ([k] + b') + [i] == [k] + (b' + [i]);
    HeldBelow(t, k, b' + [i]);
  }

  lemma MadeInNew(g: Geometry, f: Table, fat: Table, t: Tree, path: Path, i: nat)
    requires 0 < g.clusterSize && Indexable(fat) && Plain(path) && DirSound(g, f, t.kids) && path != []
    requires MakeDirs(g.clusterSize, fat, t, path).0 == Success && FindFrom(t.kids, path[0], 0) == |t.kids|
    requires var t' := MakeDirs(g.clusterSize, fat, t, path).2;
             && Lookup(t', path).Some?
             && var dir := At(t', Lookup(t', path).value); i < |dir.kids| && NoDot(dir.kids[i].rec)
    ensures var t' := MakeDirs(g.clusterSize, fat, t, path).2; var b := Lookup(t', path).value;
            At(t', b).kids[i].rec == HeldAt(t, b + [i])
  {
    hide DirSound, HeldAt, MakeDirs, Lookup, MakeTable;
    var j := FindFree(t.kids, 0);
    PlainRest(path);
    NewInSlot(g.clusterSize, fat, t, path);
    NewSlots(g.clusterSize, fat, t.rec, t.kids[j].rec.(name := path[0]), path[1..], i);
    SoundKid(g, f, t, j);
    var (e, after, kid) := MakeTable(g.clusterSize, fat, t.rec, t.kids[j].rec.(name := path[0]));
    var b' := Lookup(MakeDirs(g.clusterSize, after, kid, path[1..]).2, path[1..]).value;
    assert ([j] + b') + [i] == [j] + (b' + [i]);
    HeldBelow(t, j, b' + [i]);
  }

  /** The first component exists. */
  lemma InExisting(size: nat, fat: Table, t: Tree, path: Path)
    requires 0 < size && Indexable(fat) && path != [] && Plain(path) && MakeDirs(size, fat, t, path).0 == Success
    requires FindFrom(t.kids, path[0], 0) < |t.kids| && Lookup(MakeDirs(size, fat, t, path).2, path).Some?
    ensures var k := FindFrom(t.kids, path[0], 0);
            && IsDirectory(t.kids[k].rec) && MakeDirs(size, fat, t.kids[k], path[1..]).0 == Success
            && var t', kid' := MakeDirs(size, fat, t, path).2, MakeDirs(size, fat, t.kids[k], path[1..]).2;
               && Lookup(kid', path[1..]).Some? && Lookup(t', path).value == [k] + Lookup(kid', path[1..]).value
               && At(t', Lookup(t', path).value) == At(kid', Lookup(kid', path[1..]).value)
  {
    var k := FindFrom(t.kids, path[0], 0);
    var t' := MakeDirs(size, fat, t, path).2;
    SameNames(t.kids, t'.kids, path[0], 0);
  }

  // ----- the record of the new entry -----

  /** The new entry for a file of `size` bytes in a slot that held `o`. */
  ghost predicate NewEntry(r: Record, o: Record, name: ShortName, size: nat, stamp: Stamp) {
    && r.name == name && r.fileSize == size
    && r.attributes == (if o.attributes as int / 0x20 % 2 == 1 then o.attributes as int else o.attributes as int + 0x20)
    && r.attributes as int / 0x20 % 2 == 1 && r.userAttributes == o.userAttributes && r.accessRights == o.accessRights
    && r.createDate == stamp.date && r.passwordHashOrCreateTime == stamp.time
    && r.createTimeOrFirstCharacter == stamp.msecs
    && r.lastModifiedDate == stamp.date && r.lastModifiedTime == stamp.time && r.ownerIdOrLastAccessDate == stamp.date
  }

  lemma FilledIn(o: Record, name: ShortName, first: U16, size: U32, stamp: Stamp)
    ensures NewEntry(FileRecord(o.(name := name), first, size, stamp), o, name, size, stamp)
  {
  }

  /** The entry takes a slot without a dot name. */
  lemma SlotForNoDot(kids: seq<Tree>, name: ShortName)
    requires PlainName(name) && SlotFor(kids, name) < |kids|
    ensures NoDot(kids[SlotFor(kids, name)].rec)
  {
  }

  /** The entry of the finished file. */
  lemma FileEntry(g: Geometry, fat: Table, root: Tree, path: Path, first: U16, n: U32, stamp: Stamp)
    requires ReadyFor(g, fat, root, path, first)
    ensures var t' := WithFile(g, fat, root, path, first, n, stamp);
            && Lookup(t', path).Some?
            && var a := Lookup(t', path).value; NewEntry(At(t', a).rec, HeldAt(root, a), LastOf(path), n, stamp)
  {
    var dir, name := DirOf(path), LastOf(path);
    var t, a := Prepared(g, fat, root, path), CreateEntry(g.clusterSize, fat, root, path).3;
    PlainRest(path);
    WithFileLookup(g, fat, root, path, first, n, stamp, path);
    WithFileIsSet(g, fat, root, path, first, n, stamp);
    EntryPlace(g.clusterSize, fat, root, path);
    var kids := At(t, Lookup(t, dir).value).kids;
    SlotForNoDot(kids, name);
    MadeSlots(g, fat, fat, root, dir, SlotFor(kids, name));
    var r := FileRecord(At(t, a).rec.(name := name), first, n, stamp);
    SetRecordElsewhere(t, a, r, a);
    FilledIn(At(t, a).rec, name, first, n, stamp);
  }

  /** The directories on the way to the new entry. */
  lemma WayIsThere(g: Geometry, fat: Table, root: Tree, path: Path, first: U16, n: U32, stamp: Stamp, k: nat)
    requires ReadyFor(g, fat, root, path, first) && 0 < k < |path|
    ensures var t' := WithFile(g, fat, root, path, first, n, stamp);
            Lookup(t', path[..k]).Some? && IsDirectory(At(t', Lookup(t', path[..k]).value).rec)
  {
    var t, t' := Prepared(g, fat, root, path), WithFile(g, fat, root, path, first, n, stamp);
    var q, a := path[..k], CreateEntry(g.clusterSize, fat, root, path).3;
    PlainRest(path);
    EntryPlace(g.clusterSize, fat, root, path);
    MakeDirsPrefix(g.clusterSize, fat, root, DirOf(path), q);
    WithFileLookup(g, fat, root, path, first, n, stamp, q);
    WithFileLookup(g, fat, root, path, first, n, stamp, path);
    WithFileIsSet(g, fat, root, path, first, n, stamp);
    SetRecordElsewhere(t, a, FileRecord(At(t, a).rec.(name := LastOf(path)), first, n, stamp), Lookup(t, q).value);
  }

  // ----- f12_put -----

  /** A put is done: there is something to store, with room for it below 64 KiB, and a place for the path. */
  ghost predicate PutFits(v: Volume, path: Path, src: seq<Byte>)
    requires VolumeSound(v) && path != []
  {
    && src != [] && FileSpan(v, src) < 0x1_0000 && HasPlace(v.root, path)
    && Needed(v, path, src) <= Room(Areas(v.bpb), v.fat)
  }

  /** Paths that a put leaves alone: those of other entries, and those that do not begin its own. */
  ghost predicate Beside(t: Tree, path: Path, r: Path) {
    r != path && (Lookup(t, r).Some? || !(r <= path))
  }

  /**
   The file is at the path in a new entry, below directories; every other path holds what it held, and every other
   entry has its record.
   */
  ghost predicate Stored(d: Disk, v: Volume, path: Path, src: seq<Byte>, stamp: Stamp, after: Disk, w: Volume)
    requires VolumeSound(v) && Fits(Areas(v.bpb), d) && path != []
  {
    && ReadsAs(after, v, w)
    && (forall r :: Plain(r) ==> FileContent(after, w, r) == if r == path then Some(src) else FileContent(d, v, r))
    && (forall r :: Plain(r) && Beside(v.root, path, r) ==> RecordAt(w.root, r) == RecordAt(v.root, r))
    && (forall k :: 0 < k < |path| ==>
          Lookup(w.root, path[..k]).Some? && At(w.root, Lookup(w.root, path[..k]).value).rec.attributes as int / 0x10 % 2 == 1)
    && Lookup(w.root, path).Some?
    && var a := Lookup(w.root, path).value; NewEntry(At(w.root, a).rec, HeldAt(v.root, a), LastOf(path), |src|, stamp)
  }

  ghost predicate IsStored(d: Disk, v: Volume, path: Path, src: seq<Byte>, stamp: Stamp, after: Disk)
    requires VolumeSound(v) && Fits(Areas(v.bpb), d) && path != []
  {
    exists w :: Stored(d, v, path, src, stamp, after, w)
  }

  /** A put is done exactly if it fits. If not, the image reads as the same metadata, and every path holds what it held. */
  ghost predicate PutPromise(d: Disk, v: Volume, path: Path, src: seq<Byte>, stamp: Stamp, done: bool, after: Disk)
    requires VolumeSound(v) && Fits(Areas(v.bpb), d) && path != []
  {
    && (done <==> PutFits(v, path, src))
    && (done ==> IsStored(d, v, path, src, stamp, after))
    && (!done ==> ReadsAs(after, v, v) && forall r :: Plain(r) ==> FileContent(after, v, r) == FileContent(d, v, r))
  }

  lemma CreatedReady(v: Volume, path: Path, src: seq<Byte>, d: Disk, stamp: Stamp)
    requires Putable(v, path, src) && src != [] && Fits(Areas(v.bpb), d) && CreateFile(d, v, path, src, stamp).0 == Success
    ensures var (first, fat) := Allocated(v, src);
            && ReadyFor(Areas(v.bpb), fat, v.root, path, first)
            && CreateFile(d, v, path, src, stamp).2.root == WithFile(Areas(v.bpb), fat, v.root, path, first, |src|, stamp)
  {
    CreateFileSucceeds(d, v, path, src, stamp);
    FileChainApart(v, path, src);
  }

  /** The records of the paths beside, before the metadata are written. */
  lemma BesideKept(d: Disk, v: Volume, path: Path, src: seq<Byte>, stamp: Stamp, r: Path)
    requires Putable(v, path, src) && src != [] && Fits(Areas(v.bpb), d) && CreateFile(d, v, path, src, stamp).0 == Success
    requires Plain(r) && Beside(v.root, path, r)
    ensures RecordAt(CreateFile(d, v, path, src, stamp).2.root, r) == RecordAt(v.root, r)
  {
    var (e, d', v') := CreateFile(d, v, path, src, stamp);
    CreateFileSucceeds(d, v, path, src, stamp);
    CreatedReady(v, path, src, d, stamp);
    if r == [] {
      RootKept(v, path, src, d, stamp);
    } else {
      OldRecord(v, path, src, stamp, d, d', v', r);
      if Lookup(v.root, r).None? {
        NothingMade(Areas(v.bpb), Allocated(v, src).1, v.root, path, Allocated(v, src).0, |src|, stamp, r);
      }
    }
  }

  lemma RootKept(v: Volume, path: Path, src: seq<Byte>, d: Disk, stamp: Stamp)
    requires Putable(v, path, src) && src != [] && Fits(Areas(v.bpb), d) && CreateFile(d, v, path, src, stamp).0 == Success
    ensures CreateFile(d, v, path, src, stamp).2.root.rec == v.root.rec
  {
    CreatedReady(v, path, src, d, stamp);
    WithFileSound(Areas(v.bpb), Allocated(v, src).1, v.root, path, Allocated(v, src).0, |src|, stamp);
  }

  lemma NothingMade(g: Geometry, fat: Table, root: Tree, path: Path, first: U16, n: U32, stamp: Stamp, r: Path)
    requires ReadyFor(g, fat, root, path, first) && Plain(r) && !(r <= path) && Lookup(root, r).None?
    ensures Lookup(WithFile(g, fat, root, path, first, n, stamp), r).None?
  {
    PlainRest(path);
    WithFileLookup(g, fat, root, path, first, n, stamp, r);
    MakeDirsLookup(g.clusterSize, fat, root, DirOf(path), r);
  }

  lemma SameAfterWrite(w: Volume, r: Path)
    requires VolumeSound(w) && Plain(r)
    ensures Lookup(FilledVolume(w).root, r) == Lookup(w.root, r) && RecordAt(FilledVolume(w).root, r) == RecordAt(w.root, r)
  {
    FilledRootLookup(w, r);
  }

  lemma WayIsStored(d: Disk, v: Volume, path: Path, src: seq<Byte>, stamp: Stamp, w: Volume, k: nat)
    requires Putable(v, path, src) && src != [] && Fits(Areas(v.bpb), d) && CreateFile(d, v, path, src, stamp).0 == Success
    requires w == CreateFile(d, v, path, src, stamp).2 && VolumeSound(w) && 0 < k < |path|
    ensures var t := FilledVolume(w).root;
            Lookup(t, path[..k]).Some? && At(t, Lookup(t, path[..k]).value).rec.attributes as int / 0x10 % 2 == 1
  {
    CreatedReady(v, path, src, d, stamp);
    WayIsThere(Areas(v.bpb), Allocated(v, src).1, v.root, path, Allocated(v, src).0, |src|, stamp, k);
    SameAfterWrite(w, path[..k]);
  }

  lemma EntryIsStored(d: Disk, v: Volume, path: Path, src: seq<Byte>, stamp: Stamp, w: Volume)
    requires Putable(v, path, src) && src != [] && Fits(Areas(v.bpb), d) && CreateFile(d, v, path, src, stamp).0 == Success
    requires w == CreateFile(d, v, path, src, stamp).2 && VolumeSound(w)
    ensures var t := FilledVolume(w).root;
            && Lookup(t, path).Some?
            && var a := Lookup(t, path).value; NewEntry(At(t, a).rec, HeldAt(v.root, a), LastOf(path), |src|, stamp)
  {
    CreatedReady(v, path, src, d, stamp);
    FileEntry(Areas(v.bpb), Allocated(v, src).1, v.root, path, Allocated(v, src).0, |src|, stamp);
    SameAfterWrite(w, path);
  }

  /** A successful put, written. */
  lemma PutIsStored(d: Disk, v: Volume, path: Path, src: seq<Byte>, stamp: Stamp)
    requires PutServed(v, path, src) && Fits(Areas(v.bpb), d) && CreateFile(d, v, path, src, stamp).0 == Success
    ensures var (e, d', w) := CreateFile(d, v, path, src, stamp);
            && VolumeSound(w) && w.bpb == v.bpb && Fits(Areas(w.bpb), d')
            && IsStored(d, v, path, src, stamp, WriteMetadata(d', w))
  {
    hide CreateFile, FilledVolume, WriteMetadata, HasPlace, NewEntry, Needed, FileSpan, Created, ReadsAs, VolumeSound;
    var (e, d', w) := CreateFile(d, v, path, src, stamp);
    Runs.PutSound(d, v, path, src, stamp);
    WrittenReads(d', v, w);
    var after, t := WriteMetadata(d', w), FilledVolume(w);
    forall r | Plain(r) ensures FileContent(after, t, r) == if r == path then Some(src) else FileContent(d, v, r) {
      PutContent(d, v, path, src, stamp, r);
      WriteKeepsContents(d', w, r);
    }
    forall r | Plain(r) && Beside(v.root, path, r) ensures RecordAt(t.root, r) == RecordAt(v.root, r) {
      BesideKept(d, v, path, src, stamp, r);
      SameAfterWrite(w, r);
    }
    forall k | 0 < k < |path|
      ensures Lookup(t.root, path[..k]).Some? &&
              At(t.root, Lookup(t.root, path[..k]).value).rec.attributes as int / 0x10 % 2 == 1
    {
      WayIsStored(d, v, path, src, stamp, w, k);
    }
    EntryIsStored(d, v, path, src, stamp, w);
    assert Stored(d, v, path, src, stamp, after, t);
  }

  /** The command of a run keeps the promise. */
  lemma PutKeepsPromise(d: Disk, v: Volume, path: Path, src: seq<Byte>, stamp: Stamp)
    requires PutServed(v, path, src) && ReadsVolume(d, v)
    ensures var c := PutFile(path, src, stamp);
            PutPromise(d, v, path, src, stamp, Changed(d, v, c).Some?, Outcome(d, v, c).0)
  {
    ServedPutSucceeds(d, v, path, src, stamp);
    if CreateFile(d, v, path, src, stamp).0 == Success {
      PutIsStored(d, v, path, src, stamp);
    } else {
      forall r | Plain(r) ensures ReadsVolume(CreateFile(d, v, path, src, stamp).1, v) &&
                                  FileContent(CreateFile(d, v, path, src, stamp).1, v, r) == FileContent(d, v, r) {
        FailedPutIsInvisible(d, v, path, src, stamp, r);
      }
      assert Plain([]);
    }
  }
}
