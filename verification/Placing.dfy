/** When an entry can be made: a condition on the tree that can be checked before the call (src/libfat12/io.c, path.c). */
module Placing {
  import opened Records
  import opened Errors
  import opened Fat
  import opened Disks
  import opened Trees
  import opened Creation

  /**
   Every existing component before the last is a directory, and the deepest existing directory has the next
   component or a free slot for it.
   */
  ghost predicate HasPlace(t: Tree, path: Path)
    requires path != []
    decreases |path|
  {
    var i := FindFrom(t.kids, path[0], 0);
    if i < |t.kids| then |path| == 1 || (IsDirectory(t.kids[i].rec) && HasPlace(t.kids[i], path[1..]))
    else FindFree(t.kids, 0) < |t.kids|
  }

  /** The entry finds a slot in the directory that directory creation leaves. */
  ghost predicate Placed(size: nat, fat: Table, t: Tree, dir: Path, name: ShortName)
    requires 0 < size && Indexable(fat)
  {
    var (e, after, t') := MakeDirs(size, fat, t, dir);
    && e == Success && Lookup(t', dir).Some?
    && SlotFor(At(t', Lookup(t', dir).value).kids, name) < |At(t', Lookup(t', dir).value).kids|
  }

  /** A new directory has a place for every path. */
  lemma NewDirHasPlace(size: nat, fat: Table, parent: Record, r: Record, path: Path)
    requires 0 < size && Indexable(fat) && path != [] && Plain(path) && MakeTable(size, fat, parent, r).0 == Success
    ensures HasPlace(MakeTable(size, fat, parent, r).2, path)
  {
    var kids := MakeTable(size, fat, parent, r).2.kids;
    PlainRest(path);
    NewTableNames(size, fat, parent, r);
    EmptyRecordIsZero();
    assert kids[2] == FREE;
    assert FindFree(kids, 0) <= 2;
  }

  /** The rest of the path is placed in the kid `i`, which holds the first component. */
  lemma PlacedInKid(t: Tree, i: nat, kid: Tree, dir: Path, name: ShortName)
    requires dir != [] && i < |t.kids| && FindFrom(WithKid(t, i, kid).kids, dir[0], 0) == i
    ensures var t' := WithKid(t, i, kid);
            && (Lookup(t', dir).Some? <==> Lookup(kid, dir[1..]).Some?)
            && (Lookup(kid, dir[1..]).Some? ==>
                  At(t', Lookup(t', dir).value) == At(kid, Lookup(kid, dir[1..]).value))
  {
    if Lookup(kid, dir[1..]).Some? {
      var b := Lookup(kid, dir[1..]).value;
      assert ([i] + b)[1..] == b;
    }
  }

  /** With clusters for the missing directories, placing succeeds exactly when there is a place. */
  lemma {:induction false} PlacedIffPlace(g: Geometry, fat: Table, t: Tree, dir: Path, name: ShortName)
    requires Allocatable(g, fat) && IsDirectory(t.rec) && Plain(dir) && PlainName(name)
    requires Span(Missing(t, dir), TableClusters(g.clusterSize)) <= Room(g, fat)
    ensures Placed(g.clusterSize, fat, t, dir, name) <==> HasPlace(t, dir + [name])
    decreases |dir|
  {
    var path := dir + [name];
    if dir == [] {
      assert path == [name];
    } else {
      PlainRest(dir);
      assert path[0] == dir[0] && path[1..] == dir[1..] + [name];
      var i, j := FindFrom(t.kids, dir[0], 0), FindFree(t.kids, 0);
      if i < |t.kids| {
        if IsDirectory(t.kids[i].rec) {
          PlacedIffPlace(g, fat, t.kids[i], dir[1..], name);
          var kid := MakeDirs(g.clusterSize, fat, t.kids[i], dir[1..]).2;
          SameNames(t.kids, WithKid(t, i, kid).kids, dir[0], 0);
          PlacedInKid(t, i, kid, dir, name);
        }
      } else if j < |t.kids| {
        PlacedInNew(g, fat, t, dir, name, j);
      }
    }
  }

  /** The case of a new directory in the free slot `j`. */
  lemma {:induction false} PlacedInNew(g: Geometry, fat: Table, t: Tree, dir: Path, name: ShortName, j: nat)
    requires Allocatable(g, fat) && IsDirectory(t.rec) && Plain(dir) && PlainName(name) && dir != []
    requires FindFrom(t.kids, dir[0], 0) == |t.kids| && j == FindFree(t.kids, 0) < |t.kids|
    requires Span(|dir|, TableClusters(g.clusterSize)) <= Room(g, fat)
    ensures Placed(g.clusterSize, fat, t, dir, name)
    decreases |dir|, 0
  {
    PlainRest(dir);
    var size, r, rest := g.clusterSize, t.kids[j].rec.(name := dir[0]), dir[1..];
    MakeTableSound(g, fat, t.rec, r);
    var (e, mid, kid) := MakeTable(size, fat, t.rec, r);
    FreshTableHasNoPlainName(size, fat, t.rec, r, rest);
    NewDirHasPlace(size, fat, t.rec, r, rest + [name]);
    PlacedIffPlace(g, mid, kid, rest, name);
    var below := MakeDirs(size, mid, kid, rest).2;
    FindIsFirst(WithKid(t, j, below).kids, dir[0], j);
    PlacedInKid(t, j, below, dir, name);
  }

  /** lf12_create_entry_from_path succeeds exactly when there is a place for the path. */
  lemma CreateEntryIffPlace(g: Geometry, fat: Table, root: Tree, path: Path)
    requires Allocatable(g, fat) && IsDirectory(root.rec) && Plain(path) && path != []
    requires Span(Missing(root, path[..|path| - 1]), TableClusters(g.clusterSize)) <= Room(g, fat)
    ensures CreateEntry(g.clusterSize, fat, root, path).0 == Success <==> HasPlace(root, path)
  {
    hide HasPlace;
    var dir, name := path[..|path| - 1], path[|path| - 1];
    PlainRest(path);
    assert path == dir + [name];
    PlacedIffPlace(g, fat, root, dir, name);
  }
}
