/** How changes of the tree change what paths lead to. */
module Lookups {
  import opened Records
  import opened Options
  import opened Errors
  import opened Fat
  import opened Trees
  import opened Creation

  // ----- one changed slot of a directory -----

  lemma {:induction false} FindOther(kids: seq<Tree>, i: nat, kid: Tree, name: ShortName, from: nat)
    requires i < |kids| && from <= |kids| && kid.rec.name != name && kids[i].rec.name != name
    ensures FindFrom(kids[i := kid], name, from) == FindFrom(kids, name, from)
    decreases |kids| - from
  {
    if from < |kids| {
      FindOther(kids, i, kid, name, from + 1);
    }
  }

  /** `a` in front of the address that was found. */
  function Below(a: Address, r: Option<Address>): Option<Address> {
    match r case None => None case Some(b) => Some(a + b)
  }

  /** Looking up in a directory where one slot's table changed. */
  lemma LookupWithKid(t: Tree, k: nat, kid: Tree, q: Path)
    requires k < |t.kids| && kid.rec.name == t.kids[k].rec.name
    ensures q == [] || FindFrom(t.kids, q[0], 0) != k ==> Lookup(WithKid(t, k, kid), q) == Lookup(t, q)
    ensures q != [] && FindFrom(t.kids, q[0], 0) == k ==>
              Lookup(WithKid(t, k, kid), q) == Below([k], Lookup(kid, q[1..]))
  {
    if q != [] {
      SameNames(t.kids, WithKid(t, k, kid).kids, q[0], 0);
    }
  }

  lemma LookupLeaf(t: Tree, q: Path)
    requires t.kids == []
    ensures Lookup(t, q) == if q == [] then Some([]) else None
  {
  }

  lemma PrefixStep(q: Path, path: Path)
    requires q != [] && path != []
    ensures q <= path <==> q[0] == path[0] && q[1..] <= path[1..]
  {
    assert q == [q[0]] + q[1..] && path == [path[0]] + path[1..];
  }

  lemma PutBelow(t: Tree, k: nat, a: Address, u: Tree)
    requires k < |t.kids| && Valid(t.kids[k], a)
    ensures Valid(t, [k] + a) && Put(t, [k] + a, u) == WithKid(t, k, Put(t.kids[k], a, u))
    ensures a != [] ==> Put(t.kids[k], a, u).rec == t.kids[k].rec
  {
    assert ([k] + a)[1..] == a;
  }

  lemma BelowTwice(k: nat, a: Address, r: Option<Address>)
    ensures Below([k], Below(a, r)) == Below([k] + a, r)
  {
    if r.Some? {
      assert [k] + (a + r.value) == ([k] + a) + r.value;
    }
  }

  // ----- a new entry in a free slot -----

  /** The free slot `i` of a directory, in which no entry has the name. */
  ghost predicate FreeFor(dir: Tree, i: nat, name: ShortName) {
    FreeAt(dir, i) && FindFrom(dir.kids, name, 0) == |dir.kids|
  }

  /** A free slot with nothing below it. */
  ghost predicate FreeAt(dir: Tree, i: nat) {
    i < |dir.kids| && !Used(dir.kids[i].rec) && dir.kids[i].kids == []
  }

  /** An entry before slot `i` has the name: what is put there is not found. */
  ghost predicate Hides(dir: Tree, i: nat, name: ShortName) {
    FindFrom(dir.kids, name, 0) < i
  }

  lemma InsertKid(t: Tree, i: nat, u: Tree, q: Path)
    requires Plain(q) && PlainName(u.rec.name) && FreeAt(t, i)
    ensures Lookup(WithKid(t, i, u), q) ==
            if [u.rec.name] <= q && !Hides(t, i, u.rec.name) then Below([i], Lookup(u, q[1..])) else Lookup(t, q)
  {
    var t' := WithKid(t, i, u);
    if q != [] {
      PlainRest(q);
      PrefixStep([u.rec.name], q);
      if q[0] == u.rec.name {
        FindIsFirst(t'.kids, q[0], if Hides(t, i, q[0]) then FindFrom(t.kids, q[0], 0) else i);
      } else {
        FindOther(t.kids, i, u, q[0], 0);
      }
    }
  }

  /**
   Putting `u` into the free slot `i` of the directory at `p` affects exactly the paths through the new entry, which
   hides entries of its name in later slots; if an earlier slot has the name, it is hidden itself.
   */
  lemma {:induction false} Insert(t: Tree, p: Path, i: nat, u: Tree, q: Path)
    requires Lookup(t, p).Some? && Plain(q) && PlainName(u.rec.name) && FreeAt(At(t, Lookup(t, p).value), i)
    ensures var a := Lookup(t, p).value + [i];
            Valid(t, a) && Lookup(Put(t, a, u), q) ==
            if p + [u.rec.name] <= q && !Hides(At(t, Lookup(t, p).value), i, u.rec.name)
            then Below(a, Lookup(u, q[|p| + 1..])) else Lookup(t, q)
    decreases |p|
  {
    var b, name := Lookup(t, p).value, u.rec.name;
    ValidAppend(t, b, [i]);
    if p == [] {
      assert b + [i] == [i] && p + [name] == [name] && [i][1..] == [];
      InsertKid(t, i, u, q);
    } else {
      var k := FindFrom(t.kids, p[0], 0);
      var a := b[1..] + [i];
      assert b + [i] == [k] + a;
      PutBelow(t, k, a, u);
      LookupWithKid(t, k, Put(t.kids[k], a, u), q);
      if q != [] {
        PrefixStep(p + [name], q);
        assert (p + [name])[1..] == p[1..] + [name];
        if q[0] == p[0] {
          PlainRest(q);
          Insert(t.kids[k], p[1..], i, u, q[1..]);
          if p + [name] <= q {
            assert q[1..][|p[1..]| + 1..] == q[|p| + 1..];
            BelowTwice(k, a, Lookup(u, q[|p| + 1..]));
          }
        }
      }
    }
  }

  // ----- a removed entry -----

  /** No other slot of the directory has the name of slot `i`. */
  ghost predicate OnlyName(kids: seq<Tree>, i: nat)
    requires i < |kids|
  {
    forall j :: 0 <= j < |kids| && j != i ==> kids[j].rec.name != kids[i].rec.name
  }

  /** Where the rest of a path leads in the next slot that has the name of slot `i`. */
  ghost function InNext(dir: Tree, i: nat, rest: Path): (r: Option<Address>)
    requires i < |dir.kids|
    ensures r.Some? ==> Valid(dir, r.value)
  {
    var j := FindFrom(dir.kids, dir.kids[i].rec.name, i + 1);
    if j == |dir.kids| then None else Below([j], Lookup(dir.kids[j], rest))
  }

  lemma RemoveKid(t: Tree, i: nat, q: Path)
    requires Plain(q) && i < |t.kids| && PlainName(t.kids[i].rec.name) && i == FindFrom(t.kids, t.kids[i].rec.name, 0)
    ensures Lookup(WithKid(t, i, FREE), q) ==
            if [t.kids[i].rec.name] <= q then InNext(t, i, q[1..]) else Lookup(t, q)
  {
    EmptyRecordIsZero();
    var t' := WithKid(t, i, FREE);
    if q != [] {
      PlainRest(q);
      PrefixStep([t.kids[i].rec.name], q);
      if q[0] == t.kids[i].rec.name {
        NextIsFirst(t.kids, i);
      } else {
        FindOther(t.kids, i, FREE, q[0], 0);
      }
    }
  }

  /** Without slot `i` the next of its name is the first. */
  lemma NextIsFirst(kids: seq<Tree>, i: nat)
    requires i < |kids| && PlainName(kids[i].rec.name) && i == FindFrom(kids, kids[i].rec.name, 0)
    ensures FindFrom(kids[i := FREE], kids[i].rec.name, 0) == FindFrom(kids, kids[i].rec.name, i + 1)
  {
    EmptyRecordIsZero();
    var name := kids[i].rec.name;
    var r, j := FindFrom(kids[i := FREE], name, 0), FindFrom(kids, name, i + 1);
    assert r < |kids| ==> r != i && kids[r].rec.name == name;
    assert j < |kids| ==> kids[i := FREE][j].rec.name == name;
  }

  lemma BelowValid(t: Tree, a: Address, r: Option<Address>)
    requires Valid(t, a) && (r.Some? ==> Valid(At(t, a), r.value))
    ensures var x := Below(a, r); x.Some? ==> Valid(t, x.value)
  {
    if r.Some? {
      ValidAppend(t, a, r.value);
    }
  }

  /**
   Where a path leads without the entry at `p`: a path through it leads through the next slot of the same name in its
   directory, if there is one.
   */
  ghost function Remaining(t: Tree, p: Path, q: Path): (r: Option<Address>)
    requires p != [] && Lookup(t, p).Some?
    ensures r.Some? ==> Valid(t, r.value)
  {
    var a := Lookup(t, p).value;
    if p <= q then
      SlotOfLookup(t, p);
      var rest := InNext(At(t, a[..|a| - 1]), a[|a| - 1], q[|p|..]);
      BelowValid(t, a[..|a| - 1], rest);
      Below(a[..|a| - 1], rest)
    else Lookup(t, q)
  }

  /** The slot of a path in its directory is the first of its name. */
  lemma {:induction false} SlotOfLookup(t: Tree, p: Path)
    requires p != [] && Lookup(t, p).Some?
    ensures var a := Lookup(t, p).value;
            var dir, i := a[..|a| - 1], a[|a| - 1];
            && Valid(t, dir) && i < |At(t, dir).kids| && At(t, dir).kids[i] == At(t, a)
            && i == FindFrom(At(t, dir).kids, p[|p| - 1], 0)
    decreases |p|
  {
    var a, k := Lookup(t, p).value, FindFrom(t.kids, p[0], 0);
    assert a == [k] + a[1..];
    if |p| == 1 {
      assert a[1..] == [] && a[..|a| - 1] == [];
    } else {
      assert a[..|a| - 1] == [k] + a[1..][..|a[1..]| - 1];
      SlotOfLookup(t.kids[k], p[1..]);
    }
  }

  lemma RemainingBelow(t: Tree, p: Path, q: Path)
    requires |p| > 1 && Lookup(t, p).Some? && p <= q
    ensures var k := FindFrom(t.kids, p[0], 0);
            Remaining(t, p, q) == Below([k], Remaining(t.kids[k], p[1..], q[1..]))
  {
    var a, k := Lookup(t, p).value, FindFrom(t.kids, p[0], 0);
    var kid, dir, i := t.kids[k], a[1..][..|a| - 2], a[|a| - 1];
    SlotOfLookup(t, p);
    SlotOfLookup(kid, p[1..]);
    PrefixStep(p, q);
    assert a[..|a| - 1] == [k] + dir && a[1..][|a[1..]| - 1] == i && q[1..][|p[1..]|..] == q[|p|..];
    BelowTwice(k, dir, InNext(At(kid, dir), i, q[|p|..]));
  }

  /** Clearing the slot of `p` makes exactly the paths through it lead to what remains. */
  lemma {:induction false} Remove(t: Tree, p: Path, q: Path)
    requires p != [] && Lookup(t, p).Some? && Plain(p) && Plain(q)
    ensures Lookup(Put(t, Lookup(t, p).value, FREE), q) == Remaining(t, p, q)
    decreases |p|
  {
    var a, k := Lookup(t, p).value, FindFrom(t.kids, p[0], 0);
    PlainRest(p);
    assert a == [k] + a[1..] && p == [p[0]] + p[1..];
    PutBelow(t, k, a[1..], FREE);
    if |p| == 1 {
      assert a[1..] == [] && a[..|a| - 1] == [] && p == [p[0]];
      RemoveKid(t, k, q);
      if p <= q {
        BelowNothing(InNext(t, k, q[1..]));
      }
    } else {
      LookupWithKid(t, k, Put(t.kids[k], a[1..], FREE), q);
      if q != [] {
        PlainRest(q);
        PrefixStep(p, q);
        if q[0] == p[0] {
          Remove(t.kids[k], p[1..], q[1..]);
          if p <= q {
            RemainingBelow(t, p, q);
          }
        }
      }
    }
  }

  lemma BelowNothing(r: Option<Address>)
    ensures Below([], r) == r
  {
    if r.Some? {
      assert [] + r.value == r.value;
    }
  }

  /** When the entry is the only one of its name, exactly the paths through it lead nowhere. */
  lemma RemainingOnly(t: Tree, p: Path, q: Path)
    requires p != [] && Lookup(t, p).Some?
    requires var a := Lookup(t, p).value; var dir := a[..|a| - 1];
             Valid(t, dir) && a[|a| - 1] < |At(t, dir).kids| && OnlyName(At(t, dir).kids, a[|a| - 1])
    ensures Remaining(t, p, q) == if p <= q then None else Lookup(t, q)
  {
    var a := Lookup(t, p).value;
    SlotOfLookup(t, p);
    var kids, i := At(t, a[..|a| - 1]).kids, a[|a| - 1];
    var j := FindFrom(kids, kids[i].rec.name, i + 1);
    assert j < |kids| ==> j != i;
  }

  // ----- which paths directory creation affects -----

  /** Directory creation makes no path resolve but the beginnings of its own path. */
  lemma {:induction false} MakeDirsLookup(size: nat, fat: Table, t: Tree, path: Path, q: Path)
    requires 0 < size && Indexable(fat) && Plain(path) && Plain(q) && !(q <= path)
    ensures Lookup(MakeDirs(size, fat, t, path).2, q) == Lookup(t, q)
    decreases |path|
  {
    if path != [] {
      PlainRest(path);
      PlainRest(q);
      PrefixStep(q, path);
      var i, j := FindFrom(t.kids, path[0], 0), FindFree(t.kids, 0);
      if i < |t.kids| {
        if IsDirectory(t.kids[i].rec) {
          var kid := MakeDirs(size, fat, t.kids[i], path[1..]).2;
          LookupWithKid(t, i, kid, q);
          if q[0] == path[0] {
            MakeDirsLookup(size, fat, t.kids[i], path[1..], q[1..]);
          }
        }
      } else if j < |t.kids| {
        NewDirLookup(size, fat, t, path, j, q);
      }
    }
  }

  lemma {:induction false} NewDirLookup(size: nat, fat: Table, t: Tree, path: Path, j: nat, q: Path)
    requires 0 < size && Indexable(fat) && Plain(path) && Plain(q) && path != [] && q != []
    requires FindFrom(t.kids, path[0], 0) == |t.kids| && j == FindFree(t.kids, 0) < |t.kids|
    requires q[0] == path[0] ==> !(q[1..] <= path[1..])
    ensures Lookup(MakeDirs(size, fat, t, path).2, q) == Lookup(t, q)
    decreases |path|, 0
  {
    PlainRest(path);
    PlainRest(q);
    var r := t.kids[j].rec.(name := path[0]);
    var (e, after, kid) := MakeTable(size, fat, t.rec, r);
    NewTableNames(size, fat, t.rec, r);
    var t' := MakeDirs(size, fat, t, path).2;
    if q[0] == path[0] {
      FindIsFirst(t'.kids, q[0], j);
      NothingPlain(kid, q[1..]);
      if e == Success {
        MakeDirsLookup(size, after, kid, path[1..], q[1..]);
      }
    } else {
      FindOther(t.kids, j, t'.kids[j], q[0], 0);
    }
  }

  lemma NothingPlain(t: Tree, q: Path)
    requires Plain(q) && q != [] && forall i :: 0 <= i < |t.kids| ==> !PlainName(t.kids[i].rec.name)
    ensures Lookup(t, q) == None
  {
    PlainRest(q);
  }

  /** Below a directory whose components all exist, nothing is created. */
  lemma {:induction false} MakeDirsPrefix(size: nat, fat: Table, t: Tree, path: Path, q: Path)
    requires 0 < size && Indexable(fat) && q <= path && MakeDirs(size, fat, t, path).0 == Success && IsDirectory(t.rec)
    ensures var t' := MakeDirs(size, fat, t, path).2;
            Lookup(t', q).Some? && IsDirectory(At(t', Lookup(t', q).value).rec)
  {
    var t' := MakeDirs(size, fat, t, path).2;
    MakeDirsAlong(size, fat, t, path);
    AlongPrefix(t', path, q);
    AlongResolves(t', q);
  }

  lemma {:induction false} AlongPrefix(t: Tree, path: Path, q: Path)
    requires DirectoriesAlong(t, path) && q <= path
    ensures DirectoriesAlong(t, q)
    decreases |q|
  {
    if q != [] {
      PrefixStep(q, path);
      AlongPrefix(t.kids[FindFrom(t.kids, path[0], 0)], path[1..], q[1..]);
    }
  }
}
