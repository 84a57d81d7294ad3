/** The iterative walk of _f12_dump_move over the directory slots (src/move.c). */
module EntryWalk {
  import opened Records
  import opened Trees
  import opened Walks
  import opened DirectoryEntries
  import opened EntryCreation
  import opened EntryMoves

  /** The objects below `src`, the tree that they hold, and their parent links. */
  datatype Ground = Ground(s: Shape, t: Tree, links: Links)

  ghost predicate Firm(q: Ground)
    reads Objects(q.s)
  {
    Rep(q.s, q.t) && Separate(q.s) && q.links == LinksOf(Objects(q.s)) && Linked(q.s, q.links)
  }

  /** The state of the walk: directory `dir` at `a`, next slot `i`, and what was visited so far. */
  ghost predicate Walking(q: Ground, dir: DirectoryEntry, a: Address, i: nat, visited: seq<Address>) {
    && Place(q.t, a, i) && ValidShape(q.s, a) && dir == SubShape(q.s, a).self
    && Preorder(q.t, [], 0) == visited + Rest(q.t, a, i)
    && (NoneLast(q.t, 0) <==> Passable(q.t, a, i))
  }

  /** The objects that were visited. */
  ghost predicate WasShown(q: Ground, out: seq<DirectoryEntry>, visited: seq<Address>) {
    |out| == |visited| && forall j :: 0 <= j < |out| ==> out[j] == SubShape(q.s, visited[j]).self
  }

  /** Slot `i` of the directory at `a` holds its tree. */
  ghost predicate Slot(q: Ground, dir: DirectoryEntry, a: Address, i: nat)
    reads dir, Objects(SubShape(q.s, a + [i]))
  {
    && Valid(q.t, a) && i < |At(q.t, a).kids| && i < |dir.children|
    && dir.children[i] == SubShape(q.s, a + [i]).self && ValidShape(q.s, a + [i])
    && Rep(SubShape(q.s, a + [i]), At(q.t, a).kids[i])
  }

  /** What the code finds at a place. */
  lemma DirectoryAt(q: Ground, dir: DirectoryEntry, a: Address, i: nat, visited: seq<Address>)
    requires Firm(q) && Walking(q, dir, a, i, visited)
    ensures Rep(SubShape(q.s, a), At(q.t, a)) && |dir.children| == |At(q.t, a).kids|
    ensures i < |dir.children| ==> Slot(q, dir, a, i)
  {
    RepSplit(q.s, q.t, a);
    if i < |dir.children| {
      SubShapeAppend(q.s, q.t, a, i);
      ValidInShape(q.s, q.t, a + [i]);
    }
  }

  lemma UpAndNext(a: Address)
    requires a != []
    ensures Next(a) >= 1 && a == Up(a) + [Next(a) - 1]
  {
  }

  /** The slots of a directory are different objects. */
  lemma SlotsDiffer(s: Shape, t: Tree, up: Address, n: nat)
    requires Rep(s, t) && Separate(s) && Valid(t, up) && n < |At(t, up).kids|
    ensures var k := SubShape(s, up);
            && Valid(t, up + [n]) && |k.self.children| == |At(t, up).kids| && k.self.children[n] == SubShape(s, up + [n]).self
            && forall j :: 0 <= j < |k.self.children| && k.self.children[j] == k.self.children[n] ==> j == n
  {
    var k := SubShape(s, up);
    RepSplit(s, t, up);
    OutsideApart(s, t, up);
    SubShapeAppend(s, t, up, n);
    forall j | 0 <= j < |k.kids| && j != n ensures k.kids[j].self != k.kids[n].self {
      assert k.kids[j].self in Objects(k.kids[j]) && k.kids[n].self in Objects(k.kids[n]);
      assert j < n || n < j;
    }
  }

  lemma ParentLink(q: Ground, a: Address)
    requires Firm(q) && Valid(q.t, a) && a != [] && Used(At(q.t, a).rec)
    ensures SubShape(q.s, a).self.parent == SubShape(q.s, Up(a)).self
  {
    var o := SubShape(q.s, a).self;
    RepSplit(q.s, q.t, a);
    OutsideApart(q.s, q.t, a);
    ValidInShape(q.s, q.t, a);
    assert o in Objects(SubShape(q.s, a));
    assert o in q.links && q.links[o] == SlotLink(Used(o.rec), o.parent);
  }

  lemma PlaceAbove(t: Tree, a: Address, i: nat)
    requires Place(t, a, i) && a != []
    ensures Used(At(t, a).rec) && Valid(t, Up(a)) && Next(a) - 1 < |At(t, Up(a)).kids|
  {
    UpAndNext(a);
    ValidAppend(t, Up(a), [Next(a) - 1]);
  }

  /** An entry is found in its own slot of the directory above, and only there. */
  lemma SlotAbove(s: Shape, t: Tree, a: Address)
    requires Rep(s, t) && Separate(s) && Valid(t, a) && a != [] && Valid(t, Up(a)) && Next(a) - 1 < |At(t, Up(a)).kids|
    ensures var dir, up := SubShape(s, a).self, SubShape(s, Up(a)).self;
            && |up.children| == |At(t, Up(a)).kids| && up.children[Next(a) - 1] == dir
            && forall j :: 0 <= j < |up.children| && up.children[j] == dir ==> j == Next(a) - 1
  {
    UpAndNext(a);
    SlotsDiffer(s, t, Up(a), Next(a) - 1);
  }

  /** The search for the entry's slot in its parent's table. */
  method FindInParent(dir: DirectoryEntry, ghost q: Ground, ghost a: Address, ghost n: nat) returns (i: nat)
    requires Firm(q) && Place(q.t, a, n) && a != [] && dir == SubShape(q.s, a).self
    ensures dir.parent == SubShape(q.s, Up(a)).self && i == Next(a) - 1
    ensures Valid(q.t, Up(a)) && |dir.parent.children| == |At(q.t, Up(a)).kids|
  {
    PlaceAbove(q.t, a, n);
    ParentLink(q, a);
    SlotAbove(q.s, q.t, a);
    i := 0;
    while dir.parent.children[i] != dir
      invariant dir.parent != null && i <= Next(a) - 1 < |dir.parent.children|
      invariant dir.parent.children[Next(a) - 1] == dir
      decreases Next(a) - i
    {
      i := i + 1;
    }
  }

  /** Whether the walk goes into a live entry. */
  method Enters(child: DirectoryEntry, ghost s: Shape, ghost t: Tree) returns (b: bool)
    requires Rep(s, t) && s.self == child && Live(t.rec)
    ensures b <==> Entered(t)
  {
    var n := GetChildCount(child, s, t);
    b := IsDirectory(child.rec) && n > 2 && !IsDotDir(child.rec);
  }

  lemma Visiting<T>(p: seq<T>, visited: seq<T>, more: seq<T>, rest: seq<T>, rest': seq<T>)
    requires p == visited + rest && rest == more + rest'
    ensures p == (visited + more) + rest'
  {
  }

  lemma WalkOver(q: Ground, dir: DirectoryEntry, a: Address, i: nat, visited: seq<Address>)
    requires Walking(q, dir, a, i, visited) && i < |At(q.t, a).kids| && !Entered(At(q.t, a).kids[i])
    ensures var more := if Live(At(q.t, a).kids[i].rec) then [a + [i]] else [];
            Walking(q, dir, a, i + 1, visited + more) && Turns(q.t, a, i + 1) < Turns(q.t, a, i)
  {
    StepOver(q.t, a, i);
    Visiting(Preorder(q.t, [], 0), visited, if Live(At(q.t, a).kids[i].rec) then [a + [i]] else [],
             Rest(q.t, a, i), Rest(q.t, a, i + 1));
  }

  lemma WalkDown(q: Ground, dir: DirectoryEntry, a: Address, i: nat, visited: seq<Address>, child: DirectoryEntry)
    requires Walking(q, dir, a, i, visited) && i < |At(q.t, a).kids| && Entered(At(q.t, a).kids[i])
    requires ValidShape(q.s, a + [i]) && child == SubShape(q.s, a + [i]).self
    ensures Walking(q, child, a + [i], 0, visited + [a + [i]]) && Turns(q.t, a + [i], 0) < Turns(q.t, a, i)
  {
    StepDown(q.t, a, i);
    Visiting(Preorder(q.t, [], 0), visited, [a + [i]], Rest(q.t, a, i), Rest(q.t, a + [i], 0));
  }

  /** A live entry is visited, and the walk goes down into it or on to the next slot. */
  method VisitLive(dir: DirectoryEntry, i: nat, child: DirectoryEntry, ghost q: Ground, ghost a: Address, ghost visited: seq<Address>)
    returns (dir': DirectoryEntry, i': nat, ghost a': Address)
    requires Walking(q, dir, a, i, visited) && i < |At(q.t, a).kids| && Live(At(q.t, a).kids[i].rec)
    requires ValidShape(q.s, a + [i]) && child == SubShape(q.s, a + [i]).self
    requires Rep(SubShape(q.s, a + [i]), At(q.t, a).kids[i])
    ensures Walking(q, dir', a', i', visited + [a + [i]]) && Turns(q.t, a', i') < Turns(q.t, a, i)
  {
    var down := Enters(child, SubShape(q.s, a + [i]), At(q.t, a).kids[i]);
    if down {
      WalkDown(q, dir, a, i, visited, child);
      dir', i', a' := child, 0, a + [i];
    } else {
      WalkOver(q, dir, a, i, visited);
      dir', i', a' := dir, i + 1, a;
    }
  }

  /** One turn of the loop at a slot. */
  method VisitSlotAt(dir: DirectoryEntry, i: nat, out: seq<DirectoryEntry>,
                     ghost q: Ground, ghost a: Address, ghost visited: seq<Address>)
    returns (dir': DirectoryEntry, i': nat, out': seq<DirectoryEntry>, ghost a': Address, ghost visited': seq<Address>)
    requires Walking(q, dir, a, i, visited) && WasShown(q, out, visited) && i < |At(q.t, a).kids|
    requires Slot(q, dir, a, i)
    ensures Walking(q, dir', a', i', visited') && WasShown(q, out', visited') && Turns(q.t, a', i') < Turns(q.t, a, i)
  {
    var child := dir.children[i];
    if IsDotDir(child.rec) || !Used(child.rec) {
      WalkOver(q, dir, a, i, visited);
      assert visited + [] == visited;
      return dir, i + 1, out, a, visited;
    }
    out', visited' := out + [child], visited + [a + [i]];
    dir', i', a' := VisitLive(dir, i, child, q, a, visited);
  }

  lemma WalkUp(q: Ground, dir: DirectoryEntry, a: Address, i: nat, visited: seq<Address>, up: DirectoryEntry)
    requires Walking(q, dir, a, i, visited) && i == |At(q.t, a).kids| && a != [] && up == SubShape(q.s, Up(a)).self
    ensures Valid(q.t, Up(a)) && Place(q.t, Up(a), Next(a)) && Turns(q.t, Up(a), Next(a)) < Turns(q.t, a, i)
    ensures Next(a) == |At(q.t, Up(a)).kids| ==> !NoneLast(q.t, 0)
    ensures Next(a) < |At(q.t, Up(a)).kids| ==> Walking(q, up, Up(a), Next(a), visited)
  {
    StepUp(q.t, a);
    PrefixValid(q.s, a);
  }

  lemma AtTop(q: Ground, dir: DirectoryEntry, a: Address, i: nat, visited: seq<Address>)
    requires Walking(q, dir, a, i, visited) && Separate(q.s)
    ensures dir == q.s.self <==> a == []
  {
    if dir == q.s.self {
      SelfInjective(q.s, a, []);
    }
  }

  method VisitHere(dir: DirectoryEntry, i: nat, out: seq<DirectoryEntry>,
                   ghost q: Ground, ghost a: Address, ghost visited: seq<Address>)
    returns (dir': DirectoryEntry, i': nat, out': seq<DirectoryEntry>, ghost a': Address, ghost visited': seq<Address>)
    requires Firm(q) && Walking(q, dir, a, i, visited) && WasShown(q, out, visited) && i < |dir.children|
    ensures Walking(q, dir', a', i', visited') && WasShown(q, out', visited') && Turns(q.t, a', i') < Turns(q.t, a, i)
  {
    DirectoryAt(q, dir, a, i, visited);
    dir', i', out', a', visited' := VisitSlotAt(dir, i, out, q, a, visited);
  }

  /** The end of a table: on to the slot behind the directory's own. */
  method Ascend(dir: DirectoryEntry, ghost q: Ground, ghost a: Address, ghost n: nat) returns (up: DirectoryEntry, next: nat)
    requires Firm(q) && Place(q.t, a, n) && a != [] && dir == SubShape(q.s, a).self
    ensures Firm(q) && up == SubShape(q.s, Up(a)).self && next == Next(a)
    ensures Valid(q.t, Up(a)) && |up.children| == |At(q.t, Up(a)).kids|
  {
    assert allocated(Objects(q.s)) && Firm(q);
    next := FindInParent(dir, q, a, n);
    up, next := dir.parent, next + 1;
    assert Firm(q);
  }

  /** One turn of the loop; `inside` is false when the code would leave the source or its tables. */
  method Turn(src: DirectoryEntry, dir: DirectoryEntry, i: nat, out: seq<DirectoryEntry>,
              ghost q: Ground, ghost a: Address, ghost visited: seq<Address>)
    returns (inside: bool, dir': DirectoryEntry, i': nat, out': seq<DirectoryEntry>, ghost a': Address, ghost visited': seq<Address>)
    requires Firm(q) && Walking(q, dir, a, i, visited) && WasShown(q, out, visited) && src == q.s.self
    requires a == [] && i >= |At(q.t, a).kids| ==> q.t.kids == []
    ensures inside ==> Walking(q, dir', a', i', visited') && WasShown(q, out', visited') && Turns(q.t, a', i') < Turns(q.t, a, i)
    ensures !inside ==> q.t.kids == [] || !NoneLast(q.t, 0)
  {
    inside, dir', i', out', a', visited' := true, dir, i, out, a, visited;
    assert allocated(Objects(q.s)) && Firm(q);
    DirectoryAt(q, dir, a, i, visited);
    AtTop(q, dir, a, i, visited);
    if i >= |dir.children| {
      if dir == src {
        inside := false;
        return;
      }
      dir', i' := Ascend(dir, q, a, i);
      a' := Up(a);
      WalkUp(q, dir, a, i, visited, dir');
      if i' >= |dir'.children| {
        inside := false;
        return;
      }
    }
    dir', i', out', a', visited' := VisitHere(dir', i', out, q, a', visited);
  }

  lemma WalkEnds(q: Ground, dir: DirectoryEntry, visited: seq<Address>)
    requires Walking(q, dir, [], |q.t.kids|, visited)
    ensures visited == Preorder(q.t, [], 0) && NoneLast(q.t, 0)
  {
  }

  /** The entries that the walk of _f12_dump_move prints, and whether it stays inside the source and its tables. */
  method DumpMove(src: DirectoryEntry, ghost q: Ground) returns (inside: bool, out: seq<DirectoryEntry>, ghost visited: seq<Address>)
    requires Firm(q) && src == q.s.self
    ensures if !IsDirectory(q.t.rec) then inside && out == [src]
            else
              && (inside <==> q.t.kids != [] && NoneLast(q.t, 0))
              && (inside ==> visited == Preorder(q.t, [], 0) && WasShown(q, out, visited))
  {
    if !IsDirectory(src.rec) {
      return true, [src], [[]];
    }
    var dir: DirectoryEntry, i: nat := src, 0;
    ghost var a: Address := [];
    inside, out, visited := true, [], [];
    assert allocated(Objects(q.s));
    while true
      invariant Firm(q) && Walking(q, dir, a, i, visited) && WasShown(q, out, visited)
      invariant a == [] && i >= |At(q.t, a).kids| ==> q.t.kids == []
      invariant inside && (i > 0 || a != [] ==> q.t.kids != [])
      decreases Turns(q.t, a, i)
    {
      inside, dir, i, out, a, visited := Turn(src, dir, i, out, q, a, visited);
      if !inside {
        return;
      }
      AtTop(q, dir, a, i, visited);
      DirectoryAt(q, dir, a, i, visited);
      if i >= |dir.children| && dir == src {
        break;
      }
    }
    WalkEnds(q, dir, visited);
  }

  /** The walk stays inside the source and its tables. */
  predicate Walkable(t: Tree) {
    IsDirectory(t.rec) ==> t.kids != [] && NoneLast(t, 0)
  }

  /** `names` are the names of the entries at these addresses. */
  ghost predicate NamesAt(t: Tree, visited: seq<Address>, names: seq<ShortName>) {
    |names| == |visited| &&
    forall j :: 0 <= j < |visited| ==> Valid(t, visited[j]) && names[j] == At(t, visited[j]).rec.name
  }

  lemma NameAt(q: Ground, out: seq<DirectoryEntry>, visited: seq<Address>, j: nat)
    requires Firm(q) && WasShown(q, out, visited) && j < |visited| && Valid(q.t, visited[j])
    ensures out[j].rec.name == At(q.t, visited[j]).rec.name
  {
    RepSplit(q.s, q.t, visited[j]);
  }

  /** The names of the visited entries. */
  method NamesOf(out: seq<DirectoryEntry>, ghost q: Ground, ghost visited: seq<Address>) returns (names: seq<ShortName>)
    requires Firm(q) && WasShown(q, out, visited) && forall j :: 0 <= j < |visited| ==> Valid(q.t, visited[j])
    ensures NamesAt(q.t, visited, names)
  {
    forall j | 0 <= j < |out| ensures out[j].rec.name == At(q.t, visited[j]).rec.name {
      NameAt(q, out, visited, j);
    }
    names := [];
    for i := 0 to |out|
      invariant |names| == i && forall j :: 0 <= j < i ==> names[j] == At(q.t, visited[j]).rec.name
    {
      names := names + [out[i].rec.name];
    }
  }

  /** _f12_dump_move where it stays inside the source and its tables: the names of the entries that it prints, in order. */
  method WalkNames(src: DirectoryEntry, ghost q: Ground) returns (names: seq<ShortName>)
    requires Firm(q) && src == q.s.self && Walkable(q.t)
    ensures NamesAt(q.t, Visits(q.t), names)
  {
    assert allocated(Objects(q.s)) && Firm(q);
    var inside, out;
    ghost var visited;
    inside, out, visited := DumpMove(src, q);
    assert Firm(q);
    forall j | 0 <= j < |Visits(q.t)| ensures Valid(q.t, Visits(q.t)[j]) {
      VisitsAreValid(q.t, j);
    }
    assert WasShown(q, out, Visits(q.t));
    names := NamesOf(out, q, Visits(q.t));
  }

  /** Below any entry of a tree with right parent links there is ground for a walk. */
  lemma GroundAt(s: Shape, t: Tree, a: Address)
    requires Whole(s, t) && Linked(s, LinksOf(Objects(s))) && Valid(t, a)
    ensures var k := SubShape(s, a); Firm(Ground(k, At(t, a), LinksOf(Objects(k))))
  {
    var k, m := SubShape(s, a), LinksOf(Objects(s));
    var n := LinksOf(Objects(k));
    RepSplit(s, t, a);
    OutsideApart(s, t, a);
    ValidInShape(s, t, a);
    forall y: Address | y != [] && ValidShape(k, y) && SubShape(k, y).self in n && n[SubShape(k, y).self].used
      ensures n[SubShape(k, y).self].parent == SubShape(k, y[..|y| - 1]).self
    {
      LinkBelow(s, a, m, y);
    }
  }

  lemma LinkBelow(s: Shape, a: Address, m: Links, y: Address)
    requires Linked(s, m) && ValidShape(s, a) && y != [] && ValidShape(SubShape(s, a), y)
    ensures var k := SubShape(s, a); var o := SubShape(k, y).self;
            o in m && m[o].used ==> m[o].parent == SubShape(k, y[..|y| - 1]).self
  {
    SubShapeAt(s, a, y);
    PrefixValid(SubShape(s, a), y);
    SubShapeAt(s, a, y[..|y| - 1]);
    assert (a + y)[..|a + y| - 1] == a + y[..|y| - 1];
  }
}
