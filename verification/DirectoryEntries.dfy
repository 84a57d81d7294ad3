/** Directory slots as objects: struct lf12_directory_entry, and the trees that they represent. */
module DirectoryEntries {
  import opened Records
  import opened Trees

  /** A slot. `children` is the array of slots that the pointer of that name leads to. */
  class DirectoryEntry {
    var rec: Record
    var children: seq<DirectoryEntry>
    var parent: DirectoryEntry?

    /** A zeroed slot, as calloc leaves it. */
    constructor ()
      ensures rec == EMPTY && children == [] && parent == null
    {
      rec := EMPTY;
      children := [];
      parent := null;
    }
  }

  /** Which objects make up a slot and the slots below it. */
  datatype Shape = Shape(self: DirectoryEntry, kids: seq<Shape>)

  ghost function Objects(s: Shape): set<DirectoryEntry> {
    {s.self} + set i, o | 0 <= i < |s.kids| && o in Objects(s.kids[i]) :: o
  }

  ghost function KidObjects(kids: seq<Shape>): set<DirectoryEntry> {
    set i, o | 0 <= i < |kids| && o in Objects(kids[i]) :: o
  }

  /** No object occurs twice. */
  ghost predicate Separate(s: Shape) {
    s.self !in KidObjects(s.kids) && SeparateKids(s.kids)
  }

  ghost predicate SeparateKids(kids: seq<Shape>) {
    && (forall i :: 0 <= i < |kids| ==> Separate(kids[i]))
    && (forall i, j :: 0 <= i < j < |kids| ==> Objects(kids[i]) !! Objects(kids[j]))
  }

  /** The objects of `s` hold the tree `t`. */
  ghost predicate Rep(s: Shape, t: Tree)
    reads Objects(s)`rec, Objects(s)`children
    decreases s
  {
    && s.self.rec == t.rec && |s.self.children| == |s.kids| == |t.kids|
    && forall i :: 0 <= i < |s.kids| ==> s.self.children[i] == s.kids[i].self && Rep(s.kids[i], t.kids[i])
  }

  /** Every used slot knows the directory that it lies in. */
  ghost predicate Parented(s: Shape)
    reads KidObjects(s.kids)`rec, KidObjects(s.kids)`parent
    decreases s
  {
    forall i :: 0 <= i < |s.kids| ==>
      assert Objects(s.kids[i]) <= KidObjects(s.kids) && KidObjects(s.kids[i].kids) <= Objects(s.kids[i]);
      Parented(s.kids[i]) && (Used(s.kids[i].self.rec) ==> s.kids[i].self.parent == s.self)
  }

  /** The shapes of slots without a table. */
  ghost function Leaves(slots: seq<DirectoryEntry>): (r: seq<Shape>)
    ensures |r| == |slots|
  {
    seq(|slots|, i requires 0 <= i < |slots| => Shape(slots[i], []))
  }

  ghost predicate Different(slots: seq<DirectoryEntry>) {
    forall i, j :: 0 <= i < j < |slots| ==> slots[i] != slots[j]
  }

  lemma LeavesFacts(slots: seq<DirectoryEntry>)
    requires Different(slots)
    ensures SeparateKids(Leaves(slots)) && KidObjects(Leaves(slots)) == set o | o in slots
  {
    forall i | 0 <= i < |slots| ensures Objects(Leaves(slots)[i]) == {slots[i]} && Separate(Leaves(slots)[i]) {
      assert Leaves(slots)[i].kids == [];
    }
    assert forall o :: o in slots ==> exists i :: 0 <= i < |slots| && o in Objects(Leaves(slots)[i]);
  }

  lemma KidObjectsAppend(kids: seq<Shape>, s: Shape)
    ensures KidObjects(kids + [s]) == KidObjects(kids) + Objects(s)
  {
    var kids' := kids + [s];
    forall o | o in KidObjects(kids) ensures o in KidObjects(kids') {
      var i :| 0 <= i < |kids| && o in Objects(kids[i]);
      assert kids'[i] == kids[i];
    }
    assert kids'[|kids|] == s;
  }

  lemma SeparateAppend(kids: seq<Shape>, s: Shape)
    requires SeparateKids(kids) && Separate(s) && Objects(s) !! KidObjects(kids)
    ensures SeparateKids(kids + [s])
  {
    forall j | 0 <= j < |kids| ensures Objects(kids[j]) !! Objects(s) {
      assert Objects(kids[j]) <= KidObjects(kids);
    }
  }

  /** calloc of a table of slots. */
  method NewSlots(n: nat) returns (slots: seq<DirectoryEntry>)
    ensures |slots| == n && Different(slots) && fresh(set o | o in slots)
    ensures forall i :: 0 <= i < n ==> slots[i].rec == EMPTY && slots[i].children == [] && slots[i].parent == null
  {
    slots := [];
    for k := 0 to n
      invariant |slots| == k && Different(slots) && fresh(set o | o in slots)
      invariant forall i :: 0 <= i < k ==> slots[i].rec == EMPTY && slots[i].children == [] && slots[i].parent == null
    {
      var slot := new DirectoryEntry();
      slots := slots + [slot];
    }
  }

  /** The shape at an address. */
  ghost function SubShape(s: Shape, a: Address): Shape {
    if a == [] || a[0] >= |s.kids| then s else SubShape(s.kids[a[0]], a[1..])
  }

  ghost function WithKidShape(s: Shape, i: nat, kid: Shape): Shape
    requires i < |s.kids|
  {
    s.(kids := s.kids[i := kid])
  }

  /** The objects of a directory without those of slot `i`. */
  ghost function Others(s: Shape, i: nat): set<DirectoryEntry> {
    {s.self} + set j, o | 0 <= j < |s.kids| && j != i && o in Objects(s.kids[j]) :: o
  }

  lemma OthersApart(s: Shape, i: nat)
    requires Separate(s) && i < |s.kids|
    ensures Others(s, i) !! Objects(s.kids[i]) && Others(s, i) + Objects(s.kids[i]) == Objects(s)
  {
    assert s.self !in Objects(s.kids[i]) by {
      assert s.kids[i].self in Objects(s.kids[i]);
    }
  }

  /** A directory whose slots, all but `i`, hold their trees. */
  ghost predicate RepBut(s: Shape, t: Tree, i: nat)
    reads Others(s, i)`rec, Others(s, i)`children
  {
    && s.self.rec == t.rec && |s.self.children| == |s.kids| == |t.kids|
    && (forall j :: 0 <= j < |s.kids| ==> s.self.children[j] == s.kids[j].self)
    && forall j :: 0 <= j < |s.kids| && j != i ==> Rep(s.kids[j], t.kids[j])
  }

  lemma RepWithKid(s: Shape, t: Tree, i: nat, kid: Shape, u: Tree)
    requires RepBut(s, t, i) && i < |s.kids| && Rep(kid, u) && kid.self == s.kids[i].self
    ensures Rep(WithKidShape(s, i, kid), t.(kids := t.kids[i := u]))
  {
  }

  lemma SeparateWithKid(s: Shape, i: nat, kid: Shape)
    requires Separate(s) && i < |s.kids| && Separate(kid)
    requires forall o :: o in Objects(kid) && o in Objects(s) ==> o in Objects(s.kids[i])
    ensures Separate(WithKidShape(s, i, kid))
    ensures forall o :: o in Objects(WithKidShape(s, i, kid)) ==> o in Objects(s) || o in Objects(kid)
  {
    var s' := WithKidShape(s, i, kid);
    forall j, k | 0 <= j < k < |s.kids| ensures Objects(s'.kids[j]) !! Objects(s'.kids[k]) {
    }
    assert s.self !in KidObjects(s'.kids);
  }

  /** `s` with `k` at address `a`. */
  ghost function PutShape(s: Shape, a: Address, k: Shape): Shape {
    if a == [] || a[0] >= |s.kids| then k
    else WithKidShape(s, a[0], PutShape(s.kids[a[0]], a[1..], k))
  }

  /** The objects of `s` that are not at or below address `a`. */
  ghost function Outside(s: Shape, a: Address): set<DirectoryEntry> {
    if a == [] || a[0] >= |s.kids| then {} else Others(s, a[0]) + Outside(s.kids[a[0]], a[1..])
  }

  /** Everything but the objects at and below address `a` holds the tree. */
  ghost predicate RepHole(s: Shape, t: Tree, a: Address)
    reads Outside(s, a)`rec, Outside(s, a)`children
  {
    a == [] || (a[0] < |s.kids| && RepBut(s, t, a[0]) && RepHole(s.kids[a[0]], t.kids[a[0]], a[1..]))
  }

  lemma {:induction false} RepSplit(s: Shape, t: Tree, a: Address)
    requires Rep(s, t) && Valid(t, a)
    ensures RepHole(s, t, a) && Rep(SubShape(s, a), At(t, a))
  {
    if a != [] {
      RepSplit(s.kids[a[0]], t.kids[a[0]], a[1..]);
    }
  }

  lemma {:induction false} RepFill(s: Shape, t: Tree, a: Address, k: Shape, u: Tree)
    requires RepHole(s, t, a) && Valid(t, a) && Rep(k, u) && k.self == SubShape(s, a).self
    ensures Rep(PutShape(s, a, k), Put(t, a, u)) && (a != [] ==> PutShape(s, a, k).self == s.self)
  {
    if a != [] {
      RepFill(s.kids[a[0]], t.kids[a[0]], a[1..], k, u);
      RepWithKid(s, t, a[0], PutShape(s.kids[a[0]], a[1..], k), Put(t.kids[a[0]], a[1..], u));
    }
  }

  predicate ValidShape(s: Shape, a: Address) {
    a == [] || (a[0] < |s.kids| && ValidShape(s.kids[a[0]], a[1..]))
  }

  lemma {:induction false} ValidInShape(s: Shape, t: Tree, a: Address)
    requires Rep(s, t) && Valid(t, a)
    ensures ValidShape(s, a)
  {
    if a != [] {
      ValidInShape(s.kids[a[0]], t.kids[a[0]], a[1..]);
    }
  }

  lemma {:induction false} ShapesApart(s: Shape, a: Address)
    requires Separate(s) && ValidShape(s, a)
    ensures Separate(SubShape(s, a)) && Objects(SubShape(s, a)) <= Objects(s)
    ensures Outside(s, a) <= Objects(s) && Outside(s, a) !! Objects(SubShape(s, a))
  {
    if a != [] {
      OthersApart(s, a[0]);
      ShapesApart(s.kids[a[0]], a[1..]);
    }
  }

  lemma OutsideApart(s: Shape, t: Tree, a: Address)
    requires Separate(s) && Valid(t, a) && Rep(s, t)
    ensures Separate(SubShape(s, a)) && Objects(SubShape(s, a)) <= Objects(s)
    ensures Outside(s, a) <= Objects(s) && Outside(s, a) !! Objects(SubShape(s, a))
  {
    ValidInShape(s, t, a);
    ShapesApart(s, a);
  }
}
