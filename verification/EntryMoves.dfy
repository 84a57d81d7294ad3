/** lf12_move_entry among the directory slots (src/libfat12/directory_entry.c). */
module EntryMoves {
  import opened Records
  import opened Errors
  import opened Trees
  import opened Moves
  import opened DirectoryEntries
  import opened EntryCreation

  // ----- shapes with one changed place -----

  lemma {:induction false} ObjectsPut(s: Shape, a: Address, k: Shape)
    requires Separate(s) && ValidShape(s, a)
    ensures Objects(PutShape(s, a, k)) == Outside(s, a) + Objects(k)
  {
    if a != [] {
      ObjectsPut(s.kids[a[0]], a[1..], k);
      ObjectsWithKid(s, a[0], PutShape(s.kids[a[0]], a[1..], k));
    }
  }

  lemma ObjectsWithKid(s: Shape, i: nat, k: Shape)
    requires i < |s.kids|
    ensures Objects(WithKidShape(s, i, k)) == Others(s, i) + Objects(k)
  {
    var kids := s.kids[i := k];
    assert kids[i] == k && forall j :: 0 <= j < |kids| && j != i ==> kids[j] == s.kids[j];
  }

  lemma {:induction false} SeparatePut(s: Shape, a: Address, k: Shape)
    requires Separate(s) && ValidShape(s, a) && Separate(k) && Objects(k) !! Outside(s, a)
    ensures Separate(PutShape(s, a, k))
  {
    if a != [] {
      var kid := s.kids[a[0]];
      SeparatePut(kid, a[1..], k);
      ObjectsPut(kid, a[1..], k);
      ShapesApart(kid, a[1..]);
      OthersApart(s, a[0]);
      SeparateWithKid(s, a[0], PutShape(kid, a[1..], k));
    }
  }

  /** Below the changed place there is what was put. */
  lemma {:induction false} SubShapeBelow(s: Shape, a: Address, k: Shape, z: Address)
    requires ValidShape(s, a)
    ensures ValidShape(PutShape(s, a, k), a + z) <==> ValidShape(k, z)
    ensures ValidShape(k, z) ==> SubShape(PutShape(s, a, k), a + z) == SubShape(k, z)
  {
    if a == [] {
      assert a + z == z;
    } else {
      assert (a + z)[1..] == a[1..] + z;
      SubShapeBelow(s.kids[a[0]], a[1..], k, z);
    }
  }

  /** Elsewhere the slots are the same objects. */
  lemma {:induction false} SelfKept(s: Shape, a: Address, k: Shape, b: Address)
    requires ValidShape(s, a) && !(a <= b)
    ensures ValidShape(PutShape(s, a, k), b) <==> ValidShape(s, b)
    ensures ValidShape(s, b) ==> SubShape(PutShape(s, a, k), b).self == SubShape(s, b).self
  {
    if b != [] && a[0] == b[0] {
      assert a == [a[0]] + a[1..] && b == [b[0]] + b[1..];
      SelfKept(s.kids[a[0]], a[1..], k, b[1..]);
    }
  }

  lemma {:induction false} SubShapeAt(s: Shape, a: Address, z: Address)
    requires ValidShape(s, a)
    ensures ValidShape(s, a + z) <==> ValidShape(SubShape(s, a), z)
    ensures ValidShape(s, a + z) ==> SubShape(s, a + z) == SubShape(SubShape(s, a), z)
  {
    if a == [] {
      assert a + z == z;
    } else {
      assert (a + z)[1..] == a[1..] + z;
      SubShapeAt(s.kids[a[0]], a[1..], z);
    }
  }

  // ----- parent links -----

  /** Whether the slot is used, and its parent link. */
  datatype SlotLink = SlotLink(used: bool, parent: DirectoryEntry?)

  type Links = map<DirectoryEntry, SlotLink>

  /** In the directory tree `s`, the used slots know their directories. */
  ghost predicate Linked(s: Shape, m: Links) {
    forall y: Address :: y != [] && ValidShape(s, y) && SubShape(s, y).self in m && m[SubShape(s, y).self].used ==>
      m[SubShape(s, y).self].parent == SubShape(s, y[..|y| - 1]).self
  }

  ghost function LinksOf(objects: set<DirectoryEntry>): Links
    reads objects`rec, objects`parent
  {
    map o | o in objects :: SlotLink(Used(o.rec), o.parent)
  }

  /** Two addresses, two objects. */
  lemma {:induction false} SelfInjective(s: Shape, a: Address, b: Address)
    requires Separate(s) && ValidShape(s, a) && ValidShape(s, b) && SubShape(s, a).self == SubShape(s, b).self
    ensures a == b
  {
    if a != [] {
      ShapesApart(s.kids[a[0]], a[1..]);
      assert SubShape(s, a).self in Objects(SubShape(s, a));
    }
    if b != [] {
      ShapesApart(s.kids[b[0]], b[1..]);
      assert SubShape(s, b).self in Objects(SubShape(s, b));
    }
    if a != [] && b != [] {
      SelfInjective(s.kids[a[0]], a[1..], b[1..]);
    }
  }

  /** The objects after the entry at `a` went into the slot at `c`. */
  ghost function MovedShape(s: Shape, a: Address, c: Address): Shape {
    var k, free := SubShape(s, a), SubShape(s, c).self;
    PutShape(PutShape(s, a, Shape(k.self, [])), c, Shape(free, k.kids))
  }

  ghost function Selfs(kids: seq<Shape>): set<DirectoryEntry> {
    set i | 0 <= i < |kids| :: kids[i].self
  }

  /** What a move of `a` to slot `i` of `b` does to the links: nothing but what the code sets. */
  ghost predicate Relinked(s: Shape, a: Address, b: Address, c: Address, m: Links, m': Links) {
    var k, free := SubShape(s, a), SubShape(s, c).self;
    && m.Keys == m'.Keys == Objects(s) && k.self in m && free in m
    && !m'[k.self].used && m'[free].parent == SubShape(s, b).self
    && (forall i :: 0 <= i < |k.kids| && k.kids[i].self in m && m'[k.kids[i].self].used ==> m'[k.kids[i].self].parent == free)
    && (forall o :: o in m && o != k.self && o != free && o !in Selfs(k.kids) ==> m'[o] == m[o])
  }

  /** The object at `y` is not a slot of the table at `a`. */
  lemma NotInTable(s: Shape, a: Address, y: Address, i: nat)
    requires Separate(s) && ValidShape(s, a) && ValidShape(s, y) && !(a <= y && |y| == |a| + 1)
    requires i < |SubShape(s, a).kids|
    ensures SubShape(s, y).self != SubShape(s, a).kids[i].self
  {
    SubShapeAt(s, a, [i]);
    assert ValidShape(SubShape(s, a), [i]) && SubShape(SubShape(s, a), [i]) == SubShape(s, a).kids[i];
    if SubShape(s, y).self == SubShape(s, a).kids[i].self {
      SelfInjective(s, y, a + [i]);
    }
  }

  lemma NotAt(s: Shape, a: Address, y: Address)
    requires Separate(s) && ValidShape(s, a) && ValidShape(s, y) && y != a
    ensures SubShape(s, y).self != SubShape(s, a).self
  {
    if SubShape(s, y).self == SubShape(s, a).self {
      SelfInjective(s, y, a);
    }
  }

  /** A slot that is neither of the two slots nor in the moved table keeps its link. */
  lemma LinkKept(s: Shape, a: Address, b: Address, c: Address, m: Links, m': Links, y: Address)
    requires Separate(s) && ValidShape(s, a) && ValidShape(s, c) && Relinked(s, a, b, c, m, m')
    requires ValidShape(s, y) && y != a && y != c && !(a <= y && |y| == |a| + 1) && SubShape(s, y).self in m
    ensures m'[SubShape(s, y).self] == m[SubShape(s, y).self]
  {
    NotAt(s, a, y);
    NotAt(s, c, y);
    if SubShape(s, y).self in Selfs(SubShape(s, a).kids) {
      var i :| 0 <= i < |SubShape(s, a).kids| && SubShape(s, y).self == SubShape(s, a).kids[i].self;
      NotInTable(s, a, y, i);
    }
  }

  lemma LinkedStill(s: Shape, a: Address, b: Address, c: Address, m: Links, m': Links, y: Address)
    requires Separate(s) && ValidShape(s, a) && ValidShape(s, c) && Linked(s, m) && Relinked(s, a, b, c, m, m')
    requires y != [] && ValidShape(s, y) && y != a && y != c && !(a <= y && |y| == |a| + 1)
    ensures var o := SubShape(s, y).self; o in m' && m'[o].used ==> m'[o].parent == SubShape(s, y[..|y| - 1]).self
  {
    if SubShape(s, y).self in m {
      LinkKept(s, a, b, c, m, m', y);
    }
  }

  /** The links of the slots below the new place. */
  lemma LinkedBelow(s: Shape, a: Address, b: Address, c: Address, m: Links, m': Links, z: Address)
    requires Separate(s) && ValidShape(s, a) && ValidShape(s, c) && Linked(s, m) && Relinked(s, a, b, c, m, m')
    requires z != [] && ValidShape(SubShape(s, a), z) && !(a <= c) && !(c <= a)
    ensures var k := SubShape(s, a); var y := SubShape(k, z).self;
            y in m' && m'[y].used ==>
              m'[y].parent == if |z| == 1 then SubShape(s, c).self else SubShape(k, z[..|z| - 1]).self
  {
    if |z| == 1 {
      assert SubShape(SubShape(s, a), z) == SubShape(s, a).kids[z[0]];
    } else {
      LinkedDeeper(s, a, b, c, m, m', z);
    }
  }

  lemma LinkedDeeper(s: Shape, a: Address, b: Address, c: Address, m: Links, m': Links, z: Address)
    requires Separate(s) && ValidShape(s, a) && ValidShape(s, c) && Linked(s, m) && Relinked(s, a, b, c, m, m')
    requires |z| > 1 && ValidShape(SubShape(s, a), z) && !(a <= c) && !(c <= a)
    ensures var k := SubShape(s, a); var y := SubShape(k, z).self;
            y in m' && m'[y].used ==> m'[y].parent == SubShape(k, z[..|z| - 1]).self
  {
    var y, up := a + z, z[..|z| - 1];
    assert y[..|y| - 1] == a + up;
    SubShapeAt(s, a, z);
    SubShapeAt(s, a, up);
    PrefixValid(s, y);
    LinkedStill(s, a, b, c, m, m', y);
  }

  lemma {:induction false} PrefixValid(s: Shape, y: Address)
    requires y != [] && ValidShape(s, y)
    ensures ValidShape(s, y[..|y| - 1])
  {
    if |y| > 1 {
      assert y[..|y| - 1][1..] == y[1..][..|y[1..]| - 1];
      PrefixValid(s.kids[y[0]], y[1..]);
    }
  }

  /** The links of the slots that are not below the new place. */
  lemma LinkedElsewhere(s: Shape, a: Address, b: Address, c: Address, m: Links, m': Links, y: Address)
    requires Separate(s) && ValidShape(s, a) && ValidShape(s, c) && Linked(s, m) && Relinked(s, a, b, c, m, m')
    requires y != [] && ValidShape(s, y) && (a <= y ==> a == y) && (c <= y ==> c == y) && c != [] && b == c[..|c| - 1]
    ensures var o := SubShape(s, y).self; o in m' && m'[o].used ==> m'[o].parent == SubShape(s, y[..|y| - 1]).self
  {
    if y != a && y != c {
      LinkedStill(s, a, b, c, m, m', y);
    }
  }

  /** After a move all used slots know their directories again. */
  lemma MovedLinked(s: Shape, a: Address, b: Address, c: Address, m: Links, m': Links)
    requires Separate(s) && ValidShape(s, a) && ValidShape(s, c) && Linked(s, m) && Relinked(s, a, b, c, m, m')
    requires a != [] && c != [] && b == c[..|c| - 1] && !(a <= c) && !(c <= a)
    ensures Linked(MovedShape(s, a, c), m')
  {
    var s' := MovedShape(s, a, c);
    forall y: Address | y != [] && ValidShape(s', y) && SubShape(s', y).self in m' && m'[SubShape(s', y).self].used
      ensures m'[SubShape(s', y).self].parent == SubShape(s', y[..|y| - 1]).self
    {
      MovedLink(s, a, b, c, m, m', y);
    }
  }

  /** A used slot of the moved tree knows its directory: first the slots below the new place. */
  lemma MovedLinkBelow(s: Shape, a: Address, b: Address, c: Address, m: Links, m': Links, z: Address)
    requires Separate(s) && ValidShape(s, a) && ValidShape(s, c) && Linked(s, m) && Relinked(s, a, b, c, m, m')
    requires !(a <= c) && !(c <= a) && z != [] && ValidShape(MovedShape(s, a, c), c + z)
    requires var o := SubShape(MovedShape(s, a, c), c + z).self; o in m' && m'[o].used
    ensures var s' := MovedShape(s, a, c);
            m'[SubShape(s', c + z).self].parent == SubShape(s', c + z[..|z| - 1]).self
  {
    var k, free := SubShape(s, a), SubShape(s, c).self;
    var s1 := PutShape(s, a, Shape(k.self, []));
    SelfKept(s, a, Shape(k.self, []), c);
    SubShapeBelow(s1, c, Shape(free, k.kids), z);
    PrefixValid(Shape(free, k.kids), z);
    SubShapeBelow(s1, c, Shape(free, k.kids), z[..|z| - 1]);
    MovedKid(k, free, z);
    LinkedBelow(s, a, b, c, m, m', z);
  }

  lemma MovedLink(s: Shape, a: Address, b: Address, c: Address, m: Links, m': Links, y: Address)
    requires Separate(s) && ValidShape(s, a) && ValidShape(s, c) && Linked(s, m) && Relinked(s, a, b, c, m, m')
    requires a != [] && c != [] && b == c[..|c| - 1] && !(a <= c) && !(c <= a) && y != []
    requires var s' := MovedShape(s, a, c);
             ValidShape(s', y) && SubShape(s', y).self in m' && m'[SubShape(s', y).self].used
    ensures var s' := MovedShape(s, a, c); m'[SubShape(s', y).self].parent == SubShape(s', y[..|y| - 1]).self
  {
    if c <= y && y != c {
      var z := y[|c|..];
      assert y == c + z && y[..|y| - 1] == c + z[..|z| - 1];
      MovedLinkBelow(s, a, b, c, m, m', z);
    } else {
      MovedLinkElsewhere(s, a, b, c, m, m', y);
    }
  }

  lemma MovedLinkElsewhere(s: Shape, a: Address, b: Address, c: Address, m: Links, m': Links, y: Address)
    requires Separate(s) && ValidShape(s, a) && ValidShape(s, c) && Linked(s, m) && Relinked(s, a, b, c, m, m')
    requires a != [] && c != [] && b == c[..|c| - 1] && !(a <= c) && !(c <= a) && y != [] && (c <= y ==> y == c)
    requires var s' := MovedShape(s, a, c);
             ValidShape(s', y) && SubShape(s', y).self in m' && m'[SubShape(s', y).self].used
    ensures var s' := MovedShape(s, a, c); m'[SubShape(s', y).self].parent == SubShape(s', y[..|y| - 1]).self
  {
    PrefixValid(MovedShape(s, a, c), y);
    MovedSelf(s, a, c, y);
    MovedSelf(s, a, c, y[..|y| - 1]);
    LinkedElsewhere(s, a, b, c, m, m', y);
  }

  lemma MovedKid(k: Shape, free: DirectoryEntry, z: Address)
    requires z != [] && ValidShape(Shape(free, k.kids), z)
    ensures ValidShape(k, z) && SubShape(Shape(free, k.kids), z) == SubShape(k, z)
    ensures SubShape(Shape(free, k.kids), z[..|z| - 1]).self ==
            if |z| == 1 then free else SubShape(k, z[..|z| - 1]).self
  {
  }

  /** Not below the new place: the same objects, and nothing below the old place. */
  lemma MovedSelf(s: Shape, a: Address, c: Address, y: Address)
    requires ValidShape(s, a) && ValidShape(s, c) && !(a <= c) && !(c <= a)
    requires ValidShape(MovedShape(s, a, c), y) && (c <= y ==> c == y)
    ensures ValidShape(s, y) && (a <= y ==> a == y) && SubShape(MovedShape(s, a, c), y).self == SubShape(s, y).self
  {
    var k, free := SubShape(s, a), SubShape(s, c).self;
    var s1 := PutShape(s, a, Shape(k.self, []));
    SelfKept(s, a, Shape(k.self, []), c);
    if y == c {
      SubShapeBelow(s1, c, Shape(free, k.kids), []);
      assert c + [] == c;
    } else {
      SelfKept(s1, c, Shape(free, k.kids), y);
      if a <= y {
        assert y == a + y[|a|..];
        SubShapeBelow(s, a, Shape(k.self, []), y[|a|..]);
        assert y == a;
      } else {
        SelfKept(s, a, Shape(k.self, []), y);
      }
    }
  }

  // ----- lf12_get_child_count -----

  method GetChildCount(entry: DirectoryEntry, ghost s: Shape, ghost t: Tree) returns (n: nat)
    requires Rep(s, t) && s.self == entry
    ensures n == if IsDirectory(t.rec) then CountUsed(t.kids) else 0
  {
    n := 0;
    if !IsDirectory(entry.rec) {
      return;
    }
    for i := 0 to |entry.children|
      invariant n == CountUsed(t.kids[..i])
    {
      assert t.kids[..i + 1][..i] == t.kids[..i];
      if entry.children[i].rec.name[0] != 0 {
        n := n + 1;
      }
    }
    assert t.kids[..|t.kids|] == t.kids;
  }

  // ----- one slot cleared, one slot filled -----

  /** Everything but the place `a`, which is ready to take a slot again. */
  ghost predicate Open(s: Shape, t: Tree, a: Address)
    reads Outside(s, a)`rec, Outside(s, a)`children
  {
    a != [] && Separate(s) && Valid(t, a) && ValidShape(s, a) && RepHole(s, t, a)
  }

  ghost predicate Whole(s: Shape, t: Tree)
    reads Objects(s)`rec, Objects(s)`children
  {
    Separate(s) && Rep(s, t)
  }

  lemma OpenUp(s: Shape, t: Tree, a: Address)
    requires Whole(s, t) && Valid(t, a) && a != []
    ensures Open(s, t, a) && Whole(SubShape(s, a), At(t, a)) && Objects(SubShape(s, a)) !! Outside(s, a)
    ensures Objects(SubShape(s, a)) <= Objects(s)
  {
    RepSplit(s, t, a);
    ValidInShape(s, t, a);
    ShapesApart(s, a);
  }

  lemma CloseUp(s: Shape, t: Tree, a: Address, k: Shape, u: Tree)
    requires Open(s, t, a) && Whole(k, u) && k.self == SubShape(s, a).self && Objects(k) !! Outside(s, a)
    ensures Whole(PutShape(s, a, k), Put(t, a, u)) && PutShape(s, a, k).self == s.self
  {
    RepFill(s, t, a, k, u);
    SeparatePut(s, a, k);
  }

  /** memset of the slot. */
  method ClearSlot(slot: DirectoryEntry, ghost s: Shape, ghost t: Tree, ghost a: Address)
    requires Open(s, t, a) && slot == SubShape(s, a).self && slot !in Outside(s, a)
    modifies slot
    ensures Whole(PutShape(s, a, Shape(slot, [])), Put(t, a, FREE))
    ensures slot.rec == EMPTY
  {
    slot.rec := EMPTY;
    slot.children := [];
    slot.parent := null;
    assert Open(s, t, a);
    CloseUp(s, t, a, Shape(slot, []), FREE);
  }

  /** Slots that hold the slots of `u`. */
  ghost predicate SlotTable(children: seq<DirectoryEntry>, kids: seq<Shape>, u: Tree)
    reads KidObjects(kids)`rec, KidObjects(kids)`children
  {
    && |children| == |kids| == |u.kids| && SeparateKids(kids)
    && forall i :: 0 <= i < |kids| ==>
         assert Objects(kids[i]) <= KidObjects(kids);
         children[i] == kids[i].self && Rep(kids[i], u.kids[i])
  }

  lemma TableIsWhole(slot: DirectoryEntry, kids: seq<Shape>, u: Tree)
    requires SlotTable(slot.children, kids, u) && slot.rec == u.rec && slot !in KidObjects(kids)
    ensures Whole(Shape(slot, kids), u) && Objects(Shape(slot, kids)) == {slot} + KidObjects(kids)
  {
  }

  method SetFields(slot: DirectoryEntry, r: Record, children: seq<DirectoryEntry>, parent: DirectoryEntry?,
                   ghost s: Shape, ghost t: Tree, ghost a: Address, ghost kids: seq<Shape>, ghost u: Tree)
    requires Open(s, t, a) && slot !in Outside(s, a) && SlotTable(children, kids, u) && slot !in KidObjects(kids)
    modifies slot
    ensures slot.rec == r && slot.children == children && slot.parent == parent
    ensures Open(s, t, a) && SlotTable(children, kids, u)
  {
    assert allocated(KidObjects(kids)) && allocated(Outside(s, a));
    slot.rec := r;
    slot.children := children;
    slot.parent := parent;
  }

  /** The memmove into the free slot. */
  method FillSlot(slot: DirectoryEntry, r: Record, children: seq<DirectoryEntry>, parent: DirectoryEntry?,
                  ghost s: Shape, ghost t: Tree, ghost a: Address, ghost kids: seq<Shape>, ghost u: Tree)
    requires Whole(s, t) && Valid(t, a) && a != [] && slot == SubShape(s, a).self
    requires SlotTable(children, kids, u) && r == u.rec && KidObjects(kids) !! Objects(s)
    modifies slot
    ensures Whole(PutShape(s, a, Shape(slot, kids)), Put(t, a, u))
    ensures slot.rec == r && slot.parent == parent
  {
    OpenUp(s, t, a);
    ShapesApart(s, a);
    assert slot in Objects(SubShape(s, a));
    SetFields(slot, r, children, parent, s, t, a, kids, u);
    TableIsWhole(slot, kids, u);
    CloseUp(s, t, a, Shape(slot, kids), u);
  }

  /** The parent links of the used slots of a moved directory. */
  method SetParents(slots: seq<DirectoryEntry>, parent: DirectoryEntry)
    modifies (set o | o in slots)`parent
    ensures forall i :: 0 <= i < |slots| && Used(slots[i].rec) ==> slots[i].parent == parent
  {
    for i := 0 to |slots|
      invariant forall j :: 0 <= j < i && Used(slots[j].rec) ==> slots[j].parent == parent
    {
      if Used(slots[i].rec) {
        slots[i].parent := parent;
      }
    }
  }

  lemma KidObjectsOf(k: Shape)
    requires Separate(k)
    ensures Objects(k) == {k.self} + KidObjects(k.kids) && k.self !in KidObjects(k.kids)
  {
  }

  lemma {:induction false} ElsewhereOutside(s: Shape, a: Address, c: Address)
    requires Separate(s) && ValidShape(s, a) && ValidShape(s, c) && Apart(a, c)
    ensures SubShape(s, c).self in Outside(s, a)
  {
    if a[0] == c[0] {
      assert a == [a[0]] + a[1..] && c == [c[0]] + c[1..];
      ElsewhereOutside(s.kids[a[0]], a[1..], c[1..]);
    } else {
      ShapesApart(s.kids[c[0]], c[1..]);
      assert SubShape(s, c).self in Objects(SubShape(s, c));
    }
  }

  /** What stays known of the other places after the slot at `a` was cleared. */
  lemma AfterClear(s: Shape, a: Address, c: Address)
    requires Separate(s) && ValidShape(s, a) && ValidShape(s, c) && Apart(a, c)
    ensures var k := SubShape(s, a); var s' := PutShape(s, a, Shape(k.self, []));
            && SubShape(s', c).self == SubShape(s, c).self && SubShape(s, c).self in Outside(s, a)
            && Objects(s') == Outside(s, a) + {k.self} && KidObjects(k.kids) !! Objects(s')
  {
    var k := SubShape(s, a);
    var leaf := Shape(k.self, []);
    SelfKept(s, a, leaf, c);
    ShapesApart(s, a);
    KidObjectsOf(k);
    ObjectsPut(s, a, leaf);
    assert Objects(leaf) == {k.self};
    ElsewhereOutside(s, a, c);
  }

  /** The fields of the entry move from the slot at `a` to the slot at `c`. */
  method MoveFields(src: DirectoryEntry, free: DirectoryEntry, ghost s: Shape, ghost t: Tree, ghost a: Address, ghost c: Address)
    requires Whole(s, t) && Valid(t, a) && Valid(t, c) && Apart(a, c)
    requires src == SubShape(s, a).self && free == SubShape(s, c).self
    modifies src, free
    ensures Valid(Put(t, a, FREE), c) && Whole(MovedShape(s, a, c), Put(Put(t, a, FREE), c, At(t, a)))
    ensures src.rec == EMPTY && free.rec == At(t, a).rec && free.parent == old(src.parent)
  {
    ghost var k, u := SubShape(s, a), At(t, a);
    ValidInShape(s, t, a);
    ValidInShape(s, t, c);
    AfterClear(s, a, c);
    AtPutElsewhere(t, a, FREE, c);
    OpenUp(s, t, a);
    KidObjectsOf(k);
    var r, children, parent := src.rec, src.children, src.parent;
    assert allocated(Objects(k));
    assert SlotTable(children, k.kids, u);
    ClearSlot(src, s, t, a);
    assert SlotTable(children, k.kids, u);
    FillSlot(free, r, children, parent, PutShape(s, a, Shape(src, [])), Put(t, a, FREE), c, k.kids, u);
  }

  /** The slots that a move concerns. */
  lemma MoveSlots(s: Shape, t: Tree, a: Address, c: Address)
    requires Whole(s, t) && Valid(t, a) && Valid(t, c) && Apart(a, c)
    ensures var k, free := SubShape(s, a), SubShape(s, c).self;
            && k.self in Objects(s) && free in Objects(s) && k.self != free && |k.self.children| == |k.kids|
            && forall i :: 0 <= i < |k.kids| ==> k.self.children[i] == k.kids[i].self && k.kids[i].self in Objects(s)
                                                 && k.kids[i].self != k.self && k.kids[i].self != free
  {
    var k := SubShape(s, a);
    RepSplit(s, t, a);
    OutsideApart(s, t, a);
    OutsideApart(s, t, c);
    assert SubShape(s, c).self in Objects(SubShape(s, c)) && k.self in Objects(k);
    ValidInShape(s, t, a);
    ValidInShape(s, t, c);
    ElsewhereOutside(s, a, c);
    KidObjectsOf(k);
    forall i | 0 <= i < |k.kids| ensures k.kids[i].self in KidObjects(k.kids) {
      assert k.kids[i].self in Objects(k.kids[i]);
    }
  }

  /** The parent links of the moved entry and of the slots in its table. */
  method SetLinks(src: DirectoryEntry, dest: DirectoryEntry, free: DirectoryEntry)
    requires forall i :: 0 <= i < |src.children| ==> src.children[i] != src
    modifies {src}`parent, (set o | o in src.children)`parent
    ensures src.parent == dest && src.children == old(src.children)
    ensures forall i :: 0 <= i < |src.children| && Used(src.children[i].rec) ==> src.children[i].parent == free
  {
    src.parent := dest;
    SetParents(src.children, free);
  }

  /** The part of lf12_move_entry that changes links and slots. */
  method MoveInto(src: DirectoryEntry, dest: DirectoryEntry, free: DirectoryEntry,
                  ghost s: Shape, ghost t: Tree, ghost a: Address, ghost c: Address, ghost table: set<DirectoryEntry>)
    requires Whole(s, t) && Valid(t, a) && Valid(t, c) && Apart(a, c)
    requires src == SubShape(s, a).self && free == SubShape(s, c).self && table == set o | o in src.children
    modifies src, free, table`parent
    ensures Valid(Put(t, a, FREE), c) && Whole(MovedShape(s, a, c), Put(Put(t, a, FREE), c, At(t, a)))
    ensures src.rec == EMPTY && free.parent == dest
    ensures var slots := old(src.children);
            forall i :: 0 <= i < |slots| && Used(slots[i].rec) ==> slots[i].parent == free
  {
    MoveSlots(s, t, a, c);
    assert Whole(s, t) && allocated(Objects(s));
    ghost var slots := src.children;
    ghost var k := SubShape(s, a);
    forall i | 0 <= i < |slots| ensures slots[i] != src && slots[i] != free {
      assert slots[i] == k.kids[i].self && k.kids[i].self != k.self;
    }
    SetLinks(src, dest, free);
    assert Whole(s, t);
    forall i | 0 <= i < |slots| && Used(slots[i].rec) ensures slots[i].parent == free {
      assert src.children[i] == slots[i];
    }
    label Linked:
    MoveFields(src, free, s, t, a, c);
    forall i | 0 <= i < |slots|
      ensures slots[i].rec == old@Linked(slots[i].rec) && slots[i].parent == old@Linked(slots[i].parent)
    {
      assert slots[i] != src && slots[i] != free;
    }
  }

  method MoveLinked(src: DirectoryEntry, dest: DirectoryEntry, free: DirectoryEntry,
                    ghost s: Shape, ghost t: Tree, ghost a: Address, ghost b: Address, ghost c: Address)
    requires Whole(s, t) && Valid(t, a) && Valid(t, c) && Apart(a, c) && b == c[..|c| - 1]
    requires src == SubShape(s, a).self && dest == SubShape(s, b).self && free == SubShape(s, c).self
    modifies Objects(s)
    ensures Valid(Put(t, a, FREE), c) && Whole(MovedShape(s, a, c), Put(Put(t, a, FREE), c, At(t, a)))
    ensures Relinked(s, a, b, c, old(LinksOf(Objects(s))), LinksOf(Objects(s)))
  {
    MoveSlots(s, t, a, c);
    SlotsAreSelfs(src.children, SubShape(s, a).kids);
    assert allocated(Objects(s));
    MoveInto(src, dest, free, s, t, a, c, Selfs(SubShape(s, a).kids));
  }

  lemma SlotsAreSelfs(slots: seq<DirectoryEntry>, kids: seq<Shape>)
    requires |slots| == |kids| && forall i :: 0 <= i < |kids| ==> slots[i] == kids[i].self
    ensures (set o | o in slots) == Selfs(kids)
  {
  }

  /** The slots of a moved tree are slots that were there before. */
  lemma MovedObjects(s: Shape, a: Address, c: Address)
    requires Separate(s) && ValidShape(s, a) && ValidShape(s, c) && Apart(a, c)
    ensures Objects(MovedShape(s, a, c)) <= Objects(s) && (a != [] && c != [] ==> MovedShape(s, a, c).self == s.self)
  {
    var k, free := SubShape(s, a), SubShape(s, c).self;
    var s1 := PutShape(s, a, Shape(k.self, []));
    AfterClear(s, a, c);
    ShapesApart(s, a);
    SeparatePut(s, a, Shape(k.self, []));
    SelfKept(s, a, Shape(k.self, []), c);
    KidObjectsOf(k);
    ShapesApart(s1, c);
    ObjectsPut(s1, c, Shape(free, k.kids));
    assert Objects(Shape(free, k.kids)) == {free} + KidObjects(k.kids);
  }

  /** get_free_entry: the first free slot of a directory, if there is one. */
  method GetFreeEntry(dir: DirectoryEntry, ghost k: Shape, ghost u: Tree) returns (free: DirectoryEntry?)
    requires Rep(k, u) && k.self == dir
    ensures var i := FindFree(u.kids, 0);
            free == if IsDirectory(u.rec) && i < |u.kids| then k.kids[i].self else null
  {
    if !IsDirectory(dir.rec) {
      return null;
    }
    assert allocated(Objects(k));
    var i := FindFreeSlot(dir, k, u);
    free := if i < |dir.children| then dir.children[i] else null;
  }

  /** The checks of lf12_move_entry before it moves an entry to the slot `free`. */
  method CheckDestination(dest: DirectoryEntry, ghost k: Shape, ghost u: Tree) returns (err: Error, free: DirectoryEntry?)
    requires Rep(k, u) && k.self == dest
    ensures err == MoveError(u, [])
    ensures err == Success ==> FindFree(u.kids, 0) < |u.kids| && free == k.kids[FindFree(u.kids, 0)].self
  {
    assert At(u, []) == u;
    if !IsDirectory(dest.rec) {
      return NotADir, null;
    }
    FullIsNoneFree(u.kids);
    assert allocated(Objects(k)) && Rep(k, u);
    var used := GetChildCount(dest, k, u);
    assert Rep(k, u);
    if 1 > |dest.children| - used {
      return DirFull, null;
    }
    free := GetFreeEntry(dest, k, u);
    err := Success;
  }

  lemma MovePlaces(s: Shape, t: Tree, a: Address, b: Address)
    requires Whole(s, t) && Movable(t, a, b)
    ensures var c := b + [Slot(t, b)];
            && Valid(t, c) && Apart(a, c) && c != [] && b == c[..|c| - 1] && ValidShape(s, a) && ValidShape(s, c)
            && Objects(MovedShape(s, a, c)) <= Objects(s) && MovedShape(s, a, c).self == s.self
            && Slot(t, b) < |SubShape(s, b).self.children|
            && SubShape(s, b).self.children[Slot(t, b)] == SubShape(s, c).self
  {
    var c := b + [Slot(t, b)];
    TargetApart(t, a, b);
    RepSplit(s, t, b);
    SubShapeAppend(s, t, b, Slot(t, b));
    ValidInShape(s, t, a);
    ValidInShape(s, t, c);
    MovedObjects(s, a, c);
  }

  /** lf12_move_entry for an entry other than ".". */
  method MoveEntry(src: DirectoryEntry, dest: DirectoryEntry,
                   ghost s: Shape, ghost t: Tree, ghost a: Address, ghost b: Address) returns (err: Error, ghost s': Shape)
    requires Whole(s, t) && Valid(t, a) && Valid(t, b) && src == SubShape(s, a).self && dest == SubShape(s, b).self
    requires MoveError(t, b) == Success ==> Movable(t, a, b)
    modifies Objects(s)
    ensures err == MoveError(t, b) && Objects(s') <= Objects(s) && s'.self == s.self
    ensures if err == Success then Movable(t, a, b) && Whole(s', Moved(t, a, b)) else s' == s && Whole(s, t)
    ensures old(Linked(s, LinksOf(Objects(s)))) ==> Linked(s', LinksOf(Objects(s)))
  {
    s' := s;
    RepSplit(s, t, b);
    assert allocated(Objects(s)) && Whole(s, t);
    var free;
    err, free := CheckDestination(dest, SubShape(s, b), At(t, b));
    assert Whole(s, t);
    if err != Success {
      return;
    }
    ghost var c, m := b + [Slot(t, b)], LinksOf(Objects(s));
    MovePlaces(s, t, a, b);
    MoveLinked(src, dest, free, s, t, a, b, c);
    s' := MovedShape(s, a, c);
    if Linked(s, m) {
      MovedLinked(s, a, b, c, m, LinksOf(Objects(s)));
    }
  }

  // ----- links of a loaded tree -----

  /** The links that the scan of an image leaves are right. */
  lemma ParentedIsLinked(s: Shape, m: Links)
    requires Parented(s) && m == LinksOf(Objects(s))
    ensures Linked(s, m)
  {
    forall y: Address | y != [] && ValidShape(s, y) && SubShape(s, y).self in m && m[SubShape(s, y).self].used
      ensures m[SubShape(s, y).self].parent == SubShape(s, y[..|y| - 1]).self
    {
      ParentedAt(s, y);
    }
  }

  lemma {:induction false} ParentedAt(s: Shape, y: Address)
    requires Parented(s) && y != [] && ValidShape(s, y) && Used(SubShape(s, y).self.rec)
    ensures SubShape(s, y).self.parent == SubShape(s, y[..|y| - 1]).self
  {
    if |y| == 1 {
      assert SubShape(s, y) == s.kids[y[0]];
    } else {
      assert y[..|y| - 1][1..] == y[1..][..|y[1..]| - 1];
      ParentedAt(s.kids[y[0]], y[1..]);
    }
  }
}
