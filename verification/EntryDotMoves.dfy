/** lf12_move_entry for "." among the directory slots (src/libfat12/directory_entry.c). */
module EntryDotMoves {
  import opened Records
  import opened Errors
  import opened Trees
  import opened Moves
  import opened DotMoves
  import opened DirectoryEntries
  import opened EntryCreation
  import opened EntryMoves

  /** The objects of a tree in which the entries of the directory at `c` may move to the directory at `b`. */
  ghost predicate Ready(s: Shape, t: Tree, c: Address, b: Address, dir: DirectoryEntry, dest: DirectoryEntry)
    reads Objects(s)`rec, Objects(s)`children
  {
    && Whole(s, t) && NotInside(t, c, b) && FreeAreLeaves(At(t, c).kids)
    && dir == SubShape(s, c).self && dest == SubShape(s, b).self
  }

  /** After one step the two directories are still the same objects. */
  lemma StepShape(s: Shape, t: Tree, c: Address, i: nat, b: Address, j: nat)
    requires Whole(s, t) && Moving(t, c, i, b, j) && FreeAreLeaves(At(t, c).kids)
    ensures var a, x := c + [i], b + [j];
            && Valid(t, a) && Valid(t, x) && Apart(a, x)
            && ValidShape(s, a) && ValidShape(s, x) && ValidShape(s, c) && ValidShape(s, b)
            && SubShape(MovedShape(s, a, x), c).self == SubShape(s, c).self
            && SubShape(MovedShape(s, a, x), b).self == SubShape(s, b).self
            && Objects(MovedShape(s, a, x)) <= Objects(s) && MovedShape(s, a, x).self == s.self
  {
    var a, x := c + [i], b + [j];
    SlotAt(t, c, i);
    SlotAt(t, b, j);
    SlotsApart(t, c, i, b, j);
    ValidInShape(s, t, a);
    ValidInShape(s, t, x);
    ValidInShape(s, t, c);
    ValidInShape(s, t, b);
    MovedObjects(s, a, x);
    var mid := PutShape(s, a, Shape(SubShape(s, a).self, []));
    SelfKept(s, a, Shape(SubShape(s, a).self, []), x);
    assert a[..|c|] == c && (a <= b ==> c <= b) && (x <= c ==> x <= a);
    SelfKept(s, a, Shape(SubShape(s, a).self, []), c);
    SelfKept(s, a, Shape(SubShape(s, a).self, []), b);
    SelfKept(mid, x, Shape(SubShape(s, x).self, SubShape(s, a).kids), c);
    SelfKept(mid, x, Shape(SubShape(s, x).self, SubShape(s, a).kids), b);
  }

  /** One step keeps the two directories ready for the next. */
  lemma StepTree(t: Tree, c: Address, i: nat, b: Address, j: nat)
    requires Moving(t, c, i, b, j) && FreeAreLeaves(At(t, c).kids)
    ensures var t' := MoveStep(t, c + [i], b, j);
            && NotInside(t', c, b) && FreeAreLeaves(At(t', c).kids)
            && |At(t', c).kids| == |At(t, c).kids| && |At(t', b).kids| == |At(t, b).kids|
  {
    var t' := MoveStep(t, c + [i], b, j);
    MovingStep(t, c, i, b, j);
    LeavesStep(t, c, b, i, j);
    forall k | 0 <= k < |At(t', c).kids| && !Used(At(t', c).kids[k].rec) ensures At(t', c).kids[k].kids == [] {
      SourceSlot(t, c, i, b, j, k);
    }
  }

  /** The slots of both directories as the code reads them. */
  lemma ReadSlots(s: Shape, t: Tree, c: Address, b: Address, dir: DirectoryEntry, dest: DirectoryEntry)
    requires Ready(s, t, c, b, dir, dest)
    ensures |dir.children| == |At(t, c).kids| && |dest.children| == |At(t, b).kids|
    ensures forall i :: 0 <= i < |dir.children| ==>
              dir.children[i] == SubShape(s, c + [i]).self && dir.children[i].rec == At(t, c).kids[i].rec
    ensures forall j :: 0 <= j < |dest.children| ==>
              dest.children[j] == SubShape(s, b + [j]).self && dest.children[j].rec == At(t, b).kids[j].rec
  {
    RepSplit(s, t, c);
    RepSplit(s, t, b);
    forall i | 0 <= i < |dir.children| ensures dir.children[i] == SubShape(s, c + [i]).self {
      SubShapeAppend(s, t, c, i);
    }
    forall j | 0 <= j < |dest.children| ensures dest.children[j] == SubShape(s, b + [j]).self {
      SubShapeAppend(s, t, b, j);
    }
  }

  /** One turn of the inner loop. */
  method DotStep(dir: DirectoryEntry, dest: DirectoryEntry, i: nat, j: nat,
                 ghost s: Shape, ghost t: Tree, ghost c: Address, ghost b: Address) returns (ghost s': Shape)
    requires Ready(s, t, c, b, dir, dest) && i < |At(t, c).kids| && j < |At(t, b).kids|
    modifies Objects(s)
    ensures Ready(s', MoveStep(t, c + [i], b, j), c, b, dir, dest) && Objects(s') <= Objects(s) && s'.self == s.self
    ensures var t' := MoveStep(t, c + [i], b, j);
            |At(t', c).kids| == |At(t, c).kids| && |At(t', b).kids| == |At(t, b).kids|
  {
    s' := s;
    ReadSlots(s, t, c, b, dir, dest);
    var child, slot := dir.children[i], dest.children[j];
    if Used(slot.rec) {
      return;
    }
    StepShape(s, t, c, i, b, j);
    StepTree(t, c, i, b, j);
    MovingStep(t, c, i, b, j);
    MoveSlots(s, t, c + [i], b + [j]);
    MoveFields(child, slot, s, t, c + [i], b + [j]);
    s' := MovedShape(s, c + [i], b + [j]);
  }

  /**
   The same turn when the destination is the entry at `a` or lies below it: `slot` is then one of the objects below
   the entry. What is left in the tree of the root directory is the cleared slot.
   */
  method CutOff(child: DirectoryEntry, slot: DirectoryEntry,
                ghost s: Shape, ghost t: Tree, ghost a: Address, ghost b: Address, ghost j: nat) returns (ghost s': Shape)
    requires Whole(s, t) && Valid(t, a) && Valid(t, b) && a != [] && a <= b && child == SubShape(s, a).self
    requires j < |At(t, b).kids| && !Used(At(t, b).kids[j].rec)
    requires slot in KidObjects(SubShape(s, a).kids)
    modifies Objects(SubShape(s, a))
    ensures Whole(s', MoveStep(t, a, b, j)) && s'.self == s.self && SubShape(s', a).self == child
  {
    OpenUp(s, t, a);
    KidObjectsOf(SubShape(s, a));
    slot.rec, slot.children, slot.parent := child.rec, child.children, child.parent;
    assert Open(s, t, a);
    ClearSlot(child, s, t, a);
    s' := PutShape(s, a, Shape(child, []));
    CutShape(s, a, Shape(child, []));
  }

  lemma CutShape(s: Shape, a: Address, k: Shape)
    requires ValidShape(s, a) && a != []
    ensures PutShape(s, a, k).self == s.self && ValidShape(PutShape(s, a, k), a) && SubShape(PutShape(s, a, k), a) == k
    decreases |a|
  {
    if |a| > 1 {
      CutShape(s.kids[a[0]], a[1..], k);
    }
  }

  /** The inner loop, which goes on after the entry has been moved. */
  method DotInner(dir: DirectoryEntry, dest: DirectoryEntry, i: nat,
                  ghost s: Shape, ghost t: Tree, ghost c: Address, ghost b: Address) returns (ghost s': Shape)
    requires Ready(s, t, c, b, dir, dest) && i < |At(t, c).kids|
    modifies Objects(s)
    ensures var t' := MoveSteps(t, c + [i], b, |At(t, b).kids|);
            && Ready(s', t', c, b, dir, dest) && Objects(s') <= Objects(s) && s'.self == s.self
            && |At(t', c).kids| == |At(t, c).kids| && |At(t', b).kids| == |At(t, b).kids|
  {
    s' := s;
    ghost var now := t;
    ReadSlots(s, t, c, b, dir, dest);
    for j := 0 to |dest.children|
      invariant now == MoveSteps(t, c + [i], b, j) && Ready(s', now, c, b, dir, dest)
      invariant Objects(s') <= Objects(s) && s'.self == s.self
      invariant |At(now, c).kids| == |At(t, c).kids| && |At(now, b).kids| == |At(t, b).kids|
    {
      s' := DotStep(dir, dest, i, j, s', now, c, b);
      now := MoveStep(now, c + [i], b, j);
    }
  }

  /** One turn of the outer loop. */
  method DotNext(dir: DirectoryEntry, dest: DirectoryEntry, i: nat,
                 ghost s: Shape, ghost t: Tree, ghost c: Address, ghost b: Address) returns (ghost s': Shape)
    requires Ready(s, t, c, b, dir, dest) && i < |At(t, c).kids|
    modifies Objects(s)
    ensures var t' := MoveNext(t, c, b, i);
            && Ready(s', t', c, b, dir, dest) && Objects(s') <= Objects(s) && s'.self == s.self
            && |At(t', c).kids| == |At(t, c).kids| && |At(t', b).kids| == |At(t, b).kids|
  {
    s' := s;
    ReadSlots(s, t, c, b, dir, dest);
    var child := dir.children[i];
    if !Used(child.rec) || IsDotDir(child.rec) {
      return;
    }
    SlotInObjects(s, t, c, i);
    child.parent := dest;
    s' := DotInner(dir, dest, i, s, t, c, b);
  }

  lemma SlotInObjects(s: Shape, t: Tree, c: Address, i: nat)
    requires Whole(s, t) && Valid(t, c) && i < |At(t, c).kids|
    ensures SubShape(s, c + [i]).self in Objects(s)
  {
    SlotAt(t, c, i);
    OutsideApart(s, t, c + [i]);
    assert SubShape(s, c + [i]).self in Objects(SubShape(s, c + [i]));
  }

  /** Both loops. */
  method DotOuter(dir: DirectoryEntry, dest: DirectoryEntry, ghost s: Shape, ghost t: Tree, ghost c: Address, ghost b: Address)
    returns (ghost s': Shape)
    requires Ready(s, t, c, b, dir, dest)
    modifies Objects(s)
    ensures Ready(s', MoveAll(t, c, b, |At(t, c).kids|), c, b, dir, dest) && Objects(s') <= Objects(s) && s'.self == s.self
  {
    s' := s;
    ghost var now := t;
    ReadSlots(s, t, c, b, dir, dest);
    for i := 0 to |dir.children|
      invariant now == MoveAll(t, c, b, i) && Ready(s', now, c, b, dir, dest)
      invariant Objects(s') <= Objects(s) && s'.self == s.self && |At(now, c).kids| == |At(t, c).kids|
    {
      s' := DotNext(dir, dest, i, s', now, c, b);
      now := MoveNext(now, c, b, i);
    }
  }

  /** The outcome of lf12_move_entry for "." in the directory at `c`. */
  ghost function DotError(t: Tree, c: Address, b: Address): Error
    requires Valid(t, c) && Valid(t, b)
  {
    if !IsDirectory(At(t, b).rec) then NotADir
    else if CountUsed(At(t, c).kids) - 2 > |At(t, b).kids| - CountUsed(At(t, b).kids) then DirFull
    else Success
  }

  /**
   lf12_move_entry for the "." entry `src` of the directory at `c`, which its parent link leads to. It moves the
   other entries of that directory. The parent links below them are not updated and not part of this contract.
   */
  method MoveDot(src: DirectoryEntry, dest: DirectoryEntry, ghost s: Shape, ghost t: Tree, ghost c: Address, ghost b: Address)
    returns (err: Error, ghost s': Shape)
    requires src.parent != null && Ready(s, t, c, b, src.parent, dest) && IsDirectory(At(t, c).rec)
    modifies Objects(s)
    ensures err == DotError(t, c, b) && Objects(s') <= Objects(s) && s'.self == s.self
    ensures Whole(s', if err == Success then MoveAll(t, c, b, |At(t, c).kids|) else t)
  {
    s' := s;
    var dir := src.parent;
    RepSplit(s, t, b);
    RepSplit(s, t, c);
    assert allocated(Objects(s)) && Ready(s, t, c, b, dir, dest);
    if !IsDirectory(dest.rec) {
      return NotADir, s;
    }
    var inDest := GetChildCount(dest, SubShape(s, b), At(t, b));
    RepSplit(s, t, c);
    var inSource := GetChildCount(dir, SubShape(s, c), At(t, c));
    assert Ready(s, t, c, b, dir, dest);
    if inSource - 2 > |dest.children| - inDest {
      return DirFull, s;
    }
    s' := DotOuter(dir, dest, s, t, c, b);
    err := Success;
  }
}
