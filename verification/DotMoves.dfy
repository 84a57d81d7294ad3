/** Moving ".": what the nested loops of lf12_move_entry do to the two directories (src/libfat12/directory_entry.c). */
module DotMoves {
  import opened Records
  import opened Disks
  import opened Trees
  import opened Moves
  import opened Deletion

  // ----- what the loops compute -----

  /**
   One turn of the inner loop: the entry at `a` goes into slot `j` of the directory at `b` if that is free. When the
   directory is the entry itself or lies below it, nothing but the cleared slot remains in the tree.
   */
  ghost function MoveStep(t: Tree, a: Address, b: Address, j: nat): Tree {
    if !(Valid(t, a) && Valid(t, b) && j < |At(t, b).kids|) || Used(At(t, b).kids[j].rec) then t
    else if a <= b then Put(t, a, FREE)
    else
      TargetStays(t, a, b, j);
      Put(Put(t, a, FREE), b + [j], At(t, a))
  }

  lemma TargetStays(t: Tree, a: Address, b: Address, j: nat)
    requires Valid(t, a) && Valid(t, b) && !(a <= b) && j < |At(t, b).kids|
    ensures Valid(Put(t, a, FREE), b + [j])
  {
    var x := b + [j];
    SlotAt(t, b, j);
    if a <= x {
      assert a == x;
      AtPut(t, a, FREE);
    } else if x <= a {
      AtPutAbove(t, a, FREE, x);
    } else {
      AtPutElsewhere(t, a, FREE, x);
    }
  }

  lemma SlotAt(t: Tree, b: Address, j: nat)
    requires Valid(t, b) && j < |At(t, b).kids|
    ensures Valid(t, b + [j]) && At(t, b + [j]) == At(t, b).kids[j]
  {
    ValidAppend(t, b, [j]);
    assert At(At(t, b), [j]) == At(t, b).kids[j];
  }

  /** The inner loop over the first `n` slots; it does not stop when the entry has been moved. */
  ghost function MoveSteps(t: Tree, a: Address, b: Address, n: nat): Tree {
    if n == 0 then t else MoveStep(MoveSteps(t, a, b, n - 1), a, b, n - 1)
  }

  /** One turn of the outer loop: the inner loop for slot `i` of the directory at `c` if that holds a live entry. */
  ghost function MoveNext(t: Tree, c: Address, b: Address, i: nat): Tree {
    if Valid(t, c) && Valid(t, b) && i < |At(t, c).kids| && Live(At(t, c).kids[i].rec)
    then MoveSteps(t, c + [i], b, |At(t, b).kids|)
    else t
  }

  /** The outer loop over the first `n` slots, for a destination that does not lie below the source. */
  ghost function MoveAll(t: Tree, c: Address, b: Address, n: nat): Tree {
    if n == 0 then t else MoveNext(MoveAll(t, c, b, n - 1), c, b, n - 1)
  }

  // ----- places that do not touch each other -----

  /** Nothing lies below a free slot. */
  predicate FreeAreLeaves(kids: seq<Tree>) {
    forall j :: 0 <= j < |kids| && !Used(kids[j].rec) ==> kids[j].kids == []
  }

  /** The directory at `b` is neither the one at `c` nor below it. */
  ghost predicate NotInside(t: Tree, c: Address, b: Address) {
    Valid(t, c) && Valid(t, b) && !(c <= b) && FreeAreLeaves(At(t, b).kids)
  }

  /** A slot of the source directory and a free slot of the destination are apart. */
  lemma SlotsApart(t: Tree, c: Address, i: nat, b: Address, j: nat)
    requires NotInside(t, c, b) && i < |At(t, c).kids| && j < |At(t, b).kids| && !Used(At(t, b).kids[j].rec)
    ensures Apart(c + [i], b + [j])
  {
    var a, x := c + [i], b + [j];
    SlotAt(t, c, i);
    SlotAt(t, b, j);
    assert (a <= x ==> a == x || a <= b) && (a <= b ==> c <= b) && (a == x ==> c == b);
    assert x <= a ==> a == x + a[|x|..];
    if x <= a {
      ValidAppend(t, x, a[|x|..]);
    }
  }

  lemma SiblingsApart(b: Address, i: nat, j: nat)
    requires i != j
    ensures Apart(b + [i], b + [j])
  {
    assert (b + [i])[|b|] == i && (b + [j])[|b|] == j;
  }

  /** A changed slot leaves the number of slots of every directory that is not at or below it. */
  lemma SlotsKept(t: Tree, x: Address, u: Tree, y: Address)
    requires Valid(t, x) && Valid(t, y) && !(x <= y)
    ensures Valid(Put(t, x, u), y) && |At(Put(t, x, u), y).kids| == |At(t, y).kids|
    ensures At(Put(t, x, u), y).rec == At(t, y).rec
  {
    if y <= x {
      AtPutAbove(t, x, u, y);
    } else {
      AtPutElsewhere(t, x, u, y);
    }
  }

  // ----- what the loops should do, on the slots of the two directories -----

  function FreeCleared(kids: seq<Tree>): (r: seq<Tree>)
    ensures |r| == |kids| && forall j :: 0 <= j < |kids| ==> r[j] == if Used(kids[j].rec) then kids[j] else FREE
  {
    seq(|kids|, j requires 0 <= j < |kids| => if Used(kids[j].rec) then kids[j] else FREE)
  }

  /** `u` in the first free slot, and all other free slots cleared. */
  function PutFirst(kids: seq<Tree>, u: Tree): (r: seq<Tree>)
    ensures |r| == |kids|
  {
    if kids == [] then []
    else if Used(kids[0].rec) then [kids[0]] + PutFirst(kids[1..], u)
    else [u] + FreeCleared(kids[1..])
  }

  /** The entries `moved` in the first free slots, in order, and all other free slots cleared. */
  function Placed(kids: seq<Tree>, moved: seq<Tree>): (r: seq<Tree>)
    ensures |r| == |kids|
  {
    if kids == [] then []
    else if Used(kids[0].rec) then [kids[0]] + Placed(kids[1..], moved)
    else if moved == [] then FreeCleared(kids)
    else [moved[0]] + Placed(kids[1..], moved[1..])
  }

  /** The number of free slots before slot `j`. */
  function FreeBefore(kids: seq<Tree>, j: nat): (r: nat)
    requires j <= |kids|
    ensures r <= j
  {
    if j == 0 then 0 else FreeBefore(kids, j - 1) + if Used(kids[j - 1].rec) then 0 else 1
  }

  /** The live entries of the first `n` slots, in order. */
  function LiveOf(kids: seq<Tree>, n: nat): seq<Tree>
    requires n <= |kids|
  {
    if n == 0 then [] else LiveOf(kids, n - 1) + if Live(kids[n - 1].rec) then [kids[n - 1]] else []
  }

  /** The first `n` slots without their live entries. */
  function Emptied(kids: seq<Tree>, n: nat): (r: seq<Tree>)
    requires n <= |kids|
    ensures |r| == |kids|
    ensures forall i :: 0 <= i < |kids| ==> r[i] == if i < n && Live(kids[i].rec) then FREE else kids[i]
  {
    seq(|kids|, i requires 0 <= i < |kids| => if i < n && Live(kids[i].rec) then FREE else kids[i])
  }

  /** What each slot holds: the k-th free slot gets the k-th entry. */
  lemma {:induction false} PlacedSlots(kids: seq<Tree>, moved: seq<Tree>, j: nat)
    requires j < |kids|
    ensures Placed(kids, moved)[j] ==
            if Used(kids[j].rec) then kids[j]
            else if FreeBefore(kids, j) < |moved| then moved[FreeBefore(kids, j)]
            else FREE
  {
    if j == 0 {
      assert FreeBefore(kids, 0) == 0;
    } else {
      FreeBeforeRest(kids, j);
      if Used(kids[0].rec) {
        PlacedSlots(kids[1..], moved, j - 1);
      } else if moved != [] {
        PlacedSlots(kids[1..], moved[1..], j - 1);
      }
    }
  }

  lemma {:induction false} FreeBeforeRest(kids: seq<Tree>, j: nat)
    requires 0 < j <= |kids|
    ensures FreeBefore(kids, j) == (if Used(kids[0].rec) then 0 else 1) + FreeBefore(kids[1..], j - 1)
  {
    if j > 1 {
      FreeBeforeRest(kids, j - 1);
    }
  }

  predicate AllUsed(kids: seq<Tree>) {
    forall i :: 0 <= i < |kids| ==> Used(kids[i].rec)
  }

  lemma FreeClearedTwice(kids: seq<Tree>)
    ensures FreeCleared(FreeCleared(kids)) == FreeCleared(kids)
  {
    EmptyRecordIsZero();
  }

  lemma {:induction false} PlacedNothing(kids: seq<Tree>)
    ensures Placed(kids, []) == FreeCleared(kids)
  {
    if kids != [] && Used(kids[0].rec) {
      PlacedNothing(kids[1..]);
    }
  }

  lemma {:induction false} PlaceFirst(kids: seq<Tree>, u: Tree)
    ensures PutFirst(kids, u) == Placed(kids, [u])
  {
    if kids != [] {
      if Used(kids[0].rec) {
        PlaceFirst(kids[1..], u);
      } else {
        assert [u][1..] == [];
        PlacedNothing(kids[1..]);
      }
    }
  }

  lemma PlaceOnly(kids: seq<Tree>, u: Tree)
    requires kids != [] && !Used(kids[0].rec)
    ensures PutFirst(Placed(kids, []), u) == Placed(kids, [] + [u])
  {
    EmptyRecordIsZero();
    assert FreeCleared(kids)[1..] == FreeCleared(kids[1..]) && ([] + [u])[1..] == [];
    FreeClearedTwice(kids[1..]);
    PlacedNothing(kids[1..]);
  }

  /** One more entry lands in the next free slot. */
  lemma {:induction false} PlaceNext(kids: seq<Tree>, moved: seq<Tree>, u: Tree)
    requires AllUsed(moved) && |moved| < FreeBefore(kids, |kids|)
    ensures PutFirst(Placed(kids, moved), u) == Placed(kids, moved + [u])
  {
    FreeBeforeRest(kids, |kids|);
    if Used(kids[0].rec) {
      PlaceNext(kids[1..], moved, u);
      assert Placed(kids, moved)[1..] == Placed(kids[1..], moved);
    } else if moved == [] {
      PlaceOnly(kids, u);
    } else {
      PlaceNext(kids[1..], moved[1..], u);
      assert Placed(kids, moved)[1..] == Placed(kids[1..], moved[1..]);
      assert (moved + [u])[1..] == moved[1..] + [u];
    }
  }

  // ----- the loops on the slots -----

  ghost predicate SourceSlots(t: Tree, c: Address, src: seq<Tree>)
    requires Valid(t, c)
  {
    |At(t, c).kids| == |src| && forall i :: 0 <= i < |src| ==> At(t, c).kids[i] == src[i]
  }

  /** A slot that was used holds its record, and its subtree too unless the source directory is in it. */
  ghost predicate UsedSlots(d0: seq<Tree>, t: Tree, c: Address, b: Address, dst: seq<Tree>)
    requires Valid(t, b)
  {
    && |At(t, b).kids| == |dst| == |d0|
    && forall j :: 0 <= j < |d0| && Used(d0[j].rec) ==>
         && dst[j] == d0[j] && At(t, b).kids[j].rec == d0[j].rec
         && (!(b + [j] <= c) ==> At(t, b).kids[j] == d0[j])
  }

  /** A slot that was free holds what `dst` says. */
  ghost predicate FreeSlots(d0: seq<Tree>, t: Tree, c: Address, b: Address, dst: seq<Tree>)
    requires Valid(t, b)
  {
    && |At(t, b).kids| == |dst| == |d0|
    && forall j :: 0 <= j < |d0| && !Used(d0[j].rec) ==> At(t, b).kids[j] == dst[j] && !(b + [j] <= c)
  }

  /** The slots of the two directories, compared with the destination's slots `d0` at the beginning. */
  ghost predicate Slots(d0: seq<Tree>, t: Tree, c: Address, b: Address, src: seq<Tree>, dst: seq<Tree>) {
    NotInside(t, c, b) && SourceSlots(t, c, src) && UsedSlots(d0, t, c, b, dst) && FreeSlots(d0, t, c, b, dst)
  }

  /** A turn that moves something: both directories keep their number of slots. */
  ghost predicate Moving(t: Tree, c: Address, i: nat, b: Address, j: nat) {
    NotInside(t, c, b) && i < |At(t, c).kids| && j < |At(t, b).kids| && !Used(At(t, b).kids[j].rec)
  }

  lemma MovingStep(t: Tree, c: Address, i: nat, b: Address, j: nat)
    requires Moving(t, c, i, b, j)
    ensures var t' := MoveStep(t, c + [i], b, j);
            && Valid(t, c + [i]) && Valid(Put(t, c + [i], FREE), b + [j])
            && t' == Put(Put(t, c + [i], FREE), b + [j], At(t, c).kids[i])
            && Valid(t', c) && Valid(t', b)
            && |At(t', c).kids| == |At(t, c).kids| && |At(t', b).kids| == |At(t, b).kids|
  {
    var a, x := c + [i], b + [j];
    SlotAt(t, c, i);
    SlotAt(t, b, j);
    SlotsApart(t, c, i, b, j);
    assert a <= b ==> a <= x;
    AtPutElsewhere(t, a, FREE, x);
    SlotsKept(t, a, FREE, b);
    SlotsKept(t, a, FREE, c);
    assert !(x <= b) && (x <= c ==> x <= a);
    SlotsKept(Put(t, a, FREE), x, At(t, a), b);
    SlotsKept(Put(t, a, FREE), x, At(t, a), c);
  }

  /** The slots of the source directory after the turn. */
  lemma SourceSlot(t: Tree, c: Address, i: nat, b: Address, j: nat, k: nat)
    requires Moving(t, c, i, b, j) && k < |At(t, c).kids|
    ensures var t' := MoveStep(t, c + [i], b, j);
            && Valid(t', c) && k < |At(t', c).kids|
            && At(t', c).kids[k] == if k == i then FREE else At(t, c).kids[k]
  {
    var a, x, y := c + [i], b + [j], c + [k];
    MovingStep(t, c, i, b, j);
    SlotAt(t, c, k);
    SlotAt(MoveStep(t, a, b, j), c, k);
    SlotsApart(t, c, k, b, j);
    if k == i {
      AtPut(t, a, FREE);
    } else {
      SiblingsApart(c, i, k);
      AtPutElsewhere(t, a, FREE, y);
    }
    AtPutElsewhere(Put(t, a, FREE), x, At(t, c).kids[i], y);
  }

  /** A slot of the destination is not at or below one of the source; if it is above one, then above all. */
  lemma NotBelowSource(c: Address, i: nat, b: Address, k: nat)
    requires !(c <= b)
    ensures !(c + [i] <= b + [k]) && (b + [k] <= c + [i] ==> b + [k] <= c)
  {
    assert (c + [i])[..|c|] == c && (b + [k])[..|b|] == b;
  }

  /** The slots of the destination after the turn: a slot above the source directory keeps its record only. */
  lemma DestinationSlot(t: Tree, c: Address, i: nat, b: Address, j: nat, k: nat)
    requires Moving(t, c, i, b, j) && k < |At(t, b).kids| && k != j
    ensures var t' := MoveStep(t, c + [i], b, j);
            && Valid(t', b) && k < |At(t', b).kids| && At(t', b).kids[k].rec == At(t, b).kids[k].rec
            && (!(b + [k] <= c) ==> At(t', b).kids[k] == At(t, b).kids[k])
  {
    var a, x, y := c + [i], b + [j], b + [k];
    MovingStep(t, c, i, b, j);
    var mid, u := Put(t, a, FREE), At(t, c).kids[i];
    SlotAt(t, b, k);
    SlotAt(MoveStep(t, a, b, j), b, k);
    NotBelowSource(c, i, b, k);
    SiblingsApart(b, j, k);
    SlotsKept(t, a, FREE, y);
    AtPutElsewhere(mid, x, u, y);
    if !(y <= c) {
      AtPutElsewhere(t, a, FREE, y);
    }
  }

  lemma TargetSlot(t: Tree, c: Address, i: nat, b: Address, j: nat)
    requires Moving(t, c, i, b, j)
    ensures var t' := MoveStep(t, c + [i], b, j);
            Valid(t', b) && j < |At(t', b).kids| && At(t', b).kids[j] == At(t, c).kids[i]
  {
    MovingStep(t, c, i, b, j);
    AtPut(Put(t, c + [i], FREE), b + [j], At(t, c).kids[i]);
    SlotAt(MoveStep(t, c + [i], b, j), b, j);
  }

  lemma SourceStep(t: Tree, c: Address, b: Address, src: seq<Tree>, i: nat, j: nat)
    requires Moving(t, c, i, b, j) && SourceSlots(t, c, src)
    ensures var t' := MoveStep(t, c + [i], b, j); Valid(t', c) && SourceSlots(t', c, src[i := FREE])
  {
    var t' := MoveStep(t, c + [i], b, j);
    MovingStep(t, c, i, b, j);
    forall k | 0 <= k < |src| ensures At(t', c).kids[k] == src[i := FREE][k] {
      SourceSlot(t, c, i, b, j, k);
    }
  }

  lemma UsedStep(d0: seq<Tree>, t: Tree, c: Address, b: Address, dst: seq<Tree>, i: nat, j: nat, u: Tree)
    requires Moving(t, c, i, b, j) && UsedSlots(d0, t, c, b, dst)
    ensures var t' := MoveStep(t, c + [i], b, j); Valid(t', b) && UsedSlots(d0, t', c, b, dst[j := u])
  {
    MovingStep(t, c, i, b, j);
    forall k | 0 <= k < |d0| && Used(d0[k].rec)
      ensures var t' := MoveStep(t, c + [i], b, j);
              && At(t', b).kids[k].rec == d0[k].rec && (!(b + [k] <= c) ==> At(t', b).kids[k] == d0[k])
    {
      DestinationSlot(t, c, i, b, j, k);
    }
  }

  lemma FreeSlotsStep(d0: seq<Tree>, t: Tree, c: Address, b: Address, dst: seq<Tree>, i: nat, j: nat)
    requires Moving(t, c, i, b, j) && FreeSlots(d0, t, c, b, dst) && j < |d0|
    ensures var t' := MoveStep(t, c + [i], b, j); Valid(t', b) && FreeSlots(d0, t', c, b, dst[j := At(t, c).kids[i]])
  {
    var t' := MoveStep(t, c + [i], b, j);
    MovingStep(t, c, i, b, j);
    TargetSlot(t, c, i, b, j);
    forall k | 0 <= k < |d0| && !Used(d0[k].rec) && k != j ensures At(t', b).kids[k] == dst[k] {
      DestinationSlot(t, c, i, b, j, k);
    }
  }

  lemma LeavesStep(t: Tree, c: Address, b: Address, i: nat, j: nat)
    requires Moving(t, c, i, b, j) && (!Used(At(t, c).kids[i].rec) ==> At(t, c).kids[i].kids == [])
    ensures NotInside(MoveStep(t, c + [i], b, j), c, b)
  {
    var t' := MoveStep(t, c + [i], b, j);
    MovingStep(t, c, i, b, j);
    forall k | 0 <= k < |At(t', b).kids| && !Used(At(t', b).kids[k].rec) ensures At(t', b).kids[k].kids == [] {
      if k == j {
        TargetSlot(t, c, i, b, j);
      } else {
        DestinationSlot(t, c, i, b, j, k);
        if b + [k] <= c {
          AboveHasKids(t, c, i, b, k);
        }
      }
    }
  }

  /** A slot above the source directory is not free. */
  lemma AboveHasKids(t: Tree, c: Address, i: nat, b: Address, k: nat)
    requires NotInside(t, c, b) && i < |At(t, c).kids| && k < |At(t, b).kids| && b + [k] <= c
    ensures Used(At(t, b).kids[k].rec)
  {
    var y := b + [k];
    SlotAt(t, b, k);
    assert c == y + c[|y|..];
    ValidAppend(t, y, c[|y|..]);
  }

  /** The slots after one turn of the inner loop that finds slot `j` free. */
  lemma FreeStep(d0: seq<Tree>, t: Tree, c: Address, b: Address, src: seq<Tree>, dst: seq<Tree>, i: nat, j: nat)
    requires Slots(d0, t, c, b, src, dst) && i < |src| && j < |d0| && !Used(dst[j].rec) && !Used(d0[j].rec)
    requires !Used(src[i].rec) ==> src[i].kids == []
    ensures Slots(d0, MoveStep(t, c + [i], b, j), c, b, src[i := FREE], dst[j := src[i]])
  {
    SourceStep(t, c, b, src, i, j);
    UsedStep(d0, t, c, b, dst, i, j, src[i]);
    FreeSlotsStep(d0, t, c, b, dst, i, j);
    LeavesStep(t, c, b, i, j);
  }

  /** A turn that finds the slot in use changes nothing. */
  lemma UsedSlotStep(d0: seq<Tree>, t: Tree, c: Address, b: Address, src: seq<Tree>, dst: seq<Tree>, a: Address, j: nat)
    requires Slots(d0, t, c, b, src, dst) && j < |dst| && Used(dst[j].rec)
    ensures MoveStep(t, a, b, j) == t
  {
    assert Used(d0[j].rec) ==> At(t, b).kids[j].rec == d0[j].rec;
    assert !Used(d0[j].rec) ==> At(t, b).kids[j] == dst[j];
  }

  // ----- the inner loop -----

  /** `f` is the first free slot, or the number of slots. */
  ghost predicate FirstFree(kids: seq<Tree>, f: nat) {
    f <= |kids| && (forall j :: 0 <= j < f ==> Used(kids[j].rec)) && (f < |kids| ==> !Used(kids[f].rec))
  }

  /** The first `n` slots after the inner loop came past them with the entry `u`. */
  function Passed(kids: seq<Tree>, u: Tree, f: nat, n: nat): (r: seq<Tree>)
    ensures |r| == |kids|
    ensures forall j :: 0 <= j < |kids| ==>
              r[j] == if j >= n || Used(kids[j].rec) then kids[j] else if j == f then u else FREE
  {
    seq(|kids|, j requires 0 <= j < |kids| => if j >= n || Used(kids[j].rec) then kids[j] else if j == f then u else FREE)
  }

  lemma {:induction false} PassedAll(kids: seq<Tree>, u: Tree, f: nat)
    requires FirstFree(kids, f)
    ensures Passed(kids, u, f, |kids|) == PutFirst(kids, u)
  {
    if kids != [] {
      if Used(kids[0].rec) {
        PassedAll(kids[1..], u, f - 1);
        assert Passed(kids, u, f, |kids|)[1..] == Passed(kids[1..], u, f - 1, |kids| - 1);
      } else {
        assert Passed(kids, u, f, |kids|)[1..] == FreeCleared(kids[1..]);
      }
    }
  }

  /** The slots after the first `n` turns of the inner loop for the entry in slot `i`. */
  ghost predicate InnerState(d0: seq<Tree>, t: Tree, c: Address, b: Address, src: seq<Tree>, dst: seq<Tree>, i: nat,
                             f: nat, n: nat)
    requires i < |src|
  {
    Slots(d0, t, c, b, if n <= f then src else src[i := FREE], Passed(dst, src[i], f, n))
  }

  /** Slots in use at the beginning are in use. */
  predicate StillUsed(d0: seq<Tree>, dst: seq<Tree>) {
    |d0| == |dst| && forall j :: 0 <= j < |d0| && Used(d0[j].rec) ==> Used(dst[j].rec)
  }

  lemma {:induction false} InnerLoop(d0: seq<Tree>, t: Tree, c: Address, b: Address, src: seq<Tree>, dst: seq<Tree>, i: nat,
                                     f: nat, n: nat)
    requires i < |src| && InnerState(d0, t, c, b, src, dst, i, f, 0)
    requires Used(src[i].rec) && FirstFree(dst, f) && n <= |dst| && StillUsed(d0, dst)
    ensures InnerState(d0, MoveSteps(t, c + [i], b, n), c, b, src, dst, i, f, n)
    decreases n
  {
    hide InnerState, FirstFree, StillUsed;
    if n > 0 {
      InnerLoop(d0, t, c, b, src, dst, i, f, n - 1);
      InnerTurn(d0, MoveSteps(t, c + [i], b, n - 1), c, b, src, dst, i, f, n - 1);
    }
  }

  /** One turn of the inner loop. */
  lemma InnerTurn(d0: seq<Tree>, t: Tree, c: Address, b: Address, src: seq<Tree>, dst: seq<Tree>, i: nat, f: nat, j: nat)
    requires i < |src| && Used(src[i].rec) && FirstFree(dst, f) && j < |dst| && StillUsed(d0, dst)
    requires InnerState(d0, t, c, b, src, dst, i, f, j)
    ensures InnerState(d0, MoveStep(t, c + [i], b, j), c, b, src, dst, i, f, j + 1)
  {
    hide Slots;
    EmptyRecordIsZero();
    var u, now, held := src[i], if j <= f then src else src[i := FREE], Passed(dst, src[i], f, j);
    assert held[j] == dst[j];
    if Used(dst[j].rec) {
      UsedSlotStep(d0, t, c, b, now, held, c + [i], j);
      assert Passed(dst, u, f, j + 1) == held;
    } else {
      FreeStep(d0, t, c, b, now, held, i, j);
      assert Passed(dst, u, f, j + 1) == held[j := now[i]];
      assert now[i := FREE] == src[i := FREE];
    }
  }

  /** The whole inner loop: the entry lands in the first free slot, all other free slots are cleared. */
  lemma InnerDone(d0: seq<Tree>, t: Tree, c: Address, b: Address, src: seq<Tree>, dst: seq<Tree>, i: nat, f: nat)
    requires Slots(d0, t, c, b, src, dst) && i < |src| && Used(src[i].rec) && FirstFree(dst, f) && f < |dst|
    requires StillUsed(d0, dst)
    ensures Slots(d0, MoveSteps(t, c + [i], b, |dst|), c, b, src[i := FREE], PutFirst(dst, src[i]))
  {
    assert Passed(dst, src[i], f, 0) == dst;
    InnerLoop(d0, t, c, b, src, dst, i, f, |dst|);
    PassedAll(dst, src[i], f);
  }

  // ----- the outer loop -----

  lemma {:induction false} FindRank(kids: seq<Tree>, n: nat, m: nat) returns (j: nat)
    requires n <= |kids| && m < FreeBefore(kids, n)
    ensures j < n && !Used(kids[j].rec) && FreeBefore(kids, j) == m
    decreases n
  {
    if m < FreeBefore(kids, n - 1) {
      j := FindRank(kids, n - 1, m);
    } else {
      j := n - 1;
    }
  }

  /** As long as fewer entries were placed than slots were free, there is a first free slot. */
  lemma RoomLeft(kids: seq<Tree>, moved: seq<Tree>) returns (f: nat)
    requires |moved| < FreeBefore(kids, |kids|)
    ensures FirstFree(Placed(kids, moved), f) && f < |kids|
  {
    EmptyRecordIsZero();
    var j := FindRank(kids, |kids|, |moved|);
    PlacedSlots(kids, moved, j);
    f := FindFree(Placed(kids, moved), 0);
  }

  /** The destination when the entries `moved` have arrived. */
  function Arrived(d0: seq<Tree>, moved: seq<Tree>): (r: seq<Tree>)
    ensures |r| == |d0|
  {
    if moved == [] then d0 else Placed(d0, moved)
  }

  lemma ArrivedStillUsed(d0: seq<Tree>, moved: seq<Tree>)
    ensures StillUsed(d0, Arrived(d0, moved))
  {
    forall j | 0 <= j < |d0| && Used(d0[j].rec) ensures Used(Arrived(d0, moved)[j].rec) {
      PlacedSlots(d0, moved, j);
    }
  }

  lemma ArriveNext(d0: seq<Tree>, moved: seq<Tree>, u: Tree) returns (f: nat)
    requires AllUsed(moved) && |moved| < FreeBefore(d0, |d0|)
    ensures FirstFree(Arrived(d0, moved), f) && f < |d0|
    ensures PutFirst(Arrived(d0, moved), u) == Arrived(d0, moved + [u])
  {
    if moved == [] {
      PlaceFirst(d0, u);
      var j := FindRank(d0, |d0|, 0);
      f := FindFree(d0, 0);
      assert [] + [u] == [u];
    } else {
      PlaceNext(d0, moved, u);
      f := RoomLeft(d0, moved);
    }
  }

  lemma {:induction false} LiveAreUsed(kids: seq<Tree>, n: nat, m: nat)
    requires n <= m <= |kids|
    ensures AllUsed(LiveOf(kids, n)) && |LiveOf(kids, n)| <= |LiveOf(kids, m)|
    decreases m
  {
    if n < m {
      LiveAreUsed(kids, n, m - 1);
    } else if n > 0 {
      LiveAreUsed(kids, n - 1, n - 1);
    }
  }

  lemma EmptiedNext(kids: seq<Tree>, n: nat)
    requires n < |kids|
    ensures Emptied(kids, n)[n] == kids[n]
    ensures Live(kids[n].rec) ==> Emptied(kids, n + 1) == Emptied(kids, n)[n := FREE]
    ensures !Live(kids[n].rec) ==> Emptied(kids, n + 1) == Emptied(kids, n)
  {
  }

  /** After `n` turns of the outer loop. */
  ghost predicate OuterState(k0: seq<Tree>, d0: seq<Tree>, t: Tree, c: Address, b: Address, n: nat)
    requires n <= |k0|
  {
    Slots(d0, t, c, b, Emptied(k0, n), Arrived(d0, LiveOf(k0, n)))
  }

  lemma MoveNextIs(k0: seq<Tree>, d0: seq<Tree>, t: Tree, c: Address, b: Address, n: nat)
    requires n < |k0| && OuterState(k0, d0, t, c, b, n)
    ensures MoveNext(t, c, b, n) == if Live(k0[n].rec) then MoveSteps(t, c + [n], b, |d0|) else t
  {
    EmptiedNext(k0, n);
  }

  lemma OuterTurn(k0: seq<Tree>, d0: seq<Tree>, t: Tree, c: Address, b: Address, n: nat)
    requires n < |k0| && OuterState(k0, d0, t, c, b, n) && Live(k0[n].rec)
    requires |LiveOf(k0, |k0|)| <= FreeBefore(d0, |d0|)
    ensures OuterState(k0, d0, MoveSteps(t, c + [n], b, |d0|), c, b, n + 1)
  {
    var moved := LiveOf(k0, n);
    EmptiedNext(k0, n);
    LiveAreUsed(k0, n, n);
    LiveAreUsed(k0, n + 1, |k0|);
    assert LiveOf(k0, n + 1) == moved + [k0[n]];
    var f := ArriveNext(d0, moved, k0[n]);
    ArrivedStillUsed(d0, moved);
    InnerDone(d0, t, c, b, Emptied(k0, n), Arrived(d0, moved), n, f);
  }

  lemma OuterSkip(k0: seq<Tree>, d0: seq<Tree>, t: Tree, c: Address, b: Address, n: nat)
    requires n < |k0| && OuterState(k0, d0, t, c, b, n) && !Live(k0[n].rec)
    ensures OuterState(k0, d0, t, c, b, n + 1)
  {
    EmptiedNext(k0, n);
    assert LiveOf(k0, n + 1) == LiveOf(k0, n);
  }

  lemma OuterNext(k0: seq<Tree>, d0: seq<Tree>, t: Tree, c: Address, b: Address, n: nat)
    requires n < |k0| && OuterState(k0, d0, t, c, b, n) && |LiveOf(k0, |k0|)| <= FreeBefore(d0, |d0|)
    ensures OuterState(k0, d0, MoveNext(t, c, b, n), c, b, n + 1)
  {
    MoveNextIs(k0, d0, t, c, b, n);
    if Live(k0[n].rec) {
      OuterTurn(k0, d0, t, c, b, n);
    } else {
      OuterSkip(k0, d0, t, c, b, n);
    }
  }

  ghost predicate OuterDone(k0: seq<Tree>, d0: seq<Tree>, t: Tree, c: Address, b: Address, n: nat) {
    n <= |k0| && OuterState(k0, d0, MoveAll(t, c, b, n), c, b, n)
  }

  lemma OuterStep(k0: seq<Tree>, d0: seq<Tree>, t: Tree, c: Address, b: Address, n: nat)
    requires OuterDone(k0, d0, t, c, b, n) && n < |k0| && |LiveOf(k0, |k0|)| <= FreeBefore(d0, |d0|)
    ensures OuterDone(k0, d0, t, c, b, n + 1)
  {
    OuterNext(k0, d0, MoveAll(t, c, b, n), c, b, n);
  }

  // ----- the result -----

  /** A source directory with its two dot entries, and room for everything else that it holds. */
  ghost predicate Enough(t: Tree, c: Address, b: Address) {
    && NotInside(t, c, b) && At(t, c).kids != []
    && |LiveOf(At(t, c).kids, |At(t, c).kids|)| <= FreeBefore(At(t, b).kids, |At(t, b).kids|)
  }

  lemma StartState(t: Tree, c: Address, b: Address)
    requires NotInside(t, c, b) && At(t, c).kids != []
    ensures OuterState(At(t, c).kids, At(t, b).kids, t, c, b, 0)
  {
    var d0 := At(t, b).kids;
    assert Emptied(At(t, c).kids, 0) == At(t, c).kids;
    forall j | 0 <= j < |d0| && !Used(d0[j].rec) ensures !(b + [j] <= c) {
      if b + [j] <= c {
        AboveHasKids(t, c, 0, b, j);
      }
    }
  }

  lemma OuterLoop(t: Tree, c: Address, b: Address)
    requires Enough(t, c, b)
    ensures OuterDone(At(t, c).kids, At(t, b).kids, t, c, b, |At(t, c).kids|)
  {
    var k0, d0 := At(t, c).kids, At(t, b).kids;
    StartState(t, c, b);
    var n := 0;
    while n < |k0|
      invariant n <= |k0| && OuterDone(k0, d0, t, c, b, n)
    {
      OuterStep(k0, d0, t, c, b, n);
      n := n + 1;
    }
  }

  /**
   Moving ".": the live entries of the source land in order in the first free slots of the destination, whose
   other free slots are empty afterwards; its used slots keep their records, and their subtrees unless the source
   directory lies there; the source keeps its other slots, which are dot entries and free slots.
   */
  lemma MoveAllSlots(t: Tree, c: Address, b: Address)
    requires Enough(t, c, b)
    ensures var k0, d0 := At(t, c).kids, At(t, b).kids;
            var moved := LiveOf(k0, |k0|);
            var t' := MoveAll(t, c, b, |k0|);
            && Valid(t', c) && Valid(t', b) && At(t', c).kids == Emptied(k0, |k0|)
            && |At(t', b).kids| == |d0|
            && forall j :: 0 <= j < |d0| ==>
                 if Used(d0[j].rec) then
                   At(t', b).kids[j].rec == d0[j].rec && (!(b + [j] <= c) ==> At(t', b).kids[j] == d0[j])
                 else At(t', b).kids[j] == if moved == [] then d0[j]
                                           else if FreeBefore(d0, j) < |moved| then moved[FreeBefore(d0, j)] else FREE
  {
    var k0, d0 := At(t, c).kids, At(t, b).kids;
    var moved, t' := LiveOf(k0, |k0|), MoveAll(t, c, b, |k0|);
    OuterLoop(t, c, b);
    assert At(t', c).kids == Emptied(k0, |k0|);
    forall j | 0 <= j < |d0| && !Used(d0[j].rec)
      ensures At(t', b).kids[j] == if moved == [] then d0[j]
                                   else if FreeBefore(d0, j) < |moved| then moved[FreeBefore(d0, j)] else FREE
    {
      PlacedSlots(d0, moved, j);
    }
  }

  // ----- the check before the loops -----

  lemma {:induction false} LiveCount(kids: seq<Tree>, n: nat)
    requires n <= |kids|
    ensures |LiveOf(kids, n)| + DotCount(kids[..n]) == CountUsed(kids[..n])
  {
    if n > 0 {
      LiveCount(kids, n - 1);
      assert kids[..n][..n - 1] == kids[..n - 1];
    }
  }

  lemma {:induction false} FreeCount(kids: seq<Tree>, n: nat)
    requires n <= |kids|
    ensures FreeBefore(kids, n) + CountUsed(kids[..n]) == n
  {
    if n > 0 {
      FreeCount(kids, n - 1);
      assert kids[..n][..n - 1] == kids[..n - 1];
    }
  }

  /** With two dot entries in the source, the code's comparison of counts says exactly whether there is room. */
  lemma CountsDecide(k0: seq<Tree>, d0: seq<Tree>)
    requires DotCount(k0) == 2
    ensures CountUsed(k0) - 2 <= |d0| - CountUsed(d0) <==> |LiveOf(k0, |k0|)| <= FreeBefore(d0, |d0|)
  {
    LiveCount(k0, |k0|);
    FreeCount(d0, |d0|);
    assert k0[..|k0|] == k0 && d0[..|d0|] == d0;
  }

  // ----- soundness -----

  /** Where a step puts something, there is nothing with clusters. */
  lemma StepTarget(g: Geometry, fat: Fat.Table, t: Tree, a: Address, x: Address)
    requires DirSound(g, fat, t.kids) && Valid(t, a) && a != [] && x != [] && Valid(t, x) && !Used(At(t, x).rec)
    requires Valid(Put(t, a, FREE), x) && DirSound(g, fat, Put(t, a, FREE).kids)
    ensures TreeClusters(fat, At(Put(t, a, FREE), x)) == {}
  {
    var mid := Put(t, a, FREE);
    SoundAt(g, fat, mid, x);
    EmptyRecordIsZero();
    if a <= x {
      AtPut(t, a, FREE);
      assert x == a + x[|a|..];
      ValidAppend(mid, a, x[|a|..]);
    } else {
      RecordKept(t, a, FREE, x);
    }
    LeafHasNoClusters(g, fat, At(mid, x));
  }

  /** A sound tree with the same chains. */
  ghost predicate SameChains(g: Geometry, fat: Fat.Table, t: Tree, t': Tree) {
    DirSound(g, fat, t'.kids) && KidClusters(fat, t'.kids) == KidClusters(fat, t.kids)
  }

  lemma MoveStepSound(g: Geometry, fat: Fat.Table, t: Tree, a: Address, b: Address, j: nat)
    requires DirSound(g, fat, t.kids) && a != [] && !(a <= b)
    ensures SameChains(g, fat, t, MoveStep(t, a, b, j))
  {
    if Valid(t, a) && Valid(t, b) && j < |At(t, b).kids| && !Used(At(t, b).kids[j].rec) {
      FreeSound(g, fat);
      SoundAt(g, fat, t, a);
      PutSound(g, fat, t, a, FREE);
      SlotAt(t, b, j);
      TargetStays(t, a, b, j);
      StepTarget(g, fat, t, a, b + [j]);
      PutSound(g, fat, Put(t, a, FREE), b + [j], At(t, a));
    }
  }

  lemma {:induction false} MoveStepsSound(g: Geometry, fat: Fat.Table, t: Tree, a: Address, b: Address, n: nat)
    requires DirSound(g, fat, t.kids) && a != [] && !(a <= b)
    ensures SameChains(g, fat, t, MoveSteps(t, a, b, n))
  {
    if n > 0 {
      MoveStepsSound(g, fat, t, a, b, n - 1);
      MoveStepSound(g, fat, MoveSteps(t, a, b, n - 1), a, b, n - 1);
    }
  }

  /**
   The loops keep all chains where they are and apart, whether there is room or not, if the destination does not lie
   below the source; see DotCuts for the other case, which MoveAll describes up to the turn that cuts the entry off.
   */
  lemma {:induction false} MoveAllSound(g: Geometry, fat: Fat.Table, t: Tree, c: Address, b: Address, n: nat)
    requires DirSound(g, fat, t.kids) && !(c < b)
    ensures SameChains(g, fat, t, MoveAll(t, c, b, n))
  {
    if n > 0 {
      var before := MoveAll(t, c, b, n - 1);
      MoveAllSound(g, fat, t, c, b, n - 1);
      assert (c + [n - 1])[..|c|] == c;
      if Valid(before, b) {
        MoveStepsSound(g, fat, before, c + [n - 1], b, |At(before, b).kids|);
      }
    }
  }

  /**
   A turn for an entry that the destination lies in cuts the entry off: its chains are in the tree no more, and the
   rest of the tree is sound without them.
   */
  lemma StepLoses(g: Geometry, fat: Fat.Table, t: Tree, a: Address, b: Address, j: nat)
    requires DirSound(g, fat, t.kids) && a != [] && a <= b && Valid(t, b) && Valid(t, a)
    requires j < |At(t, b).kids| && !Used(At(t, b).kids[j].rec)
    ensures var t' := MoveStep(t, a, b, j);
            && DirSound(g, fat, t'.kids) && Valid(t', a) && At(t', a) == FREE
            && KidClusters(fat, t'.kids) == KidClusters(fat, t.kids) - TreeClusters(fat, At(t, a))
  {
    FreeSound(g, fat);
    PutSound(g, fat, t, a, FREE);
    AtPut(t, a, FREE);
  }
}
