/** The order in which _f12_dump_move visits the entries below a directory (src/move.c). */
module Walks {
  import opened Records
  import opened Disks
  import opened Trees
  import opened Deletion

  /** The walk goes into a live directory with more than two used slots. */
  predicate Entered(t: Tree) {
    Descends(t.rec) && CountUsed(t.kids) > 2
  }

  // ----- the order that the walk should have: entries before what lies below them -----

  /** The live entries of the slots from `i` on and all that the walk finds below them, as addresses below `a`. */
  function Preorder(t: Tree, a: Address, i: nat): seq<Address>
    requires i <= |t.kids|
    decreases t, |t.kids| - i
  {
    if i == |t.kids| then []
    else VisitSlot(t.kids[i], a + [i]) + Preorder(t, a, i + 1)
  }

  function VisitSlot(t: Tree, a: Address): seq<Address>
    decreases t
  {
    if !Live(t.rec) then []
    else [a] + if Entered(t) then Preorder(t, a, 0) else []
  }

  // ----- the walk with parent links, as a list of what is still to come -----

  function Up(a: Address): Address
    requires a != []
  {
    a[..|a| - 1]
  }

  function Next(a: Address): nat
    requires a != []
  {
    a[|a| - 1] + 1
  }

  /** A place of the walk: slot `i` of the directory at `a`. */
  predicate Place(t: Tree, a: Address, i: nat)
    decreases |a|
  {
    && Valid(t, a) && i <= |At(t, a).kids|
    && (a != [] ==> Entered(At(t, a)) && Valid(t, Up(a)) && Place(t, Up(a), Next(a)))
  }

  /** What the walk has still to visit from a place on. */
  function Rest(t: Tree, a: Address, i: nat): seq<Address>
    requires Place(t, a, i)
    decreases |a|
  {
    Preorder(At(t, a), a, i) + if a == [] then [] else Rest(t, Up(a), Next(a))
  }

  /** No directory that the walk enters lies in the last slot of its directory. */
  predicate NoneLast(t: Tree, i: nat)
    decreases t
  {
    forall j :: i <= j < |t.kids| && Entered(t.kids[j]) ==> j + 1 < |t.kids| && NoneLast(t.kids[j], 0)
  }

  /** The walk can go on from a place to the end. */
  predicate Passable(t: Tree, a: Address, i: nat)
    requires Place(t, a, i)
    decreases |a|
  {
    NoneLast(At(t, a), i) && (a != [] ==> Next(a) < |At(t, Up(a)).kids| && Passable(t, Up(a), Next(a)))
  }

  /** A bound for the number of turns from a place on. */
  function Turns(t: Tree, a: Address, i: nat): nat
    requires Place(t, a, i)
    decreases |a|
  {
    SlotTurns(At(t, a), i) + if a == [] then 0 else 1 + Turns(t, Up(a), Next(a))
  }

  function SlotTurns(t: Tree, i: nat): nat
    requires i <= |t.kids|
    decreases t, |t.kids| - i
  {
    if i == |t.kids| then 0
    else (if Entered(t.kids[i]) then 2 + SlotTurns(t.kids[i], 0) else 1) + SlotTurns(t, i + 1)
  }

  // ----- one step of the walk -----

  lemma DownStep(a: Address, i: nat)
    ensures Up(a + [i]) == a && Next(a + [i]) == i + 1
  {
  }

  lemma KidAt(t: Tree, a: Address, i: nat)
    requires Place(t, a, i) && i < |At(t, a).kids|
    ensures Valid(t, a + [i]) && At(t, a + [i]) == At(t, a).kids[i]
  {
    ValidAppend(t, a, [i]);
    assert At(At(t, a), [i]) == At(t, a).kids[i];
  }

  lemma PreorderStep(u: Tree, a: Address, i: nat)
    requires i < |u.kids|
    ensures Entered(u.kids[i]) ==>
              Preorder(u, a, i) == [a + [i]] + (Preorder(u.kids[i], a + [i], 0) + Preorder(u, a, i + 1))
    ensures !Entered(u.kids[i]) ==>
              Preorder(u, a, i) == (if Live(u.kids[i].rec) then [a + [i]] else []) + Preorder(u, a, i + 1)
  {
  }

  lemma NoneLastStep(u: Tree, i: nat)
    requires i < |u.kids|
    ensures NoneLast(u, i) <==>
            NoneLast(u, i + 1) && (Entered(u.kids[i]) ==> i + 1 < |u.kids| && NoneLast(u.kids[i], 0))
  {
  }

  /** The same directory, one slot further. */
  lemma NextPlace(t: Tree, a: Address, i: nat)
    requires Place(t, a, i) && i < |At(t, a).kids|
    ensures Place(t, a, i + 1)
    ensures exists after :: Rest(t, a, i) == Preorder(At(t, a), a, i) + after &&
                            Rest(t, a, i + 1) == Preorder(At(t, a), a, i + 1) + after
    ensures Turns(t, a, i) - SlotTurns(At(t, a), i) == Turns(t, a, i + 1) - SlotTurns(At(t, a), i + 1)
    ensures NoneLast(At(t, a), i) == NoneLast(At(t, a), i + 1) ==> Passable(t, a, i) == Passable(t, a, i + 1)
  {
    var after := if a == [] then [] else Rest(t, Up(a), Next(a));
    assert Rest(t, a, i) == Preorder(At(t, a), a, i) + after;
    assert Rest(t, a, i + 1) == Preorder(At(t, a), a, i + 1) + after;
  }

  lemma SlotTurnsStep(u: Tree, i: nat)
    requires i < |u.kids|
    ensures SlotTurns(u, i) == (if Entered(u.kids[i]) then 2 + SlotTurns(u.kids[i], 0) else 1) + SlotTurns(u, i + 1)
  {
  }

  lemma Reassociate<T>(first: seq<T>, p: seq<T>, after: seq<T>)
    ensures (first + p) + after == first + (p + after)
  {
  }

  /** A slot that is not entered: it is visited if it is live, and the walk goes on to the next slot. */
  lemma StepOver(t: Tree, a: Address, i: nat)
    requires Place(t, a, i) && i < |At(t, a).kids| && !Entered(At(t, a).kids[i])
    ensures Place(t, a, i + 1) && Turns(t, a, i + 1) < Turns(t, a, i)
    ensures Passable(t, a, i + 1) <==> Passable(t, a, i)
    ensures Rest(t, a, i) == (if Live(At(t, a).kids[i].rec) then [a + [i]] else []) + Rest(t, a, i + 1)
  {
    var u := At(t, a);
    NextPlace(t, a, i);
    SlotTurnsStep(u, i);
    NoneLastStep(u, i);
    PreorderStep(u, a, i);
    var after :| Rest(t, a, i) == Preorder(u, a, i) + after && Rest(t, a, i + 1) == Preorder(u, a, i + 1) + after;
    Reassociate(if Live(u.kids[i].rec) then [a + [i]] else [], Preorder(u, a, i + 1), after);
  }

  lemma DownPlace(t: Tree, a: Address, i: nat)
    requires Place(t, a, i) && i < |At(t, a).kids| && Entered(At(t, a).kids[i])
    ensures Place(t, a, i + 1) && Place(t, a + [i], 0) && At(t, a + [i]) == At(t, a).kids[i]
    ensures Turns(t, a + [i], 0) == SlotTurns(At(t, a).kids[i], 0) + 1 + Turns(t, a, i + 1)
    ensures Rest(t, a + [i], 0) == Preorder(At(t, a).kids[i], a + [i], 0) + Rest(t, a, i + 1)
    ensures Passable(t, a + [i], 0) <==>
            NoneLast(At(t, a).kids[i], 0) && i + 1 < |At(t, a).kids| && Passable(t, a, i + 1)
  {
    KidAt(t, a, i);
    DownStep(a, i);
  }

  lemma DownRest(b: Address, below: seq<Address>, p: seq<Address>, after: seq<Address>)
    ensures ([b] + (below + p)) + after == [b] + (below + (p + after))
  {
    Reassociate([b], below + p, after);
    Reassociate(below, p, after);
  }

  /** A slot that is entered: it is visited, and the walk goes on in its table. */
  lemma StepDown(t: Tree, a: Address, i: nat)
    requires Place(t, a, i) && i < |At(t, a).kids| && Entered(At(t, a).kids[i])
    ensures Place(t, a + [i], 0) && Turns(t, a + [i], 0) < Turns(t, a, i)
    ensures Passable(t, a + [i], 0) <==> Passable(t, a, i)
    ensures Rest(t, a, i) == [a + [i]] + Rest(t, a + [i], 0)
  {
    var u := At(t, a);
    NextPlace(t, a, i);
    SlotTurnsStep(u, i);
    NoneLastStep(u, i);
    PreorderStep(u, a, i);
    DownPlace(t, a, i);
    var after :| Rest(t, a, i) == Preorder(u, a, i) + after && Rest(t, a, i + 1) == Preorder(u, a, i + 1) + after;
    DownRest(a + [i], Preorder(u.kids[i], a + [i], 0), Preorder(u, a, i + 1), after);
  }

  /** The end of a table: the walk goes on behind the directory's own slot. */
  lemma StepUp(t: Tree, a: Address)
    requires a != [] && Valid(t, a) && Place(t, a, |At(t, a).kids|)
    ensures Place(t, Up(a), Next(a)) && Turns(t, Up(a), Next(a)) < Turns(t, a, |At(t, a).kids|)
    ensures Rest(t, a, |At(t, a).kids|) == Rest(t, Up(a), Next(a))
    ensures Passable(t, a, |At(t, a).kids|) <==>
            Next(a) < |At(t, Up(a)).kids| && Passable(t, Up(a), Next(a))
  {
  }

  // ----- what the order contains -----

  /** A live entry all of whose directories, up to the start of the walk, are entered. */
  predicate Visited(t: Tree, c: Address) {
    && c != [] && c[0] < |t.kids| && Live(t.kids[c[0]].rec)
    && (|c| > 1 ==> Entered(t.kids[c[0]]) && Visited(t.kids[c[0]], c[1..]))
  }

  /** `b` lies below `a`, in slot `i` or a later one, and is visited from there. */
  ghost predicate VisitedFrom(t: Tree, a: Address, i: nat, b: Address) {
    a <= b && |a| < |b| && i <= b[|a|] && Visited(t, b[|a|..])
  }

  lemma {:induction false} PreorderVisits(t: Tree, a: Address, i: nat, b: Address)
    requires i <= |t.kids|
    ensures b in Preorder(t, a, i) <==> VisitedFrom(t, a, i, b)
    decreases t, |t.kids| - i
  {
    if i < |t.kids| {
      PreorderVisits(t, a, i + 1, b);
      assert b in Preorder(t, a, i) <==> b in VisitSlot(t.kids[i], a + [i]) || b in Preorder(t, a, i + 1);
      SlotVisits(t.kids[i], a + [i], b);
      VisitedStep(t, a, i, b);
    }
  }

  lemma {:induction false} SlotVisits(t: Tree, a: Address, b: Address)
    ensures b in VisitSlot(t, a) <==> Live(t.rec) && (b == a || (Entered(t) && VisitedFrom(t, a, 0, b)))
    decreases t
  {
    if Live(t.rec) && Entered(t) {
      PreorderVisits(t, a, 0, b);
    }
  }

  lemma VisitedStep(t: Tree, a: Address, i: nat, b: Address)
    requires i < |t.kids|
    ensures VisitedFrom(t, a, i, b) <==>
            || VisitedFrom(t, a, i + 1, b)
            || (Live(t.kids[i].rec) && b == a + [i])
            || (Live(t.kids[i].rec) && Entered(t.kids[i]) && VisitedFrom(t.kids[i], a + [i], 0, b))
  {
    if a <= b && |a| < |b| && b[|a|] == i {
      assert b == a + b[|a|..] && b[|a|..] == [i] + b[|a| + 1..];
      assert b[|a|..][1..] == b[|a| + 1..];
    }
    assert a + [i] <= b <==> a <= b && |a| < |b| && b[|a|] == i;
  }

  /** The walk visits places of the tree. */
  lemma {:induction false} VisitedIsValid(t: Tree, c: Address)
    requires Visited(t, c)
    ensures Valid(t, c)
    decreases |c|
  {
    if |c| > 1 {
      VisitedIsValid(t.kids[c[0]], c[1..]);
    }
  }

  /** The entries that _f12_dump_move shows, as addresses below the moved one: itself, or all that the walk visits. */
  function Visits(t: Tree): seq<Address> {
    if IsDirectory(t.rec) then Preorder(t, [], 0) else [[]]
  }

  lemma VisitsAreValid(t: Tree, j: nat)
    requires j < |Visits(t)|
    ensures Valid(t, Visits(t)[j])
  {
    if IsDirectory(t.rec) {
      var b := Visits(t)[j];
      assert b in Preorder(t, [], 0);
      PreorderVisits(t, [], 0, b);
      assert b[0..] == b;
      VisitedIsValid(t, b);
    }
  }

  /** Each entry is visited once. */
  lemma {:induction false} PreorderDistinct(t: Tree, a: Address, i: nat)
    requires i <= |t.kids|
    ensures forall x, y :: 0 <= x < y < |Preorder(t, a, i)| ==> Preorder(t, a, i)[x] != Preorder(t, a, i)[y]
    decreases t, |t.kids| - i
  {
    if i < |t.kids| {
      PreorderDistinct(t, a, i + 1);
      PreorderDistinct(t.kids[i], a + [i], 0);
      PreorderStep(t, a, i);
      var slot, rest := VisitSlot(t.kids[i], a + [i]), Preorder(t, a, i + 1);
      SlotDistinct(t.kids[i], a + [i]);
      forall x, y | 0 <= x < |slot| && 0 <= y < |rest| ensures slot[x] != rest[y] {
        assert rest[y] in rest;
        PreorderVisits(t, a, i + 1, rest[y]);
        SlotBelow(t.kids[i], a + [i], slot[x]);
      }
    }
  }

  lemma SlotBelow(t: Tree, a: Address, b: Address)
    requires b in VisitSlot(t, a)
    ensures a <= b
  {
    if b != a {
      PreorderVisits(t, a, 0, b);
    }
  }

  lemma SlotDistinct(t: Tree, a: Address)
    requires forall x, y :: 0 <= x < y < |Preorder(t, a, 0)| ==> Preorder(t, a, 0)[x] != Preorder(t, a, 0)[y]
    ensures forall x, y :: 0 <= x < y < |VisitSlot(t, a)| ==> VisitSlot(t, a)[x] != VisitSlot(t, a)[y]
  {
    forall y | 0 <= y < |Preorder(t, a, 0)| ensures Preorder(t, a, 0)[y] != a {
      assert Preorder(t, a, 0)[y] in Preorder(t, a, 0);
      PreorderVisits(t, a, 0, Preorder(t, a, 0)[y]);
    }
  }

  /** `a` comes before `b` when directories come before what lies below them, and lower slots before higher ones. */
  predicate Earlier(a: Address, b: Address) {
    b != [] && (a == [] || a[0] < b[0] || (a[0] == b[0] && Earlier(a[1..], b[1..])))
  }

  lemma {:induction false} EarlierBelow(a: Address, b: Address)
    requires a <= b && a != b
    ensures Earlier(a, b)
  {
    if a != [] {
      assert a == [a[0]] + a[1..] && b == [b[0]] + b[1..];
      EarlierBelow(a[1..], b[1..]);
    }
  }

  lemma {:induction false} EarlierBeside(a: Address, b: Address, c: Address)
    requires a <= b && a <= c && |a| < |b| && |a| < |c| && b[|a|] < c[|a|]
    ensures Earlier(b, c)
    decreases |a|
  {
    if a != [] {
      assert b == [b[0]] + b[1..] && c == [c[0]] + c[1..] && a == [a[0]] + a[1..];
      EarlierBeside(a[1..], b[1..], c[1..]);
    }
  }

  predicate Sorted(s: seq<Address>) {
    forall x, y :: 0 <= x < y < |s| ==> Earlier(s[x], s[y])
  }

  /** The entries are visited in the order of the tables, each directory before what lies below it. */
  lemma {:induction false} PreorderSorted(t: Tree, a: Address, i: nat)
    requires i <= |t.kids|
    ensures Sorted(Preorder(t, a, i))
    decreases t, |t.kids| - i
  {
    if i < |t.kids| {
      PreorderSorted(t, a, i + 1);
      PreorderSorted(t.kids[i], a + [i], 0);
      SlotSorted(t.kids[i], a + [i]);
      var slot, rest := VisitSlot(t.kids[i], a + [i]), Preorder(t, a, i + 1);
      forall x, y | 0 <= x < |slot| && 0 <= y < |rest| ensures Earlier(slot[x], rest[y]) {
        assert rest[y] in rest;
        PreorderVisits(t, a, i + 1, rest[y]);
        SlotBelow(t.kids[i], a + [i], slot[x]);
        assert a + [i] <= slot[x] && (a + [i])[|a|] == i;
        EarlierBeside(a, slot[x], rest[y]);
      }
    }
  }

  lemma SlotSorted(t: Tree, a: Address)
    requires Sorted(Preorder(t, a, 0))
    ensures Sorted(VisitSlot(t, a))
  {
    forall y | 0 <= y < |Preorder(t, a, 0)| ensures Earlier(a, Preorder(t, a, 0)[y]) {
      assert Preorder(t, a, 0)[y] in Preorder(t, a, 0);
      PreorderVisits(t, a, 0, Preorder(t, a, 0)[y]);
      EarlierBelow(a, Preorder(t, a, 0)[y]);
    }
  }

  /** Where directories are never taken for empty, exactly the live entries below the start are visited. */
  lemma {:induction false} VisitsAllLive(g: Geometry, fat: Fat.Table, t: Tree, c: Address)
    requires DirSound(g, fat, t.kids) && AllThorough(t.kids) && c != []
    ensures Visited(t, c) <==> Valid(t, c) && Live(At(t, c).rec)
    decreases |c|
  {
    if c[0] < |t.kids| {
      var kid := t.kids[c[0]];
      assert SlotSound(g, fat, kid) && Thorough(kid);
      if |c| == 1 {
        assert c[1..] == [];
      } else if Descends(kid.rec) {
        assert AllThorough(kid.kids);
        VisitsAllLive(g, fat, kid, c[1..]);
      }
    }
  }
}
