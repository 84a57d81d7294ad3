/**
 Moving "." to a destination below the source: the entry that the destination lies in is cut off, and what is moved
 afterwards is lost with it (src/libfat12/directory_entry.c).
 */
module DotCuts {
  import opened Records
  import opened Fat
  import opened Disks
  import opened Trees
  import opened Moves
  import opened Deletion
  import opened DotMoves

  // ----- what the loops compute -----

  /**
   The tree of the root directory and, once the destination is no longer part of it, the records in the slots of the
   destination.
   */
  datatype Loops = Attached(t: Tree) | Detached(t: Tree, slots: seq<Record>)

  function Recs(kids: seq<Tree>): (r: seq<Record>)
    ensures |r| == |kids| && forall j :: 0 <= j < |kids| ==> r[j] == kids[j].rec
  {
    seq(|kids|, j requires 0 <= j < |kids| => kids[j].rec)
  }

  /**
   One turn of the inner loop. The entry at `a` is copied into slot `j` of the destination and cleared. If it is the
   destination itself, that has no slots any more; if the destination lies below, it keeps its slots but is cut off.
   */
  ghost function CutStep(s: Loops, a: Address, b: Address, j: nat): Loops {
    match s
    case Attached(t) =>
      if !(Valid(t, a) && Valid(t, b) && j < |At(t, b).kids|) || Used(At(t, b).kids[j].rec) then s
      else if a == b then Detached(Put(t, a, FREE), [])
      else if a <= b then Detached(Put(t, a, FREE), Recs(At(t, b).kids)[j := At(t, a).rec])
      else Attached(MoveStep(t, a, b, j))
    case Detached(t, slots) =>
      if !(Valid(t, a) && j < |slots|) || Used(slots[j]) then s
      else Detached(Put(t, a, FREE), slots[j := At(t, a).rec])
  }

  ghost function CutSteps(s: Loops, a: Address, b: Address, n: nat): Loops {
    if n == 0 then s else CutStep(CutSteps(s, a, b, n - 1), a, b, n - 1)
  }

  ghost function DestSlots(s: Loops, b: Address): nat {
    if s.Detached? then |s.slots| else if Valid(s.t, b) then |At(s.t, b).kids| else 0
  }

  /** One turn of the outer loop. */
  ghost function CutNext(s: Loops, c: Address, b: Address, i: nat): Loops {
    if Valid(s.t, c) && i < |At(s.t, c).kids| && Live(At(s.t, c).kids[i].rec)
    then CutSteps(s, c + [i], b, DestSlots(s, b))
    else s
  }

  ghost function CutAll(s: Loops, c: Address, b: Address, n: nat): Loops {
    if n == 0 then s else CutNext(CutAll(s, c, b, n - 1), c, b, n - 1)
  }

  // ----- a destination that is not below the source -----

  lemma StepAgrees(t: Tree, a: Address, b: Address, j: nat)
    requires !(a <= b)
    ensures CutStep(Attached(t), a, b, j) == Attached(MoveStep(t, a, b, j))
  {
  }

  lemma {:induction false} StepsAgree(t: Tree, a: Address, b: Address, n: nat)
    requires !(a <= b)
    ensures CutSteps(Attached(t), a, b, n) == Attached(MoveSteps(t, a, b, n))
  {
    hide CutStep, MoveStep;
    if n > 0 {
      StepsAgree(t, a, b, n - 1);
      StepAgrees(MoveSteps(t, a, b, n - 1), a, b, n - 1);
    }
  }

  /** Then nothing is cut off, and these are the loops of DotMoves. */
  lemma {:induction false} LoopsAgree(t: Tree, c: Address, b: Address, n: nat)
    requires !(c < b)
    ensures CutAll(Attached(t), c, b, n) == Attached(MoveAll(t, c, b, n))
  {
    if n > 0 {
      LoopsAgree(t, c, b, n - 1);
      var now := MoveAll(t, c, b, n - 1);
      assert (c + [n - 1])[..|c|] == c;
      StepsAgree(now, c + [n - 1], b, DestSlots(Attached(now), b));
    }
  }

  // ----- the loops on two tables of slots -----

  /** The slots of the source, and the records of the destination. */
  datatype Tables = Tables(src: seq<Tree>, dst: seq<Record>)

  function TableStep(x: Tables, i: nat, j: nat): (r: Tables)
    ensures |r.src| == |x.src| && |r.dst| == |x.dst|
  {
    if i < |x.src| && j < |x.dst| && !Used(x.dst[j]) then Tables(x.src[i := FREE], x.dst[j := x.src[i].rec]) else x
  }

  function TableSteps(x: Tables, i: nat, n: nat): (r: Tables)
    ensures |r.src| == |x.src| && |r.dst| == |x.dst|
  {
    if n == 0 then x else TableStep(TableSteps(x, i, n - 1), i, n - 1)
  }

  /** The number of free slots among the first `n`. */
  function FreeIn(slots: seq<Record>, n: nat): (r: nat)
    requires n <= |slots|
  {
    if n == 0 then 0 else FreeIn(slots, n - 1) + if Used(slots[n - 1]) then 0 else 1
  }

  lemma {:induction false} FreeInSame(x: seq<Record>, y: seq<Record>, n: nat)
    requires n <= |x| == |y| && forall j :: 0 <= j < n ==> (Used(x[j]) <==> Used(y[j]))
    ensures FreeIn(x, n) == FreeIn(y, n)
  {
    if n > 0 {
      FreeInSame(x, y, n - 1);
    }
  }

  lemma {:induction false} FreeInRecs(kids: seq<Tree>, n: nat)
    requires n <= |kids|
    ensures FreeIn(Recs(kids), n) == FreeBefore(kids, n)
  {
    if n > 0 {
      FreeInRecs(kids, n - 1);
    }
  }

  /** A slot that becomes used. */
  lemma {:induction false} FreeInUpdate(slots: seq<Record>, f: nat, r: Record, n: nat)
    requires f < n <= |slots| && !Used(slots[f]) && Used(r)
    ensures FreeIn(slots[f := r], n) == FreeIn(slots, n) - 1
  {
    if n == f + 1 {
      FreeInSame(slots, slots[f := r], f);
    } else {
      FreeInUpdate(slots, f, r, n - 1);
    }
  }

  /** Before the first free slot nothing happens; there the entry goes; other free slots are cleared. */
  lemma {:induction false} TableInner(x: Tables, i: nat, f: nat, n: nat)
    requires i < |x.src| && Used(x.src[i].rec) && n <= |x.dst| && f < |x.dst| && !Used(x.dst[f])
    requires forall j :: 0 <= j < f ==> Used(x.dst[j])
    ensures var r := TableSteps(x, i, n);
            if n <= f then r == x
            else
              && r.src == x.src[i := FREE] && Used(r.dst[f])
              && forall j :: 0 <= j < |x.dst| && j != f ==> (Used(r.dst[j]) <==> Used(x.dst[j]))
  {
    EmptyRecordIsZero();
    if n > 0 {
      TableInner(x, i, f, n - 1);
    }
  }

  lemma {:induction false} FirstFreeSlot(slots: seq<Record>, n: nat) returns (f: nat)
    requires n <= |slots| && 0 < FreeIn(slots, n)
    ensures f < n && !Used(slots[f]) && forall j :: 0 <= j < f ==> Used(slots[j])
  {
    if 0 < FreeIn(slots, n - 1) {
      f := FirstFreeSlot(slots, n - 1);
    } else {
      f := n - 1;
      forall j | 0 <= j < f ensures Used(slots[j]) {
        NoneFreeIn(slots, n - 1, j);
      }
    }
  }

  lemma {:induction false} NoneFreeIn(slots: seq<Record>, n: nat, j: nat)
    requires j < n <= |slots| && FreeIn(slots, n) == 0
    ensures Used(slots[j])
  {
    if j < n - 1 {
      NoneFreeIn(slots, n - 1, j);
    }
  }

  /** The whole inner loop: the entry is gone, and one slot less is free. */
  lemma InnerTaken(x: Tables, i: nat)
    requires i < |x.src| && Used(x.src[i].rec) && 0 < FreeIn(x.dst, |x.dst|)
    ensures var r := TableSteps(x, i, |x.dst|);
            r.src == x.src[i := FREE] && FreeIn(r.dst, |r.dst|) == FreeIn(x.dst, |x.dst|) - 1
  {
    var f := FirstFreeSlot(x.dst, |x.dst|);
    TableInner(x, i, f, |x.dst|);
    FreeInUpdate(x.dst, f, x.src[i].rec, |x.dst|);
    FreeInSame(TableSteps(x, i, |x.dst|).dst, x.dst[f := x.src[i].rec], |x.dst|);
  }

  function TableNext(x: Tables, i: nat): (r: Tables)
    ensures |r.src| == |x.src| && |r.dst| == |x.dst|
  {
    if i < |x.src| && Live(x.src[i].rec) then TableSteps(x, i, |x.dst|) else x
  }

  function TableAll(x: Tables, n: nat): (r: Tables)
    ensures |r.src| == |x.src| && |r.dst| == |x.dst|
  {
    if n == 0 then x else TableNext(TableAll(x, n - 1), n - 1)
  }

  lemma {:induction false} LiveGrows(kids: seq<Tree>, m: nat, n: nat)
    requires m <= n <= |kids|
    ensures |LiveOf(kids, m)| <= |LiveOf(kids, n)|
  {
    if m < n {
      LiveGrows(kids, m, n - 1);
    }
  }

  /** The live entries of the first `n` slots are gone, and so many slots less are free. */
  ghost predicate Taken(x: Tables, n: nat, y: Tables) {
    && n <= |x.src| && y.src == Emptied(x.src, n) && |y.dst| == |x.dst|
    && FreeIn(y.dst, |y.dst|) == FreeIn(x.dst, |x.dst|) - |LiveOf(x.src, n)|
  }

  predicate Roomy(x: Tables) {
    |LiveOf(x.src, |x.src|)| <= FreeIn(x.dst, |x.dst|)
  }

  lemma TakeStart(x: Tables)
    ensures Taken(x, 0, x)
  {
    EmptiedNothing(x.src);
  }

  lemma LiveStep(kids: seq<Tree>, n: nat)
    requires n < |kids|
    ensures |LiveOf(kids, n + 1)| == |LiveOf(kids, n)| + if Live(kids[n].rec) then 1 else 0
    ensures |LiveOf(kids, n + 1)| <= |LiveOf(kids, |kids|)|
  {
    LiveGrows(kids, n + 1, |kids|);
  }

  lemma EmptiedStep(kids: seq<Tree>, n: nat)
    requires n < |kids|
    ensures Emptied(kids, n)[n] == kids[n]
    ensures Emptied(kids, n + 1) == if Live(kids[n].rec) then Emptied(kids, n)[n := FREE] else Emptied(kids, n)
  {
  }

  lemma TakeNext(x: Tables, y: Tables, n: nat)
    requires n < |x.src| && Taken(x, n, y) && Roomy(x)
    ensures Taken(x, n + 1, TableNext(y, n))
  {
    hide LiveOf, FreeIn, Emptied, TableSteps;
    LiveStep(x.src, n);
    EmptiedStep(x.src, n);
    if Live(x.src[n].rec) {
      InnerTaken(y, n);
    }
  }

  /** With room for all live entries, all of them are gone. */
  lemma {:induction false} AllTaken(x: Tables, n: nat)
    requires n <= |x.src| && Roomy(x)
    ensures Taken(x, n, TableAll(x, n))
  {
    hide Taken, Roomy, TableNext;
    if n == 0 {
      TakeStart(x);
    } else {
      AllTaken(x, n - 1);
      TakeNext(x, TableAll(x, n - 1), n - 1);
    }
  }

  lemma RoomBefore(x: Tables, k: nat, y: Tables)
    requires k < |x.src| && Live(x.src[k].rec) && Taken(x, k, y) && Roomy(x)
    ensures 0 < FreeIn(y.dst, |y.dst|) && y.src == Emptied(x.src, k)
  {
    LiveGrows(x.src, k + 1, |x.src|);
  }

  // ----- the loops below one directory are loops on tables -----

  /** The state of the loops on the directory `t`, whose entry in slot `k` holds the destination at `[k] + rest`. */
  ghost predicate Shows(s: Loops, k: nat, rest: Address, r: Record, x: Tables) {
    && s.t.rec == r && |s.t.kids| == |x.src| && k < |x.src|
    && match s
       case Attached(t) =>
         && t.kids == x.src[k := t.kids[k]] && t.kids[k].rec == x.src[k].rec && Used(x.src[k].rec)
         && Valid(t.kids[k], rest) && Recs(At(t.kids[k], rest).kids) == x.dst
       case Detached(t, slots) => t.kids == x.src && slots == x.dst
  }

  lemma BelowKid(t: Tree, k: nat, rest: Address)
    requires k < |t.kids| && Valid(t.kids[k], rest)
    ensures Valid(t, [k] + rest) && At(t, [k] + rest) == At(t.kids[k], rest)
  {
    assert ([k] + rest)[1..] == rest;
  }

  lemma ClearedSlot(t: Tree, i: nat)
    requires i < |t.kids|
    ensures Valid(t, [i]) && At(t, [i]) == t.kids[i] && Put(t, [i], FREE) == t.(kids := t.kids[i := FREE])
  {
    assert [i][1..] == [];
  }

  /** A record that changes below. */
  lemma SlotPut(t: Tree, b: Address, j: nat, u: Tree)
    requires Valid(t, b) && j < |At(t, b).kids|
    ensures Valid(t, b + [j]) && Valid(Put(t, b + [j], u), b) && Put(t, b + [j], u).rec == t.rec
    ensures Recs(At(Put(t, b + [j], u), b).kids) == Recs(At(t, b).kids)[j := u.rec]
  {
    SlotAt(t, b, j);
    AtPutAbove(t, b + [j], u, b);
    assert (b + [j])[|b|..] == [j] && [j][1..] == [];
  }

  /** A turn for another entry than the one that holds the destination, as long as that is in the tree. */
  lemma AttachedStep(t: Tree, k: nat, rest: Address, x: Tables, i: nat, j: nat)
    requires Shows(Attached(t), k, rest, t.rec, x) && i < |x.src| && i != k
    ensures Shows(CutStep(Attached(t), [i], [k] + rest, j), k, rest, t.rec, TableStep(x, i, j))
  {
    var b := [k] + rest;
    BelowKid(t, k, rest);
    ClearedSlot(t, i);
    assert !([i] <= b);
    if j < |x.dst| && !Used(x.dst[j]) {
      var mid, u := Put(t, [i], FREE), t.kids[i];
      TargetStays(t, [i], b, j);
      SlotPut(t.kids[k], rest, j, u);
      assert b + [j] == [k] + (rest + [j]) && (b + [j])[1..] == rest + [j];
      assert mid.kids[k] == t.kids[k];
      var t' := MoveStep(t, [i], b, j);
      assert t'.kids == mid.kids[k := Put(t.kids[k], rest + [j], u)];
    }
  }

  /** A turn for the entry that holds the destination. */
  lemma CuttingStep(t: Tree, k: nat, rest: Address, x: Tables, j: nat)
    requires Shows(Attached(t), k, rest, t.rec, x) && rest != []
    ensures Shows(CutStep(Attached(t), [k], [k] + rest, j), k, rest, t.rec, TableStep(x, k, j))
  {
    var b := [k] + rest;
    BelowKid(t, k, rest);
    ClearedSlot(t, k);
    assert [k] <= b && b[1..] == rest;
    if j < |x.dst| && !Used(x.dst[j]) {
      assert t.kids[k := FREE] == x.src[k := FREE];
    }
  }

  /** The next turn can be seen on the tables: the destination is not the entry itself. */
  predicate ShowsNext(s: Loops, k: nat, rest: Address, i: nat) {
    rest == [] ==> i != k && s.Attached?
  }

  lemma OneStep(s: Loops, k: nat, rest: Address, r: Record, x: Tables, i: nat, j: nat)
    requires Shows(s, k, rest, r, x) && i < |x.src| && ShowsNext(s, k, rest, i)
    ensures var s' := CutStep(s, [i], [k] + rest, j);
            Shows(s', k, rest, r, TableStep(x, i, j)) && (s.Attached? && i != k ==> s'.Attached?)
  {
    if s.Detached? {
      ClearedSlot(s.t, i);
    } else if i == k {
      CuttingStep(s.t, k, rest, x, j);
    } else {
      AttachedStep(s.t, k, rest, x, i, j);
      assert !([i] <= [k] + rest);
    }
  }

  lemma {:induction false} InnerShows(s: Loops, k: nat, rest: Address, r: Record, x: Tables, i: nat, n: nat)
    requires Shows(s, k, rest, r, x) && i < |x.src| && ShowsNext(s, k, rest, i)
    ensures var s' := CutSteps(s, [i], [k] + rest, n);
            Shows(s', k, rest, r, TableSteps(x, i, n)) && (s.Attached? && i != k ==> s'.Attached?)
  {
    hide Shows, CutStep, TableStep;
    if n > 0 {
      InnerShows(s, k, rest, r, x, i, n - 1);
      OneStep(CutSteps(s, [i], [k] + rest, n - 1), k, rest, r, TableSteps(x, i, n - 1), i, n - 1);
    }
  }

  lemma NextShows(s: Loops, k: nat, rest: Address, r: Record, x: Tables, i: nat)
    requires Shows(s, k, rest, r, x) && ShowsNext(s, k, rest, i)
    ensures var s' := CutNext(s, [], [k] + rest, i);
            Shows(s', k, rest, r, TableNext(x, i)) && (s.Attached? && i != k ==> s'.Attached?)
  {
    if s.Attached? {
      BelowKid(s.t, k, rest);
    }
    assert At(s.t, []) == s.t && [] + [i] == [i];
    if i < |x.src| && Live(x.src[i].rec) {
      InnerShows(s, k, rest, r, x, i, |x.dst|);
    }
  }

  lemma {:induction false} AllShows(s: Loops, k: nat, rest: Address, r: Record, x: Tables, n: nat)
    requires Shows(s, k, rest, r, x) && s.Attached? && (rest == [] ==> n <= k)
    ensures var s' := CutAll(s, [], [k] + rest, n);
            Shows(s', k, rest, r, TableAll(x, n)) && (n <= k ==> s'.Attached?)
  {
    hide Shows, CutNext, TableNext;
    if n > 0 {
      AllShows(s, k, rest, r, x, n - 1);
      NextShows(CutAll(s, [], [k] + rest, n - 1), k, rest, r, TableAll(x, n - 1), n - 1);
    }
  }

  // ----- what is lost -----

  /** The destination lies in slot `k` of the directory `t`, at `[k] + rest`, and has room for all live entries. */
  predicate Losing(t: Tree, k: nat, rest: Address) {
    && k < |t.kids| && Live(t.kids[k].rec) && Valid(t.kids[k], rest)
    && var dst := At(t.kids[k], rest).kids;
       |LiveOf(t.kids, |t.kids|)| <= FreeBefore(dst, |dst|)
  }

  ghost function StartTables(t: Tree, k: nat, rest: Address): Tables
    requires Losing(t, k, rest)
  {
    Tables(t.kids, Recs(At(t.kids[k], rest).kids))
  }

  lemma StartShows(t: Tree, k: nat, rest: Address)
    requires Losing(t, k, rest)
    ensures var x := StartTables(t, k, rest);
            Shows(Attached(t), k, rest, t.rec, x) && Roomy(x)
  {
    var dst := At(t.kids[k], rest).kids;
    FreeInRecs(dst, |dst|);
    assert t.kids == t.kids[k := t.kids[k]];
  }

  /** All entries of the directory `t` are lost when the destination lies below one of them. */
  lemma AllLost(t: Tree, k: nat, rest: Address)
    requires Losing(t, k, rest) && rest != []
    ensures CutAll(Attached(t), [], [k] + rest, |t.kids|).t == t.(kids := Emptied(t.kids, |t.kids|))
  {
    var x := StartTables(t, k, rest);
    EmptyRecordIsZero();
    StartShows(t, k, rest);
    AllShows(Attached(t), k, rest, t.rec, x, |t.kids|);
    AllTaken(x, |t.kids|);
    assert !Used(TableAll(x, |t.kids|).src[k].rec);
  }

  /** The turn for the destination itself: it loses its slots with the first one that is free. */
  lemma {:induction false} OwnSteps(t: Tree, k: nat, f: nat, n: nat)
    requires k < |t.kids| && f < |t.kids[k].kids| && !Used(t.kids[k].kids[f].rec)
    requires forall j :: 0 <= j < f ==> Used(t.kids[k].kids[j].rec)
    ensures CutSteps(Attached(t), [k], [k], n) ==
            if n <= f then Attached(t) else Detached(t.(kids := t.kids[k := FREE]), [])
  {
    ClearedSlot(t, k);
    if n > 0 {
      OwnSteps(t, k, f, n - 1);
    }
  }

  /** The turn of the outer loop for it. */
  lemma OwnTurn(t: Tree, k: nat, x: Tables)
    requires Shows(Attached(t), k, [], t.rec, x) && Live(x.src[k].rec) && 0 < FreeIn(x.dst, |x.dst|)
    ensures CutNext(Attached(t), [], [k], k) == Detached(t.(kids := t.kids[k := FREE]), [])
  {
    var f := FirstFreeSlot(x.dst, |x.dst|);
    var slots := t.kids[k].kids;
    ClearedSlot(t, k);
    assert At(t, []) == t && [] + [k] == [k];
    forall j | 0 <= j <= f ensures Used(slots[j].rec) <==> Used(x.dst[j]) {
      assert Recs(slots)[j] == slots[j].rec;
    }
    OwnSteps(t, k, f, |slots|);
  }

  lemma {:induction false} NothingAfter(s: Loops, b: Address, m: nat, n: nat)
    requires m <= n && CutAll(s, [], b, m).Detached? && CutAll(s, [], b, m).slots == []
    ensures CutAll(s, [], b, n) == CutAll(s, [], b, m)
  {
    if m < n {
      NothingAfter(s, b, m, n - 1);
    }
  }

  /** The state before the turn for the destination. */
  lemma BeforeOwn(t: Tree, k: nat)
    requires Losing(t, k, [])
    ensures var s, x := CutAll(Attached(t), [], [k], k), TableAll(StartTables(t, k, []), k);
            s.Attached? && Shows(s, k, [], t.rec, x) && x.src == Emptied(t.kids, k) && 0 < FreeIn(x.dst, |x.dst|)
  {
    hide Shows, Taken, Roomy, FreeIn;
    var x := StartTables(t, k, []);
    StartShows(t, k, []);
    assert [k] + [] == [k];
    AllShows(Attached(t), k, [], t.rec, x, k);
    AllTaken(x, k);
    RoomBefore(x, k, TableAll(x, k));
  }

  /** The turn for the destination empties its slot. */
  lemma OwnEmptied(t: Tree, now: Tree, k: nat, x: Tables)
    requires k < |t.kids| && Live(t.kids[k].rec) && x.src == Emptied(t.kids, k) && 0 < FreeIn(x.dst, |x.dst|)
    requires Shows(Attached(now), k, [], t.rec, x)
    ensures CutNext(Attached(now), [], [k], k) == Detached(t.(kids := Emptied(t.kids, k + 1)), [])
  {
    OwnTurn(now, k, x);
    assert now.kids[k := FREE] == Emptied(t.kids, k + 1);
  }

  /** The entries behind the destination stay when it is an entry of the directory `t`. */
  lemma SomeLost(t: Tree, k: nat)
    requires Losing(t, k, [])
    ensures CutAll(Attached(t), [], [k], |t.kids|).t == t.(kids := Emptied(t.kids, k + 1))
  {
    hide Shows, FreeIn;
    var now, x := CutAll(Attached(t), [], [k], k).t, TableAll(StartTables(t, k, []), k);
    BeforeOwn(t, k);
    OwnEmptied(t, now, k, x);
    NothingAfter(Attached(t), [k], k + 1, |t.kids|);
  }

  // ----- the same anywhere in the tree -----

  /** The state for a directory, as a state for the tree that has it at `c`. */
  ghost function Lift(t: Tree, c: Address, s: Loops): Loops
    requires Valid(t, c)
  {
    match s
    case Attached(u) => Attached(Put(t, c, u))
    case Detached(u, slots) => Detached(Put(t, c, u), slots)
  }

  lemma LiftedAt(t: Tree, c: Address, u: Tree, x: Address)
    requires Valid(t, c)
    ensures Valid(Put(t, c, u), c) && At(Put(t, c, u), c) == u
    ensures Valid(Put(t, c, u), c + x) <==> Valid(u, x)
    ensures Valid(u, x) ==> At(Put(t, c, u), c + x) == At(u, x)
  {
    AtPut(t, c, u);
    ValidAppend(Put(t, c, u), c, x);
  }

  lemma LiftedPut(t: Tree, c: Address, u: Tree, x: Address, w: Tree)
    requires Valid(t, c) && Valid(u, x)
    ensures Valid(Put(t, c, u), c + x) && Put(Put(t, c, u), c + x, w) == Put(t, c, Put(u, x, w))
  {
    PutTwice(t, c, u, x, w);
  }

  lemma LiftedMove(t: Tree, c: Address, u: Tree, a: Address, b: Address, j: nat)
    requires Valid(t, c) && Valid(u, a) && Valid(u, b) && !(a <= b) && j < |At(u, b).kids| && !Used(At(u, b).kids[j].rec)
    ensures MoveStep(Put(t, c, u), c + a, c + b, j) == Put(t, c, MoveStep(u, a, b, j))
  {
    LiftedAt(t, c, u, a);
    LiftedAt(t, c, u, b);
    LiftedPut(t, c, u, a, FREE);
    TargetStays(u, a, b, j);
    LiftedPut(t, c, Put(u, a, FREE), b + [j], At(u, a));
    assert (c + b) + [j] == c + (b + [j]);
    Prefixes(c, a, b);
  }

  lemma Prefixes(c: Address, a: Address, b: Address)
    ensures c + a <= c + b <==> a <= b
    ensures c + a == c + b <==> a == b
  {
    assert (c + b)[|c|..] == b && (c + a)[|c|..] == a;
    if c + a <= c + b {
      assert (c + b)[..|c + a|] == c + a;
      assert b[..|a|] == (c + b)[..|c + a|][|c|..];
    }
  }

  lemma LiftedStep(t: Tree, c: Address, s: Loops, a: Address, b: Address, j: nat)
    requires Valid(t, c)
    ensures CutStep(Lift(t, c, s), c + a, c + b, j) == Lift(t, c, CutStep(s, a, b, j))
  {
    LiftedAt(t, c, s.t, a);
    LiftedAt(t, c, s.t, b);
    Prefixes(c, a, b);
    if Valid(s.t, a) {
      LiftedPut(t, c, s.t, a, FREE);
      if s.Attached? && Valid(s.t, b) && j < |At(s.t, b).kids| && !Used(At(s.t, b).kids[j].rec) && !(a <= b) {
        LiftedMove(t, c, s.t, a, b, j);
      }
    }
  }

  lemma {:induction false} LiftedSteps(t: Tree, c: Address, s: Loops, a: Address, b: Address, n: nat)
    requires Valid(t, c)
    ensures CutSteps(Lift(t, c, s), c + a, c + b, n) == Lift(t, c, CutSteps(s, a, b, n))
  {
    hide CutStep, Lift;
    if n > 0 {
      LiftedSteps(t, c, s, a, b, n - 1);
      LiftedStep(t, c, CutSteps(s, a, b, n - 1), a, b, n - 1);
    }
  }

  lemma LiftedNext(t: Tree, c: Address, s: Loops, b: Address, i: nat)
    requires Valid(t, c)
    ensures CutNext(Lift(t, c, s), c, c + b, i) == Lift(t, c, CutNext(s, [], b, i))
  {
    LiftedAt(t, c, s.t, b);
    assert At(s.t, []) == s.t && [] + [i] == [i];
    LiftedSteps(t, c, s, [i], b, DestSlots(s, b));
  }

  lemma {:induction false} LiftedAll(t: Tree, c: Address, s: Loops, b: Address, n: nat)
    requires Valid(t, c)
    ensures CutAll(Lift(t, c, s), c, c + b, n) == Lift(t, c, CutAll(s, [], b, n))
  {
    hide CutNext, Lift;
    if n > 0 {
      LiftedAll(t, c, s, b, n - 1);
      LiftedNext(t, c, CutAll(s, [], b, n - 1), b, n - 1);
    }
  }

  /** How many slots of the source are emptied. */
  ghost function LostSlots(t: Tree, c: Address, b: Address): nat
    requires c < b && Valid(t, c)
  {
    if |b| == |c| + 1 then b[|c|] + 1 else |At(t, c).kids|
  }

  /** Moving "." to a directory below the source, with room for all entries. */
  ghost predicate MovesBelow(t: Tree, c: Address, b: Address) {
    c < b && Valid(t, c) && Losing(At(t, c), b[|c|], b[|c| + 1..])
  }

  /**
   Then all entries are lost from the tree when the destination lies below an entry of the source; when it is such an
   entry, those up to it.
   */
  lemma MoveBelow(t: Tree, c: Address, b: Address)
    requires MovesBelow(t, c, b)
    ensures var u := At(t, c);
            && LostSlots(t, c, b) <= |u.kids|
            && CutAll(Attached(t), c, b, |u.kids|).t == Put(t, c, u.(kids := Emptied(u.kids, LostSlots(t, c, b))))
  {
    var u, k, rest := At(t, c), b[|c|], b[|c| + 1..];
    assert b == c + ([k] + rest);
    PutSame(t, c);
    LiftedAll(t, c, Attached(u), [k] + rest, |u.kids|);
    if rest == [] {
      assert [k] + rest == [k];
      SomeLost(u, k);
    } else {
      AllLost(u, k, rest);
    }
  }

  // ----- the chains -----

  /** One more slot is emptied. */
  lemma EmptiedNext(g: Geometry, fat: Table, kids: seq<Tree>, n: nat)
    requires n < |kids| && DirSound(g, fat, Emptied(kids, n)) && Live(kids[n].rec)
    ensures DirSound(g, fat, Emptied(kids, n + 1))
    ensures KidClusters(fat, Emptied(kids, n + 1)) == KidClusters(fat, Emptied(kids, n)) - TreeClusters(fat, kids[n])
  {
    var before := Emptied(kids, n);
    assert before[n := FREE] == Emptied(kids, n + 1) && before[n] == kids[n];
    FreeSound(g, fat);
    DirSoundUpdate(g, fat, before, n, FREE);
    KidClustersUpdate(g, fat, before, n, FREE);
  }

  lemma LiveClustersNext(fat: Table, kids: seq<Tree>, n: nat)
    requires n < |kids|
    ensures KidClusters(fat, LiveOf(kids, n + 1)) ==
            KidClusters(fat, LiveOf(kids, n)) + if Live(kids[n].rec) then TreeClusters(fat, kids[n]) else {}
  {
    hide KidClusters, TreeClusters;
    if Live(kids[n].rec) {
      KidClustersAppend(fat, LiveOf(kids, n), kids[n]);
    } else {
      assert LiveOf(kids, n + 1) == LiveOf(kids, n);
    }
  }

  lemma {:induction false} EmptiedSound(g: Geometry, fat: Table, kids: seq<Tree>, n: nat)
    requires DirSound(g, fat, kids) && n <= |kids|
    ensures DirSound(g, fat, Emptied(kids, n))
    ensures KidClusters(fat, Emptied(kids, n)) == KidClusters(fat, kids) - KidClusters(fat, LiveOf(kids, n))
  {
    hide DirSound, KidClusters, TreeClusters, Emptied;
    if n == 0 {
      EmptiedNothing(kids);
      NoClusters(fat);
    } else {
      EmptiedSound(g, fat, kids, n - 1);
      EmptiedStep(kids, n - 1);
      LiveClustersNext(fat, kids, n - 1);
      if Live(kids[n - 1].rec) {
        EmptiedNext(g, fat, kids, n - 1);
      }
    }
  }

  lemma EmptiedNothing(kids: seq<Tree>)
    ensures Emptied(kids, 0) == kids
  {
  }

  lemma NoClusters(fat: Table)
    ensures KidClusters(fat, []) == {}
  {
  }

  lemma KidClustersAppend(fat: Table, kids: seq<Tree>, u: Tree)
    ensures KidClusters(fat, kids + [u]) == KidClusters(fat, kids) + TreeClusters(fat, u)
  {
    var more := kids + [u];
    assert more[|kids|] == u;
    forall i | 0 <= i < |kids| ensures TreeClusters(fat, kids[i]) <= KidClusters(fat, more) {
      assert more[i] == kids[i];
    }
    assert KidClusters(fat, kids) <= KidClusters(fat, more);
  }

  /** The tree is sound without the chains of the lost entries, and no chain is shared with them. */
  lemma MoveBelowLoses(g: Geometry, fat: Table, t: Tree, c: Address, b: Address)
    requires DirSound(g, fat, t.kids) && MovesBelow(t, c, b)
    ensures var u, t' := At(t, c), CutAll(Attached(t), c, b, |At(t, c).kids|).t;
            && DirSound(g, fat, t'.kids) && LostSlots(t, c, b) <= |u.kids|
            && KidClusters(fat, t'.kids) == KidClusters(fat, t.kids) - KidClusters(fat, LiveOf(u.kids, LostSlots(t, c, b)))
  {
    var u, n := At(t, c), LostSlots(t, c, b);
    MoveBelow(t, c, b);
    var w, lost := u.(kids := Emptied(u.kids, n)), KidClusters(fat, LiveOf(u.kids, n));
    if c == [] {
      EmptiedSound(g, fat, u.kids, n);
    } else {
      SoundAt(g, fat, t, c);
      EmptiedSound(g, fat, u.kids, n);
      LiveClusters(fat, u.kids, n);
      PutSlotSound(g, fat, u, w, lost, {});
      PutSound(g, fat, t, c, w);
    }
  }

  lemma {:induction false} LiveClusters(fat: Table, kids: seq<Tree>, n: nat)
    requires n <= |kids|
    ensures KidClusters(fat, LiveOf(kids, n)) <= KidClusters(fat, kids)
  {
    if n > 0 {
      LiveClusters(fat, kids, n - 1);
      assert TreeClusters(fat, kids[n - 1]) <= KidClusters(fat, kids);
      KidClustersAppend(fat, LiveOf(kids, n - 1), kids[n - 1]);
    }
  }
}
