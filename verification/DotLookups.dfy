/** Moving ".": what every path leads to afterwards (src/libfat12/directory_entry.c). */
module DotLookups {
  import opened Records
  import opened Options
  import opened BiosParameterBlock
  import opened Disks
  import opened Trees
  import opened Volumes
  import opened Creation
  import opened Lookups
  import opened Files
  import opened Contents
  import opened Moves
  import opened Deletion
  import opened DotMoves

  // ----- clearing a free slot -----

  lemma ClearKid(t: Tree, i: nat, q: Path)
    requires i < |t.kids| && !Used(t.kids[i].rec) && Plain(q)
    ensures Lookup(WithKid(t, i, FREE), q) == Lookup(t, q)
  {
    EmptyRecordIsZero();
    if q != [] {
      PlainRest(q);
      FindOther(t.kids, i, FREE, q[0], 0);
    }
  }

  /** Clearing a free slot changes what no path leads to. */
  lemma {:induction false} ClearLookup(t: Tree, x: Address, q: Path)
    requires Valid(t, x) && x != [] && !Used(At(t, x).rec) && Plain(q)
    ensures Lookup(Put(t, x, FREE), q) == Lookup(t, q)
    decreases |x|
  {
    var k := x[0];
    assert x == [k] + x[1..];
    if |x| == 1 {
      assert x[1..] == [];
      ClearKid(t, k, q);
    } else {
      PutBelow(t, k, x[1..], FREE);
      LookupWithKid(t, k, Put(t.kids[k], x[1..], FREE), q);
      if q != [] {
        PlainRest(q);
        ClearLookup(t.kids[k], x[1..], q[1..]);
      }
    }
  }

  /** The two trees look the same along every plain path. */
  ghost predicate Alike(t: Tree, t': Tree, q: Path) {
    Lookup(t', q) == Lookup(t, q) && RecordAt(t', q) == RecordAt(t, q)
  }

  lemma ClearAlike(t: Tree, x: Address, q: Path)
    requires Valid(t, x) && x != [] && !Used(At(t, x).rec) && At(t, x).kids == [] && Plain(q)
    ensures Alike(t, Put(t, x, FREE), q)
  {
    ClearLookup(t, x, q);
    if Lookup(t, q).Some? {
      NotBelowFree(t, q, x);
      RecordKept(t, x, FREE, Lookup(t, q).value);
    }
  }

  // ----- the inner loop is a move -----

  /** What the inner loop for slot `i` starts from; `f` is the first free slot of the destination. */
  ghost predicate Starting(t: Tree, c: Address, i: nat, b: Address, f: nat) {
    && NotInside(t, c, b) && i < |At(t, c).kids| && Live(At(t, c).kids[i].rec)
    && f < |At(t, b).kids| && FirstFree(At(t, b).kids, f)
  }

  lemma FirstIsSlot(t: Tree, c: Address, i: nat, b: Address, f: nat)
    requires Starting(t, c, i, b, f)
    ensures Slot(t, b) == f && Movable(t, c + [i], b)
  {
    SlotAt(t, c, i);
    assert (c + [i])[..|c|] == c;
  }

  /** Up to the first free slot the loop does nothing. */
  lemma {:induction false} BeforeFirst(t: Tree, c: Address, i: nat, b: Address, f: nat, n: nat)
    requires Starting(t, c, i, b, f) && n <= f
    ensures MoveSteps(t, c + [i], b, n) == t
  {
    if n > 0 {
      BeforeFirst(t, c, i, b, f, n - 1);
    }
  }

  /** Then it moves the entry. */
  lemma AtFirst(t: Tree, c: Address, i: nat, b: Address, f: nat)
    requires Starting(t, c, i, b, f)
    ensures Movable(t, c + [i], b) && MoveSteps(t, c + [i], b, f + 1) == Moved(t, c + [i], b)
  {
    FirstIsSlot(t, c, i, b, f);
    BeforeFirst(t, c, i, b, f, f);
    assert (c + [i])[..|c|] == c;
    TargetApart(t, c + [i], b);
  }

  /** The slots of both directories in the middle of the loop. */
  lemma InMiddle(t: Tree, c: Address, i: nat, b: Address, f: nat, n: nat)
    requires Starting(t, c, i, b, f) && f < n <= |At(t, b).kids|
    ensures var now := MoveSteps(t, c + [i], b, n);
            && Valid(now, c) && Valid(now, b) && i < |At(now, c).kids| && At(now, c).kids[i] == FREE
            && |At(now, b).kids| == |At(t, b).kids| && FreeAreLeaves(At(now, b).kids)
  {
    var src, dst := At(t, c).kids, At(t, b).kids;
    StartState(t, c, b);
    assert Slots(dst, t, c, b, src, dst) by {
      assert Emptied(src, 0) == src;
    }
    assert Passed(dst, src[i], f, 0) == dst;
    InnerLoop(dst, t, c, b, src, dst, i, f, n);
  }

  /** What it does afterwards clears free slots. */
  lemma {:induction false} AfterFirst(t: Tree, c: Address, i: nat, b: Address, f: nat, n: nat, q: Path)
    requires Starting(t, c, i, b, f) && f < n <= |At(t, b).kids| && Plain(q)
    ensures Movable(t, c + [i], b) && Alike(Moved(t, c + [i], b), MoveSteps(t, c + [i], b, n), q)
    decreases n
  {
    hide Starting, Movable;
    AtFirst(t, c, i, b, f);
    if n > f + 1 {
      AfterFirst(t, c, i, b, f, n - 1, q);
      ClearingTurn(t, c, i, b, f, n - 1, q);
    }
  }

  lemma ClearingTurn(t: Tree, c: Address, i: nat, b: Address, f: nat, n: nat, q: Path)
    requires Starting(t, c, i, b, f) && f < n < |At(t, b).kids| && Plain(q)
    ensures Alike(MoveSteps(t, c + [i], b, n), MoveSteps(t, c + [i], b, n + 1), q)
  {
    InMiddle(t, c, i, b, f, n);
    ClearsOnly(MoveSteps(t, c + [i], b, n), c, i, b, n, q);
  }

  /** A turn after the entry is gone. */
  lemma ClearsOnly(t: Tree, c: Address, i: nat, b: Address, j: nat, q: Path)
    requires Valid(t, c) && Valid(t, b) && !(c <= b) && i < |At(t, c).kids| && At(t, c).kids[i] == FREE
    requires j < |At(t, b).kids| && FreeAreLeaves(At(t, b).kids) && Plain(q)
    ensures Alike(t, MoveStep(t, c + [i], b, j), q)
  {
    var a := c + [i];
    SlotAt(t, c, i);
    SlotAt(t, b, j);
    assert a[..|c|] == c;
    PutSame(t, a);
    if !Used(At(t, b).kids[j].rec) {
      ClearAlike(t, b + [j], q);
    }
  }

  // ----- one entry -----

  /** The paths of the two directories, and an entry of the source whose name is free in the destination. */
  ghost predicate Turning(t: Tree, p: Path, q: Path, c: Address, i: nat, b: Address, f: nat) {
    && Plain(p) && Plain(q) && Lookup(t, p) == Some(c) && Lookup(t, q) == Some(b) && Starting(t, c, i, b, f)
    && PlainName(At(t, c).kids[i].rec.name) && OnlyName(At(t, c).kids, i)
    && forall k :: 0 <= k < |At(t, b).kids| && Used(At(t, b).kids[k].rec) ==>
         At(t, b).kids[k].rec.name != At(t, c).kids[i].rec.name
  }

  lemma TurningIsReady(t: Tree, p: Path, q: Path, c: Address, i: nat, b: Address, f: nat)
    requires Turning(t, p, q, c, i, b, f)
    ensures var path := p + [At(t, c).kids[i].rec.name];
            && Plain(path) && MoveReady(t, path, q) && Lookup(t, path) == Some(c + [i])
            && OnlyOfItsName(t, c + [i]) && !CoveredPath(t, path, q)
  {
    var kids, name := At(t, c).kids, At(t, c).kids[i].rec.name;
    var path := p + [name];
    FindIsFirst(kids, name, i);
    ExistingPath(t, p, name);
    FirstIsSlot(t, c, i, b, f);
    assert (c + [i])[..|c|] == c && path[..|p|] == p;
    assert path <= q ==> p <= q;
    PrefixesAgree(t, p, q);
  }

  /** The inner loop moves the entry: every path leads to what the origin led to. */
  lemma TurnRecords(t: Tree, p: Path, q: Path, c: Address, i: nat, b: Address, f: nat, r: Path)
    requires Turning(t, p, q, c, i, b, f) && Plain(r)
    ensures var now := MoveSteps(t, c + [i], b, |At(t, b).kids|);
            RecordAt(now, r) ==
            match Origin(p + [At(t, c).kids[i].rec.name], q, false, r) case None => None case Some(o) => RecordAt(t, o)
  {
    var path := p + [At(t, c).kids[i].rec.name];
    TurningIsReady(t, p, q, c, i, b, f);
    AfterFirst(t, c, i, b, f, |At(t, b).kids|, r);
    MoveRecords(t, path, q, r);
    CameFromOrigin(t, path, q, r);
  }

  /** A path that neither leads through the entry nor to its new place leads where it led. */
  lemma TurnLookup(t: Tree, p: Path, q: Path, c: Address, i: nat, b: Address, f: nat, r: Path)
    requires Turning(t, p, q, c, i, b, f) && Plain(r)
    requires var name := At(t, c).kids[i].rec.name; !(q + [name] <= r) && !(p + [name] <= r)
    ensures Lookup(MoveSteps(t, c + [i], b, |At(t, b).kids|), r) == Lookup(t, r)
  {
    var path := p + [At(t, c).kids[i].rec.name];
    TurningIsReady(t, p, q, c, i, b, f);
    AfterFirst(t, c, i, b, f, |At(t, b).kids|, r);
    MoveLookup(t, path, q, r);
    RemainingOnly(t, path, r);
  }

  // ----- all entries -----

  /** Where "." may be moved with a clear meaning: room, plain unique names in the source, none of them in use in the destination. */
  ghost predicate DotReady(t: Tree, p: Path, q: Path) {
    && Plain(p) && Plain(q) && Lookup(t, p).Some? && Lookup(t, q).Some?
    && var c, b := Lookup(t, p).value, Lookup(t, q).value;
       && Enough(t, c, b)
       && (forall i :: 0 <= i < |At(t, c).kids| && Live(At(t, c).kids[i].rec) ==>
             PlainName(At(t, c).kids[i].rec.name) && OnlyName(At(t, c).kids, i))
       && forall i, k :: 0 <= i < |At(t, c).kids| && Live(At(t, c).kids[i].rec) &&
                         0 <= k < |At(t, b).kids| && Used(At(t, b).kids[k].rec) ==>
            At(t, b).kids[k].rec.name != At(t, c).kids[i].rec.name
  }

  /** A live entry of the first `n` slots has the name. */
  ghost predicate MovedName(kids: seq<Tree>, n: nat, name: ShortName)
    requires n <= |kids|
  {
    exists i :: 0 <= i < n && Live(kids[i].rec) && kids[i].rec.name == name
  }

  /** Where the record at a path comes from when the entries of the first `n` slots have been moved. */
  ghost function DotOrigin(kids: seq<Tree>, n: nat, p: Path, q: Path, r: Path): Option<Path>
    requires n <= |kids|
  {
    if q < r && MovedName(kids, n, r[|q|]) then Some(p + r[|q|..])
    else if p < r && MovedName(kids, n, r[|p|]) then None
    else Some(r)
  }

  ghost function RecordFrom(t: Tree, o: Option<Path>): Option<Record> {
    match o case None => None case Some(r) => RecordAt(t, r)
  }

  /** The name of the entry of the destination that the source lies in is in use there. */
  lemma NotThrough(t: Tree, p: Path, q: Path, n: nat)
    requires DotReady(t, p, q) && q < p && n <= |At(t, Lookup(t, p).value).kids|
    ensures !MovedName(At(t, Lookup(t, p).value).kids, n, p[|q|])
  {
    var b, name := Lookup(t, q).value, p[|q|];
    assert p == q + p[|q|..];
    LookupAppend(t, q, p[|q|..]);
    var k := FindFrom(At(t, b).kids, name, 0);
    assert PlainName(name) && k < |At(t, b).kids|;
  }

  /** The source does not lie at or above the destination. */
  lemma NotAbove(t: Tree, p: Path, q: Path)
    requires DotReady(t, p, q)
    ensures !(p <= q)
  {
    PrefixesAgree(t, p, q);
  }

  lemma BothPrefixes(p: Path, q: Path, r: Path)
    requires p <= r && q <= r && !(p <= q)
    ensures q < p && p[|q|] == r[|q|]
  {
    assert p == r[..|p|] && q == r[..|q|];
  }

  lemma MovedNext(kids: seq<Tree>, n: nat, name: ShortName)
    requires n < |kids|
    ensures MovedName(kids, n + 1, name) <==>
            MovedName(kids, n, name) || (Live(kids[n].rec) && kids[n].rec.name == name)
  {
  }

  /** One more entry in the origins. */
  lemma OriginNext(t: Tree, p: Path, q: Path, n: nat, r: Path)
    requires DotReady(t, p, q) && Plain(r)
    requires var kids := At(t, Lookup(t, p).value).kids; n < |kids| && Live(kids[n].rec)
    ensures var kids := At(t, Lookup(t, p).value).kids;
            DotOrigin(kids, n + 1, p, q, r) ==
            match Origin(p + [kids[n].rec.name], q, false, r) case None => None case Some(o) => DotOrigin(kids, n, p, q, o)
  {
    var kids := At(t, Lookup(t, p).value).kids;
    var m := kids[n].rec.name;
    NotAbove(t, p, q);
    if q < p {
      NotThrough(t, p, q, n + 1);
      NotThrough(t, p, q, n);
    }
    assert (p + [m])[|p|] == m && OnlyName(kids, n);
    if q < r {
      MovedNext(kids, n, r[|q|]);
    }
    if p < r {
      MovedNext(kids, n, r[|p|]);
    }
    if q + [m] <= r {
      MovedOrigin(kids, n, p, q, r, m);
    } else if p + [m] <= r {
      assert p < r && r[|p|] == m;
      if q < r {
        BothPrefixes(p, q, r);
      }
    } else {
      StaysOrigin(kids, n, p, q, r, m);
    }
  }

  lemma MovedOrigin(kids: seq<Tree>, n: nat, p: Path, q: Path, r: Path, m: ShortName)
    requires n < |kids| && Live(kids[n].rec) && kids[n].rec.name == m && q + [m] <= r && !(p <= q)
    requires !MovedName(kids, n, m) && (q < p ==> !MovedName(kids, n, p[|q|]))
    ensures Origin(p + [m], q, false, r) == Some(p + r[|q|..]) && DotOrigin(kids, n, p, q, p + r[|q|..]) == Some(p + r[|q|..])
    ensures DotOrigin(kids, n + 1, p, q, r) == Some(p + r[|q|..])
  {
    var o := p + r[|q|..];
    assert q < r && r[|q|] == m && r[|q|..] == [m] + r[|q| + 1..];
    assert (p + [m]) + r[|q| + 1..] == o && o[|p|] == m && p < o;
    if q < o {
      BothPrefixes(p, q, o);
    }
  }

  lemma StaysOrigin(kids: seq<Tree>, n: nat, p: Path, q: Path, r: Path, m: ShortName)
    requires n < |kids| && kids[n].rec.name == m && !(q + [m] <= r) && !(p + [m] <= r)
    ensures Origin(p + [m], q, false, r) == Some(r) && DotOrigin(kids, n + 1, p, q, r) == DotOrigin(kids, n, p, q, r)
  {
    assert q < r && r[|q|] == m ==> q + [m] <= r;
    assert p < r && r[|p|] == m ==> p + [m] <= r;
  }

  /** After `n` turns of the outer loop the slots are as they should be and both paths lead where they led. */
  ghost predicate AfterTurns(t: Tree, p: Path, q: Path, n: nat) {
    && Lookup(t, p).Some? && Lookup(t, q).Some?
    && var c, b := Lookup(t, p).value, Lookup(t, q).value;
       && n <= |At(t, c).kids| && OuterDone(At(t, c).kids, At(t, b).kids, t, c, b, n)
       && Lookup(MoveAll(t, c, b, n), p) == Some(c) && Lookup(MoveAll(t, c, b, n), q) == Some(b)
  }

  /** The same for all turns up to the `n`-th. */
  ghost predicate DotState(t: Tree, p: Path, q: Path, n: nat) {
    AfterTurns(t, p, q, n) && (n > 0 ==> DotState(t, p, q, n - 1))
  }

  lemma RoomLeftFor(k0: seq<Tree>, n: nat, room: nat)
    requires n < |k0| && Live(k0[n].rec) && |LiveOf(k0, |k0|)| <= room
    ensures AllUsed(LiveOf(k0, n)) && |LiveOf(k0, n)| < room
  {
    LiveAreUsed(k0, n, n);
    LiveAreUsed(k0, n + 1, |k0|);
  }

  /** There is room for the next live entry. */
  lemma RoomForNext(t: Tree, p: Path, q: Path, n: nat)
    requires DotReady(t, p, q) && n < |At(t, Lookup(t, p).value).kids| && Live(At(t, Lookup(t, p).value).kids[n].rec)
    ensures var k0, d0 := At(t, Lookup(t, p).value).kids, At(t, Lookup(t, q).value).kids;
            AllUsed(LiveOf(k0, n)) && |LiveOf(k0, n)| < FreeBefore(d0, |d0|)
  {
    var d0 := At(t, Lookup(t, q).value).kids;
    RoomLeftFor(At(t, Lookup(t, p).value).kids, n, FreeBefore(d0, |d0|));
  }

  lemma DotBasics(t: Tree, p: Path, q: Path)
    requires DotReady(t, p, q)
    ensures Plain(p) && Plain(q) && Lookup(t, p).Some? && Lookup(t, q).Some?
  {
  }

  lemma StateFacts(t: Tree, p: Path, q: Path, n: nat)
    requires DotState(t, p, q, n) && n < |At(t, Lookup(t, p).value).kids|
    ensures var c, b := Lookup(t, p).value, Lookup(t, q).value; var now := MoveAll(t, c, b, n);
            && OuterState(At(t, c).kids, At(t, b).kids, now, c, b, n) && NotInside(now, c, b)
            && Lookup(now, p) == Some(c) && Lookup(now, q) == Some(b)
  {
  }

  /** The next live entry can be moved. */
  lemma NextTurning(t: Tree, p: Path, q: Path, n: nat) returns (f: nat)
    requires DotReady(t, p, q) && DotState(t, p, q, n) && n < |At(t, Lookup(t, p).value).kids|
    requires Live(At(t, Lookup(t, p).value).kids[n].rec)
    ensures var c, b := Lookup(t, p).value, Lookup(t, q).value; var now := MoveAll(t, c, b, n);
            && Turning(now, p, q, c, n, b, f) && At(now, c).kids[n] == At(t, c).kids[n]
            && |At(now, b).kids| == |At(t, b).kids|
            && MoveAll(t, c, b, n + 1) == MoveSteps(now, c + [n], b, |At(now, b).kids|)
  {
    hide DotReady, AfterTurns, OuterState, FirstFree, Arrived;
    DotBasics(t, p, q);
    RoomForNext(t, p, q, n);
    StateFacts(t, p, q, n);
    NextSlots(t, p, q, n);
    var c, b := Lookup(t, p).value, Lookup(t, q).value;
    var k0, d0, now := At(t, c).kids, At(t, b).kids, MoveAll(t, c, b, n);
    f := ArriveNext(d0, LiveOf(k0, n), k0[n]);
    MoveNextIs(k0, d0, now, c, b, n);
    ArrivedFree(k0, d0, now, c, b, n, f);
  }

  /** The free slots are those of the specification. */
  lemma ArrivedFree(k0: seq<Tree>, d0: seq<Tree>, t: Tree, c: Address, b: Address, n: nat, f: nat)
    requires n <= |k0| && OuterState(k0, d0, t, c, b, n) && FirstFree(Arrived(d0, LiveOf(k0, n)), f) && f < |d0|
    ensures FirstFree(At(t, b).kids, f) && |At(t, b).kids| == |d0|
  {
    var dst := Arrived(d0, LiveOf(k0, n));
    ArrivedStillUsed(d0, LiveOf(k0, n));
    forall j | 0 <= j < |d0| ensures Used(At(t, b).kids[j].rec) <==> Used(dst[j].rec) {
      assert Used(d0[j].rec) ==> dst[j] == d0[j] && At(t, b).kids[j].rec == d0[j].rec;
      assert !Used(d0[j].rec) ==> At(t, b).kids[j] == dst[j];
    }
  }

  /** No other slot of the source has the name. */
  lemma SourceNames(k0: seq<Tree>, kids: seq<Tree>, n: nat)
    requires n < |k0| == |kids| && Live(k0[n].rec) && PlainName(k0[n].rec.name) && OnlyName(k0, n)
    requires forall j :: 0 <= j < |k0| ==> kids[j] == Emptied(k0, n)[j]
    ensures kids[n] == k0[n] && OnlyName(kids, n)
  {
    EmptyRecordIsZero();
  }

  /** No slot of the destination has the name. */
  lemma DestinationNames(k0: seq<Tree>, d0: seq<Tree>, kids: seq<Tree>, n: nat, k: nat)
    requires n < |k0| && Live(k0[n].rec) && OnlyName(k0, n) && k < |kids| == |d0| && Used(kids[k].rec)
    requires Used(d0[k].rec) ==> kids[k].rec.name == d0[k].rec.name != k0[n].rec.name
    requires !Used(d0[k].rec) ==> kids[k] == Arrived(d0, LiveOf(k0, n))[k]
    ensures kids[k].rec.name != k0[n].rec.name
  {
    if !Used(d0[k].rec) {
      ArrivedName(k0, d0, n, k);
    }
  }

  /** The names in both directories. */
  lemma NextSlots(t: Tree, p: Path, q: Path, n: nat)
    requires DotReady(t, p, q) && DotState(t, p, q, n) && n < |At(t, Lookup(t, p).value).kids| && Live(At(t, Lookup(t, p).value).kids[n].rec)
    ensures var c, b := Lookup(t, p).value, Lookup(t, q).value;
            var now, k0 := MoveAll(t, c, b, n), At(t, c).kids;
            && Valid(now, c) && Valid(now, b) && n < |At(now, c).kids| && At(now, c).kids[n] == k0[n]
            && PlainName(k0[n].rec.name) && OnlyName(At(now, c).kids, n)
            && forall k :: 0 <= k < |At(now, b).kids| && Used(At(now, b).kids[k].rec) ==>
                 At(now, b).kids[k].rec.name != k0[n].rec.name
  {
    var c, b := Lookup(t, p).value, Lookup(t, q).value;
    var k0, d0, now := At(t, c).kids, At(t, b).kids, MoveAll(t, c, b, n);
    SourceNames(k0, At(now, c).kids, n);
    forall k | 0 <= k < |d0| && Used(At(now, b).kids[k].rec) ensures At(now, b).kids[k].rec.name != k0[n].rec.name {
      DestinationNames(k0, d0, At(now, b).kids, n, k);
    }
  }

  /** A used slot of the destination holds what was there, or one of the entries that were moved. */
  lemma ArrivedName(k0: seq<Tree>, d0: seq<Tree>, n: nat, k: nat)
    requires n <= |k0| && k < |d0| && !Used(d0[k].rec)
    ensures var u := Arrived(d0, LiveOf(k0, n))[k];
            Used(u.rec) ==> exists i :: 0 <= i < n && Live(k0[i].rec) && u == k0[i]
  {
    var moved := LiveOf(k0, n);
    EmptyRecordIsZero();
    PlacedSlots(d0, moved, k);
    if moved != [] && FreeBefore(d0, k) < |moved| {
      LiveFrom(k0, n, FreeBefore(d0, k));
    }
  }

  lemma {:induction false} LiveFrom(kids: seq<Tree>, n: nat, m: nat)
    requires n <= |kids| && m < |LiveOf(kids, n)|
    ensures exists i :: 0 <= i < n && Live(kids[i].rec) && LiveOf(kids, n)[m] == kids[i]
  {
    if m < |LiveOf(kids, n - 1)| {
      LiveFrom(kids, n - 1, m);
    }
  }

  /** Neither directory is moved with the entry. */
  lemma DirsStay(t: Tree, p: Path, q: Path, n: nat)
    requires DotReady(t, p, q) && n < |At(t, Lookup(t, p).value).kids| && Live(At(t, Lookup(t, p).value).kids[n].rec)
    ensures var m := At(t, Lookup(t, p).value).kids[n].rec.name;
            !(q + [m] <= p) && !(p + [m] <= p) && !(q + [m] <= q) && !(p + [m] <= q)
  {
    var kids := At(t, Lookup(t, p).value).kids;
    var m := kids[n].rec.name;
    NotAbove(t, p, q);
    assert p + [m] <= q ==> p <= q;
    assert q + [m] <= p ==> q < p && p[|q|] == m;
    if q < p {
      NotThrough(t, p, q, n + 1);
      MovedNext(kids, n, m);
    }
  }

  lemma DotNext(t: Tree, p: Path, q: Path, n: nat)
    requires DotReady(t, p, q) && DotState(t, p, q, n) && n < |At(t, Lookup(t, p).value).kids|
    ensures DotState(t, p, q, n + 1)
  {
    var c, b := Lookup(t, p).value, Lookup(t, q).value;
    var k0, d0, now := At(t, c).kids, At(t, b).kids, MoveAll(t, c, b, n);
    OuterStep(k0, d0, t, c, b, n);
    if Live(k0[n].rec) {
      DirsStay(t, p, q, n);
      var f := NextTurning(t, p, q, n);
      TurnLookup(now, p, q, c, n, b, f, p);
      TurnLookup(now, p, q, c, n, b, f, q);
    } else {
      MoveNextIs(k0, d0, now, c, b, n);
    }
  }

  lemma DotStart(t: Tree, p: Path, q: Path)
    requires DotReady(t, p, q)
    ensures DotState(t, p, q, 0)
  {
    var c, b := Lookup(t, p).value, Lookup(t, q).value;
    StartState(t, c, b);
    assert MoveAll(t, c, b, 0) == t;
  }

  lemma {:induction false} DotStates(t: Tree, p: Path, q: Path, n: nat)
    requires DotReady(t, p, q) && n <= |At(t, Lookup(t, p).value).kids|
    ensures DotState(t, p, q, n)
    decreases n
  {
    hide DotReady, AfterTurns;
    if n == 0 {
      DotStart(t, p, q);
    } else {
      DotStates(t, p, q, n - 1);
      DotNext(t, p, q, n - 1);
    }
  }

  /** One turn of the outer loop, for the records. */
  lemma DotTurn(t: Tree, p: Path, q: Path, n: nat, r: Path)
    requires DotReady(t, p, q) && DotState(t, p, q, n) && n < |At(t, Lookup(t, p).value).kids| && Plain(r)
    ensures var c, b := Lookup(t, p).value, Lookup(t, q).value; var k0 := At(t, c).kids;
            RecordAt(MoveAll(t, c, b, n + 1), r) ==
            if Live(k0[n].rec) then RecordFrom(MoveAll(t, c, b, n), Origin(p + [k0[n].rec.name], q, false, r))
            else RecordAt(MoveAll(t, c, b, n), r)
  {
    var c, b := Lookup(t, p).value, Lookup(t, q).value;
    var k0, d0, now := At(t, c).kids, At(t, b).kids, MoveAll(t, c, b, n);
    if Live(k0[n].rec) {
      var f := NextTurning(t, p, q, n);
      TurnRecords(now, p, q, c, n, b, f, r);
    } else {
      MoveNextIs(k0, d0, now, c, b, n);
    }
  }

  lemma SkipOrigin(kids: seq<Tree>, n: nat, p: Path, q: Path, r: Path)
    requires n < |kids| && !Live(kids[n].rec)
    ensures DotOrigin(kids, n + 1, p, q, r) == DotOrigin(kids, n, p, q, r)
  {
    if q < r {
      MovedNext(kids, n, r[|q|]);
    }
    if p < r {
      MovedNext(kids, n, r[|p|]);
    }
  }

  lemma OriginPlain(t: Tree, p: Path, q: Path, n: nat, r: Path)
    requires DotReady(t, p, q) && n < |At(t, Lookup(t, p).value).kids| && Live(At(t, Lookup(t, p).value).kids[n].rec)
    requires Plain(r)
    ensures var o := Origin(p + [At(t, Lookup(t, p).value).kids[n].rec.name], q, false, r); o.Some? ==> Plain(o.value)
  {
  }

  /** After `n` turns the path leads to what its origin led to at the beginning. */
  ghost predicate TracedTo(t: Tree, p: Path, q: Path, n: nat, r: Path) {
    && Lookup(t, p).Some? && Lookup(t, q).Some? && n <= |At(t, Lookup(t, p).value).kids|
    && RecordAt(MoveAll(t, Lookup(t, p).value, Lookup(t, q).value, n), r) ==
       RecordFrom(t, DotOrigin(At(t, Lookup(t, p).value).kids, n, p, q, r))
  }

  lemma TracedStart(t: Tree, p: Path, q: Path, r: Path)
    requires DotReady(t, p, q)
    ensures TracedTo(t, p, q, 0, r)
  {
    assert DotOrigin(At(t, Lookup(t, p).value).kids, 0, p, q, r) == Some(r);
  }

  lemma TracedLive(t: Tree, p: Path, q: Path, n: nat, r: Path)
    requires DotReady(t, p, q) && DotState(t, p, q, n) && n < |At(t, Lookup(t, p).value).kids| && Plain(r)
    requires Live(At(t, Lookup(t, p).value).kids[n].rec)
    requires var o := Origin(p + [At(t, Lookup(t, p).value).kids[n].rec.name], q, false, r);
             o.Some? ==> TracedTo(t, p, q, n, o.value)
    ensures TracedTo(t, p, q, n + 1, r)
  {
    DotTurn(t, p, q, n, r);
    OriginNext(t, p, q, n, r);
  }

  lemma TracedSkip(t: Tree, p: Path, q: Path, n: nat, r: Path)
    requires DotReady(t, p, q) && DotState(t, p, q, n) && n < |At(t, Lookup(t, p).value).kids| && Plain(r)
    requires !Live(At(t, Lookup(t, p).value).kids[n].rec) && TracedTo(t, p, q, n, r)
    ensures TracedTo(t, p, q, n + 1, r)
  {
    DotTurn(t, p, q, n, r);
    SkipOrigin(At(t, Lookup(t, p).value).kids, n, p, q, r);
  }

  lemma {:induction false} DotRecordsTo(t: Tree, p: Path, q: Path, n: nat, r: Path)
    requires DotReady(t, p, q) && n <= |At(t, Lookup(t, p).value).kids| && Plain(r)
    ensures TracedTo(t, p, q, n, r)
    decreases n
  {
    hide DotReady, AfterTurns;
    DotBasics(t, p, q);
    if n == 0 {
      TracedStart(t, p, q, r);
    } else {
      var u := At(t, Lookup(t, p).value).kids[n - 1];
      DotStates(t, p, q, n - 1);
      if Live(u.rec) {
        var o := Origin(p + [u.rec.name], q, false, r);
        OriginPlain(t, p, q, n - 1, r);
        if o.Some? {
          DotRecordsTo(t, p, q, n - 1, o.value);
        }
        TracedLive(t, p, q, n - 1, r);
      } else {
        DotRecordsTo(t, p, q, n - 1, r);
        TracedSkip(t, p, q, n - 1, r);
      }
    }
  }

  // ----- the results -----

  /** The volume after "." of the directory at `p` was moved to the directory at `q`. */
  ghost function DotMoved(v: Volume, p: Path, q: Path): Volume
    requires Lookup(v.root, p).Some? && Lookup(v.root, q).Some?
  {
    var c := Lookup(v.root, p).value;
    v.(root := MoveAll(v.root, c, Lookup(v.root, q).value, |At(v.root, c).kids|))
  }

  /**
   After moving ".", every path below an entry of the source leads below the destination to the same record, the old
   paths lead nowhere, and every other path leads to the record that it led to.
   */
  lemma DotMoveRecords(t: Tree, p: Path, q: Path, r: Path)
    requires DotReady(t, p, q) && Plain(r)
    ensures var c := Lookup(t, p).value; var kids := At(t, c).kids;
            RecordAt(MoveAll(t, c, Lookup(t, q).value, |kids|), r) == RecordFrom(t, DotOrigin(kids, |kids|, p, q, r))
  {
    DotRecordsTo(t, p, q, |At(t, Lookup(t, p).value).kids|, r);
  }

  /** Files keep their bytes under their new paths. */
  lemma DotMoveContents(d: Disk, v: Volume, p: Path, q: Path, r: Path)
    requires VolumeSound(v) && Fits(Areas(v.bpb), d) && DotReady(v.root, p, q) && Plain(r)
    ensures var kids := At(v.root, Lookup(v.root, p).value).kids;
            FileContent(d, DotMoved(v, p, q), r) ==
            match DotOrigin(kids, |kids|, p, q, r) case None => None case Some(o) => FileContent(d, v, o)
  {
    DotMoveRecords(v.root, p, q, r);
  }
}
