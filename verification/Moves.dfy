/** Moving an entry into another directory: what it does to paths, records, contents and soundness. */
module Moves {
  import opened Records
  import opened Options
  import opened Errors
  import opened BiosParameterBlock
  import opened Disks
  import opened Trees
  import opened Volumes
  import opened Creation
  import opened Lookups
  import opened Files
  import opened Contents

  // ----- the path relation -----

  datatype PathRelation = Equal | First | Second | Unrelated

  /** What lf12_path_get_parent should answer: equality, proper prefix, proper extension. */
  ghost function Relation(p: Path, q: Path): PathRelation {
    if p == q then Equal else if p <= q then First else if q <= p then Second else Unrelated
  }

  /** lf12_path_get_parent; the null pointer is the empty path. */
  method PathGetParent(p: Path, q: Path) returns (r: PathRelation)
    ensures r == Relation(p, q)
  {
    if p == [] && q == [] {
      return Equal;
    } else if p == [] {
      return First;
    } else if q == [] {
      return Second;
    }
    var i := 0;
    while p[i] == q[i]
      invariant i < |p| && i < |q| && p[..i] == q[..i]
      decreases |p| - i
    {
      assert p[..i + 1] == q[..i + 1];
      if i + 1 == |p| && i + 1 == |q| {
        return Equal;
      } else if i + 1 == |p| {
        return First;
      } else if i + 1 == |q| {
        return Second;
      }
      i := i + 1;
    }
    return Unrelated;
  }

  // ----- paths and addresses -----

  /** Neither address lies at or below the other. */
  predicate Apart(a: Address, b: Address) {
    !(a <= b) && !(b <= a)
  }

  lemma {:induction false} NamesPrefix(t: Tree, a: Address, b: Address)
    requires a <= b && Valid(t, b)
    ensures Valid(t, a) && Names(t, a) <= Names(t, b)
  {
    if a != [] {
      assert b == [a[0]] + b[1..] && a == [a[0]] + a[1..];
      NamesPrefix(t.kids[a[0]], a[1..], b[1..]);
    }
  }

  /** Between entries that exist, one path begins the other exactly when it leads to a place above. */
  lemma PrefixesAgree(t: Tree, p: Path, q: Path)
    requires Lookup(t, p).Some? && Lookup(t, q).Some?
    ensures p <= q <==> Lookup(t, p).value <= Lookup(t, q).value
  {
    var a, b := Lookup(t, p).value, Lookup(t, q).value;
    LookupNames(t, p);
    LookupNames(t, q);
    if p <= q {
      assert q == p + q[|p|..];
      LookupAppend(t, p, q[|p|..]);
    }
    if a <= b {
      NamesPrefix(t, a, b);
    }
  }

  // ----- two changes at different places -----

  /** Changes at two addresses apart can be made in either order. */
  lemma {:induction false} PutCommutes(t: Tree, a: Address, u: Tree, b: Address, w: Tree)
    requires Valid(t, a) && Valid(t, b) && Apart(a, b)
    ensures Valid(Put(t, a, u), b) && Valid(Put(t, b, w), a)
    ensures Put(Put(t, a, u), b, w) == Put(Put(t, b, w), a, u)
  {
    AtPutElsewhere(t, a, u, b);
    AtPutElsewhere(t, b, w, a);
    var i, j := a[0], b[0];
    if i == j {
      assert a == [i] + a[1..] && b == [j] + b[1..];
      PutCommutes(t.kids[i], a[1..], u, b[1..], w);
      assert t.kids[i := Put(t.kids[i], a[1..], u)][i := Put(Put(t.kids[i], a[1..], u), b[1..], w)] ==
             t.kids[i := Put(t.kids[i], b[1..], w)][i := Put(Put(t.kids[i], b[1..], w), a[1..], u)];
    } else {
      assert t.kids[i := Put(t.kids[i], a[1..], u)][j := Put(t.kids[j], b[1..], w)] ==
             t.kids[j := Put(t.kids[j], b[1..], w)][i := Put(t.kids[i], a[1..], u)];
    }
  }

  // ----- lf12_move_entry for an entry other than "." -----

  /** The free slot of the directory at `b`. */
  ghost function Slot(t: Tree, b: Address): nat
    requires Valid(t, b)
  {
    FindFree(At(t, b).kids, 0)
  }

  /** The entry at `a` may be moved into the directory at `b`. */
  ghost predicate Movable(t: Tree, a: Address, b: Address) {
    && Valid(t, a) && Valid(t, b) && a != [] && !(a <= b) && Used(At(t, a).rec)
    && Slot(t, b) < |At(t, b).kids| && At(t, b).kids[Slot(t, b)].kids == []
  }

  /** The slot that receives the entry is a place apart from the entry. */
  lemma TargetApart(t: Tree, a: Address, b: Address)
    requires Movable(t, a, b)
    ensures var c := b + [Slot(t, b)];
            Valid(t, c) && At(t, c) == At(t, b).kids[Slot(t, b)] && Apart(a, c)
  {
    var i := Slot(t, b);
    var c := b + [i];
    ValidAppend(t, b, [i]);
    assert At(At(t, b), [i]) == At(t, b).kids[i];
    assert (a <= c ==> a == c) && (c <= a ==> a == c + a[|c|..]);
    if c <= a {
      ValidAppend(t, c, a[|c|..]);
    }
  }

  ghost function Moved(t: Tree, a: Address, b: Address): Tree
    requires Movable(t, a, b)
  {
    TargetApart(t, a, b);
    AtPutElsewhere(t, a, FREE, b + [Slot(t, b)]);
    Put(Put(t, a, FREE), b + [Slot(t, b)], At(t, a))
  }

  /** In the directory at `b`, no entry but the one at `a` has the name. */
  ghost predicate NoOther(t: Tree, a: Address, b: Address, name: ShortName)
    requires Valid(t, b)
  {
    forall i :: 0 <= i < |At(t, b).kids| && b + [i] != a ==> At(t, b).kids[i].rec.name != name
  }

  /** What the removal of the entry at `a` leaves of the directory at `b`. */
  lemma DirAfterRemoval(t: Tree, a: Address, b: Address)
    requires Valid(t, a) && Valid(t, b) && a != [] && !(a <= b)
    ensures Valid(Put(t, a, FREE), b)
    ensures var kids, kids' := At(t, b).kids, At(Put(t, a, FREE), b).kids;
            && |kids'| == |kids|
            && forall i :: 0 <= i < |kids| ==>
                 if b + [i] == a then kids'[i] == FREE
                 else kids'[i].rec == kids[i].rec && (kids[i].kids == [] ==> kids'[i] == kids[i])
  {
    if b <= a {
      AtPutAbove(t, a, FREE, b);
      var rest := a[|b|..];
      assert a == b + rest && rest != [];
      KidAfterPut(At(t, b), rest, FREE);
      forall i | 0 <= i < |At(t, b).kids| ensures b + [i] == a <==> rest == [i] {
        assert (b + [i])[|b|..] == [i];
      }
    } else {
      AtPutElsewhere(t, a, FREE, b);
      assert forall i :: b + [i] == a ==> b <= a;
    }
  }

  lemma KidAfterPut(t: Tree, a: Address, u: Tree)
    requires Valid(t, a) && a != []
    ensures var kids, kids' := t.kids, Put(t, a, u).kids;
            && |kids'| == |kids|
            && forall i :: 0 <= i < |kids| ==>
                 if a == [i] then kids'[i] == u
                 else kids'[i].rec == kids[i].rec && (kids[i].kids == [] ==> kids'[i] == kids[i])
  {
    if |a| > 1 {
      assert a[1..] != [] && t.kids[a[0]].kids != [];
    } else {
      assert a == [a[0]];
    }
  }

  /**
   An entry of the name lies in the destination before the slot that receives the moved entry: looking up the name
   finds that entry.
   */
  ghost predicate Covered(t: Tree, a: Address, b: Address)
    requires Valid(t, a) && Valid(t, b)
  {
    exists i :: 0 <= i < Slot(t, b) && b + [i] != a && At(t, b).kids[i].rec.name == At(t, a).rec.name
  }

  /** The target slot after the removal. */
  lemma TargetAfterRemoval(t: Tree, a: Address, b: Address)
    requires Movable(t, a, b) && PlainName(At(t, a).rec.name)
    ensures Valid(Put(t, a, FREE), b) && FreeAt(At(Put(t, a, FREE), b), Slot(t, b))
    ensures Hides(At(Put(t, a, FREE), b), Slot(t, b), At(t, a).rec.name) <==> Covered(t, a, b)
  {
    var name, i := At(t, a).rec.name, Slot(t, b);
    TargetApart(t, a, b);
    DirAfterRemoval(t, a, b);
    EmptyRecordIsZero();
    assert b + [i] != a;
    var kids, kids' := At(t, b).kids, At(Put(t, a, FREE), b).kids;
    var r := FindFrom(kids', name, 0);
    if r < i {
      assert b + [r] != a && kids[r].rec == kids'[r].rec;
    }
    forall k | 0 <= k < i && b + [k] != a && kids[k].rec.name == name ensures r < i {
      assert kids'[k].rec == kids[k].rec;
    }
  }

  // ----- the main result: paths -----

  /** The entry's directory and its slot there. */
  ghost predicate OnlyOfItsName(t: Tree, a: Address)
    requires Valid(t, a) && a != []
  {
    var dir := a[..|a| - 1];
    Valid(t, dir) && a[|a| - 1] < |At(t, dir).kids| && OnlyName(At(t, dir).kids, a[|a| - 1])
  }

  /** A path `p` that can be moved into the directory `q`: what f12_move and the tree have to guarantee. */
  ghost predicate MoveReady(t: Tree, p: Path, q: Path) {
    && Plain(p) && Plain(q) && Relation(p, q) != Equal && Relation(p, q) != First && p != []
    && Lookup(t, p).Some? && Lookup(t, q).Some?
    && var b := Lookup(t, q).value;
       Slot(t, b) < |At(t, b).kids| && At(t, b).kids[Slot(t, b)].kids == []
  }

  /** The move of `p` into `q` is not found under its name. */
  ghost predicate CoveredPath(t: Tree, p: Path, q: Path)
    requires Lookup(t, p).Some? && Lookup(t, q).Some?
  {
    Covered(t, Lookup(t, p).value, Lookup(t, q).value)
  }

  lemma {:induction false} LookupLastName(t: Tree, p: Path)
    requires Lookup(t, p).Some? && p != []
    ensures At(t, Lookup(t, p).value).rec.name == p[|p| - 1]
    decreases |p|
  {
    if |p| > 1 {
      LookupLastName(t.kids[FindFrom(t.kids, p[0], 0)], p[1..]);
    }
  }

  lemma ReadyIsMovable(t: Tree, p: Path, q: Path)
    requires MoveReady(t, p, q)
    ensures Movable(t, Lookup(t, p).value, Lookup(t, q).value)
    ensures At(t, Lookup(t, p).value).rec.name == p[|p| - 1]
  {
    PrefixesAgree(t, p, q);
    LookupLastName(t, p);
  }

  ghost function MovedPath(t: Tree, p: Path, q: Path): Tree
    requires MoveReady(t, p, q)
  {
    ReadyIsMovable(t, p, q);
    Moved(t, Lookup(t, p).value, Lookup(t, q).value)
  }

  /**
   Every path below `q` and the entry's name resolves below the new place, unless an earlier entry has the name; every
   other path leads where it leads without the entry.
   */
  lemma MoveLookup(t: Tree, p: Path, q: Path, r: Path)
    requires MoveReady(t, p, q) && Plain(r)
    ensures var a, b := Lookup(t, p).value, Lookup(t, q).value;
            Lookup(MovedPath(t, p, q), r) ==
            if q + [p[|p| - 1]] <= r && !Covered(t, a, b) then Below(b + [Slot(t, b)], Lookup(At(t, a), r[|q| + 1..]))
            else Remaining(t, p, r)
  {
    ReadyIsMovable(t, p, q);
    Remove(t, p, q);
    Remove(t, p, r);
    InsertMoved(t, Lookup(t, p).value, q, Lookup(t, q).value, r);
  }

  lemma InsertMoved(t: Tree, a: Address, q: Path, b: Address, r: Path)
    requires Movable(t, a, b) && Lookup(Put(t, a, FREE), q) == Some(b) && Plain(r) && PlainName(At(t, a).rec.name)
    ensures Lookup(Moved(t, a, b), r) ==
            if q + [At(t, a).rec.name] <= r && !Covered(t, a, b) then Below(b + [Slot(t, b)], Lookup(At(t, a), r[|q| + 1..]))
            else Lookup(Put(t, a, FREE), r)
  {
    TargetAfterRemoval(t, a, b);
    Insert(Put(t, a, FREE), q, Slot(t, b), At(t, a), r);
  }

  /**
   Under its name the entry is found exactly if no other entry of the directory has the name in an earlier slot; `f` is
   the first slot of the name among the others. One of the two entries is hidden.
   */
  lemma MovedName(t: Tree, p: Path, q: Path)
    requires MoveReady(t, p, q)
    ensures var a, b, name := Lookup(t, p).value, Lookup(t, q).value, p[|p| - 1];
            && Valid(Put(t, a, FREE), b)
            && var f := FindFrom(At(Put(t, a, FREE), b).kids, name, 0);
               && Lookup(MovedPath(t, p, q), q + [name]) == Some(b + [if f < Slot(t, b) then f else Slot(t, b)])
               && (f < Slot(t, b) <==> Covered(t, a, b))
  {
    var a, b, name := Lookup(t, p).value, Lookup(t, q).value, p[|p| - 1];
    ReadyIsMovable(t, p, q);
    TargetAfterRemoval(t, a, b);
    MoveLookup(t, p, q, q + [name]);
    Remove(t, p, q);
    Remove(t, p, q + [name]);
    var c := b + [Slot(t, b)];
    assert c + [] == c;
    if Covered(t, a, b) {
      ExistingPath(Put(t, a, FREE), q, name);
    }
  }

  // ----- the main result: entries -----

  /** A change leaves every record that is not at or below its address. */
  lemma RecordKept(t: Tree, a: Address, u: Tree, x: Address)
    requires Valid(t, a) && Valid(t, x) && !(a <= x)
    ensures Valid(Put(t, a, u), x) && At(Put(t, a, u), x).rec == At(t, x).rec
  {
    if x <= a {
      AtPutAbove(t, a, u, x);
    } else {
      AtPutElsewhere(t, a, u, x);
    }
  }

  lemma MovedRecord(t: Tree, a: Address, b: Address, x: Address)
    requires Movable(t, a, b) && Valid(t, x) && !(a <= x) && !(b + [Slot(t, b)] <= x)
    ensures Valid(Moved(t, a, b), x) && At(Moved(t, a, b), x).rec == At(t, x).rec
  {
    var c := b + [Slot(t, b)];
    TargetApart(t, a, b);
    AtPutElsewhere(t, a, FREE, c);
    RecordKept(t, a, FREE, x);
    RecordKept(Put(t, a, FREE), c, At(t, a), x);
  }

  /** The moved subtree is the same at its new place. */
  lemma MovedSubtree(t: Tree, a: Address, b: Address)
    requires Movable(t, a, b)
    ensures Valid(Moved(t, a, b), b + [Slot(t, b)]) && At(Moved(t, a, b), b + [Slot(t, b)]) == At(t, a)
    ensures Moved(t, a, b).rec == t.rec && |Moved(t, a, b).kids| == |t.kids|
  {
    TargetApart(t, a, b);
    AtPutElsewhere(t, a, FREE, b + [Slot(t, b)]);
    AtPut(Put(t, a, FREE), b + [Slot(t, b)], At(t, a));
  }

  /** Where the entry that a path leads to after the move was before. */
  ghost function CameFrom(t: Tree, p: Path, q: Path, r: Path): (o: Option<Address>)
    requires p != [] && Lookup(t, p).Some? && Lookup(t, q).Some?
    ensures o.Some? ==> Valid(t, o.value)
  {
    if q + [p[|p| - 1]] <= r && !CoveredPath(t, p, q) then Lookup(t, p + r[|q| + 1..]) else Remaining(t, p, r)
  }

  /** The path that led to an entry before the move of an entry that is the only one of its name. */
  function Origin(p: Path, q: Path, covered: bool, r: Path): Option<Path>
    requires p != []
  {
    if q + [p[|p| - 1]] <= r && !covered then Some(p + r[|q| + 1..])
    else if p <= r then None
    else Some(r)
  }

  lemma CameFromOrigin(t: Tree, p: Path, q: Path, r: Path)
    requires p != [] && Lookup(t, p).Some? && Lookup(t, q).Some? && OnlyOfItsName(t, Lookup(t, p).value)
    ensures CameFrom(t, p, q, r) ==
            match Origin(p, q, CoveredPath(t, p, q), r) case None => None case Some(o) => Lookup(t, o)
  {
    RemainingOnly(t, p, r);
  }

  ghost function RecordOf(t: Tree, x: Option<Address>): Option<Record>
    requires x.Some? ==> Valid(t, x.value)
  {
    match x case None => None case Some(a) => Some(At(t, a).rec)
  }

  ghost function RecordAt(t: Tree, r: Path): Option<Record> {
    RecordOf(t, Lookup(t, r))
  }

  /** A plain path leads to no free slot, and so to no place at or below one. */
  lemma NotBelowFree(t: Tree, r: Path, c: Address)
    requires Plain(r) && Lookup(t, r).Some? && Valid(t, c) && c != [] && !Used(At(t, c).rec) && At(t, c).kids == []
    ensures !(c <= Lookup(t, r).value)
  {
    var x := Lookup(t, r).value;
    assert (c <= x ==> x == c + x[|c|..]) && (r != [] ==> PlainName(r[|r| - 1]));
    if c <= x {
      ValidAppend(t, c, x[|c|..]);
      LookupLastName(t, r);
    }
  }

  /** What remains without an entry does not lie at or below it. */
  lemma RemainingApart(t: Tree, p: Path, r: Path)
    requires p != [] && Lookup(t, p).Some? && Plain(p) && Plain(r) && Remaining(t, p, r).Some?
    ensures Lookup(Put(t, Lookup(t, p).value, FREE), r) == Remaining(t, p, r)
    ensures !(Lookup(t, p).value <= Remaining(t, p, r).value)
  {
    EmptyRecordIsZero();
    Remove(t, p, r);
    AtPut(t, Lookup(t, p).value, FREE);
    NotBelowFree(Put(t, Lookup(t, p).value, FREE), r, Lookup(t, p).value);
  }

  /** Nor in the slot that receives the entry. */
  lemma RemainingOutside(t: Tree, p: Path, q: Path, r: Path)
    requires MoveReady(t, p, q) && Plain(r) && Remaining(t, p, r).Some?
    ensures var b := Lookup(t, q).value; !(b + [Slot(t, b)] <= Remaining(t, p, r).value)
  {
    var a, b := Lookup(t, p).value, Lookup(t, q).value;
    ReadyIsMovable(t, p, q);
    RemainingApart(t, p, r);
    TargetApart(t, a, b);
    AtPutElsewhere(t, a, FREE, b + [Slot(t, b)]);
    NotBelowFree(Put(t, a, FREE), r, b + [Slot(t, b)]);
  }

  /** Everything below the new place was below the old one. */
  lemma MoveRecordsBelow(t: Tree, p: Path, q: Path, r: Path)
    requires MoveReady(t, p, q) && Plain(r) && q + [p[|p| - 1]] <= r && !CoveredPath(t, p, q)
    ensures RecordAt(MovedPath(t, p, q), r) == RecordAt(t, p + r[|q| + 1..])
  {
    ReadyIsMovable(t, p, q);
    MoveLookup(t, p, q, r);
    var a, b, rest := Lookup(t, p).value, Lookup(t, q).value, r[|q| + 1..];
    LookupAppend(t, p, rest);
    MovedSubtree(t, a, b);
    if Lookup(At(t, a), rest).Some? {
      var x := Lookup(At(t, a), rest).value;
      ValidAppend(t, a, x);
      ValidAppend(Moved(t, a, b), b + [Slot(t, b)], x);
    }
  }

  /** After a move every path leads to the record of the entry that it leads to now. */
  lemma MoveRecords(t: Tree, p: Path, q: Path, r: Path)
    requires MoveReady(t, p, q) && Plain(r)
    ensures RecordAt(MovedPath(t, p, q), r) == RecordOf(t, CameFrom(t, p, q, r))
  {
    if q + [p[|p| - 1]] <= r && !CoveredPath(t, p, q) {
      MoveRecordsBelow(t, p, q, r);
    } else {
      MoveLookup(t, p, q, r);
      if Remaining(t, p, r).Some? {
        ReadyIsMovable(t, p, q);
        RemainingApart(t, p, r);
        RemainingOutside(t, p, q, r);
        MovedRecord(t, Lookup(t, p).value, Lookup(t, q).value, Remaining(t, p, r).value);
      }
    }
  }

  ghost function MovedVolume(v: Volume, p: Path, q: Path): Volume
    requires MoveReady(v.root, p, q)
  {
    v.(root := MovedPath(v.root, p, q))
  }

  /** Files keep their bytes under their new paths. */
  lemma MoveContents(d: Disk, v: Volume, p: Path, q: Path, r: Path)
    requires VolumeSound(v) && Fits(Areas(v.bpb), d) && MoveReady(v.root, p, q) && Plain(r)
    ensures FileContent(d, MovedVolume(v, p, q), r) == ContentAt(d, v, CameFrom(v.root, p, q, r))
  {
    MoveRecords(v.root, p, q, r);
  }

  // ----- soundness -----

  lemma FreeSound(g: Geometry, fat: Fat.Table)
    ensures SlotSound(g, fat, FREE) && TreeClusters(fat, FREE) == {}
  {
    EmptyRecordIsZero();
  }

  /** A move keeps all chains where they are and apart. */
  lemma MoveSound(g: Geometry, fat: Fat.Table, t: Tree, a: Address, b: Address)
    requires DirSound(g, fat, t.kids) && Movable(t, a, b)
    ensures DirSound(g, fat, Moved(t, a, b).kids)
    ensures KidClusters(fat, Moved(t, a, b).kids) == KidClusters(fat, t.kids)
  {
    var c, u := b + [Slot(t, b)], At(t, a);
    TargetApart(t, a, b);
    FreeSound(g, fat);
    SoundAt(g, fat, t, a);
    PutSound(g, fat, t, a, FREE);
    AtPutElsewhere(t, a, FREE, c);
    PutSound(g, fat, Put(t, a, FREE), c, u);
    assert TreeClusters(fat, At(t, c)) == {};
  }

  lemma MovedVolumeSound(v: Volume, p: Path, q: Path)
    requires VolumeSound(v) && MoveReady(v.root, p, q)
    ensures VolumeSound(MovedVolume(v, p, q))
  {
    ReadyIsMovable(v.root, p, q);
    var a, b := Lookup(v.root, p).value, Lookup(v.root, q).value;
    MoveSound(Areas(v.bpb), v.fat, v.root, a, b);
    MovedSubtree(v.root, a, b);
  }

  /** f12_move: after the move is written, reading the image gives every file its bytes under its new path. */
  lemma MoveThenGet(d: Disk, v: Volume, p: Path, q: Path, r: Path, loaded: Volume)
    requires VolumeSound(v) && Fits(Areas(v.bpb), d) && MoveReady(v.root, p, q) && Plain(r)
    ensures VolumeSound(MovedVolume(v, p, q))
    ensures var saved := WriteMetadata(d, MovedVolume(v, p, q));
            && ReadsVolume(saved, FilledVolume(MovedVolume(v, p, q)))
            && (ReadsVolume(saved, loaded) ==>
                  FileContent(saved, loaded, r) == ContentAt(d, v, CameFrom(v.root, p, q, r)))
  {
    MovedVolumeSound(v, p, q);
    var moved := MovedVolume(v, p, q);
    MetadataRoundTrip(d, moved);
    WriteKeepsContents(d, moved, r);
    MoveContents(d, v, p, q, r);
    if ReadsVolume(WriteMetadata(d, moved), loaded) {
      ReadsVolumeIsUnique(WriteMetadata(d, moved), loaded, FilledVolume(moved));
    }
  }

  // ----- the checks of f12_move -----

  /** The outcome of lf12_move_entry for an entry other than ".". */
  ghost function MoveError(t: Tree, b: Address): Error
    requires Valid(t, b)
  {
    if !IsDirectory(At(t, b).rec) then NotADir
    else if Slot(t, b) == |At(t, b).kids| then DirFull
    else Success
  }

  /** The command gets as far as moving the entry: all its checks pass. */
  ghost predicate WillMove(t: Tree, p: Path, q: Path, recursive: bool) {
    && p != [] && Relation(p, q) != First && Relation(p, q) != Equal && Lookup(t, p).Some? && Lookup(t, q).Some?
    && (recursive || !IsDirectory(At(t, Lookup(t, p).value).rec) || |At(t, Lookup(t, p).value).kids| <= 2)
    && MoveError(t, Lookup(t, q).value) == Success
  }

  /** On sound metadata these checks are enough: the entry can be moved, and the metadata are sound afterwards. */
  lemma WillMoveIsSafe(v: Volume, p: Path, q: Path)
    requires VolumeSound(v) && Plain(p) && p != [] && Relation(p, q) != First && Relation(p, q) != Equal
    requires Lookup(v.root, p).Some? && Lookup(v.root, q).Some? && MoveError(v.root, Lookup(v.root, q).value) == Success
    ensures var a, b := Lookup(v.root, p).value, Lookup(v.root, q).value;
            Movable(v.root, a, b) && VolumeSound(v.(root := Moved(v.root, a, b)))
  {
    var a, b := Lookup(v.root, p).value, Lookup(v.root, q).value;
    PrefixesAgree(v.root, p, q);
    LookupLastName(v.root, p);
    assert PlainName(p[|p| - 1]);
    FreeSlotIsLeaf(v, b);
    MoveSound(Areas(v.bpb), v.fat, v.root, a, b);
    MovedSubtree(v.root, a, b);
  }

  lemma FreeSlotIsLeaf(v: Volume, b: Address)
    requires VolumeSound(v) && Valid(v.root, b) && Slot(v.root, b) < |At(v.root, b).kids|
    ensures At(v.root, b).kids[Slot(v.root, b)].kids == []
  {
    var c := b + [Slot(v.root, b)];
    ValidAppend(v.root, b, [Slot(v.root, b)]);
    assert At(At(v.root, b), [Slot(v.root, b)]) == At(v.root, b).kids[Slot(v.root, b)];
    SoundAt(Areas(v.bpb), v.fat, v.root, c);
  }

  /** The metadata after the command. */
  ghost function MovedTo(v: Volume, p: Path, q: Path, recursive: bool): (w: Volume)
    requires VolumeSound(v) && Plain(p)
    ensures VolumeSound(w) && w.bpb == v.bpb
  {
    if WillMove(v.root, p, q, recursive) then
      WillMoveIsSafe(v, p, q);
      v.(root := Moved(v.root, Lookup(v.root, p).value, Lookup(v.root, q).value))
    else v
  }

  /** Between parsed paths, this is the moved volume of the results above. */
  lemma ReadyIsMoved(v: Volume, p: Path, q: Path, recursive: bool)
    requires VolumeSound(v) && Plain(p) && Plain(q) && WillMove(v.root, p, q, recursive)
    ensures MoveReady(v.root, p, q) && MovedTo(v, p, q, recursive) == MovedVolume(v, p, q)
  {
    FreeSlotIsLeaf(v, Lookup(v.root, q).value);
  }
}
