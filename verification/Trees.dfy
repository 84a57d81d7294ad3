/** The directory tree as a value: slots, addresses, lookup by name and soundness. */
module Trees {
  import opened Records
  import opened Options
  import opened Fat
  import opened Disks
  import opened ChainIo

  /** A directory slot and, for a directory, the slots of its table. */
  datatype Tree = Node(rec: Record, kids: seq<Tree>)

  const FREE: Tree := Node(EMPTY, [])

  // ----- addresses -----

  /** Slot numbers from some directory down to a slot below it. */
  type Address = seq<nat>

  predicate Valid(t: Tree, a: Address) {
    a == [] || (a[0] < |t.kids| && Valid(t.kids[a[0]], a[1..]))
  }

  function At(t: Tree, a: Address): Tree
    requires Valid(t, a)
  {
    if a == [] then t else At(t.kids[a[0]], a[1..])
  }

  /** `t` with `u` at address `a`. */
  function Put(t: Tree, a: Address, u: Tree): Tree
    requires Valid(t, a)
  {
    if a == [] then u else t.(kids := t.kids[a[0] := Put(t.kids[a[0]], a[1..], u)])
  }

  lemma {:induction false} AtPut(t: Tree, a: Address, u: Tree)
    requires Valid(t, a)
    ensures Valid(Put(t, a, u), a) && At(Put(t, a, u), a) == u
  {
    if a != [] {
      AtPut(t.kids[a[0]], a[1..], u);
    }
  }

  lemma {:induction false} AtPutElsewhere(t: Tree, a: Address, u: Tree, b: Address)
    requires Valid(t, a) && !(a <= b) && !(b <= a)
    ensures Valid(Put(t, a, u), b) <==> Valid(t, b)
    ensures Valid(t, b) ==> At(Put(t, a, u), b) == At(t, b)
  {
    if a[0] == b[0] {
      assert a == [a[0]] + a[1..] && b == [b[0]] + b[1..];
      AtPutElsewhere(t.kids[a[0]], a[1..], u, b[1..]);
    }
  }

  /** An entry above the address keeps its record. */
  lemma {:induction false} AtPutAbove(t: Tree, a: Address, u: Tree, b: Address)
    requires Valid(t, a) && b <= a && b != a
    ensures Valid(t, b) && Valid(Put(t, a, u), b)
    ensures At(Put(t, a, u), b).rec == At(t, b).rec && |At(Put(t, a, u), b).kids| == |At(t, b).kids|
    ensures Valid(At(t, b), a[|b|..]) && At(Put(t, a, u), b) == Put(At(t, b), a[|b|..], u)
  {
    if b != [] {
      AtPutAbove(t.kids[a[0]], a[1..], u, b[1..]);
      assert a[|b|..] == a[1..][|b[1..]|..];
    }
  }

  lemma {:induction false} ValidAppend(t: Tree, a: Address, b: Address)
    requires Valid(t, a)
    ensures Valid(t, a + b) <==> Valid(At(t, a), b)
    ensures Valid(t, a + b) ==> At(t, a + b) == At(At(t, a), b)
  {
    if a == [] {
      assert a + b == b;
    } else {
      assert (a + b)[1..] == a[1..] + b;
      ValidAppend(t.kids[a[0]], a[1..], b);
    }
  }

  lemma {:induction false} PutAppend(t: Tree, a: Address, b: Address, u: Tree)
    requires Valid(t, a) && Valid(At(t, a), b)
    ensures Valid(t, a + b) && Put(t, a + b, u) == Put(t, a, Put(At(t, a), b, u))
  {
    ValidAppend(t, a, b);
    if a == [] {
      assert a + b == b;
    } else {
      assert (a + b)[1..] == a[1..] + b;
      PutAppend(t.kids[a[0]], a[1..], b, u);
    }
  }

  // ----- lookup -----

  type Path = seq<ShortName>

  /** The first slot from `i` on with the name, or the number of slots. */
  function FindFrom(kids: seq<Tree>, name: ShortName, i: nat): (r: nat)
    requires i <= |kids|
    ensures i <= r <= |kids|
    ensures forall j :: i <= j < r ==> kids[j].rec.name != name
    ensures r < |kids| ==> kids[r].rec.name == name
    decreases |kids| - i
  {
    if i == |kids| || kids[i].rec.name == name then i else FindFrom(kids, name, i + 1)
  }

  /** The first slot whose name starts with a zero byte, or the number of slots. */
  function FindFree(kids: seq<Tree>, i: nat): (r: nat)
    requires i <= |kids|
    ensures i <= r <= |kids|
    ensures forall j :: i <= j < r ==> Used(kids[j].rec)
    ensures r < |kids| ==> !Used(kids[r].rec)
    decreases |kids| - i
  {
    if i == |kids| || !Used(kids[i].rec) then i else FindFree(kids, i + 1)
  }

  /** The number of used slots. */
  function CountUsed(kids: seq<Tree>): (n: nat)
    ensures n <= |kids|
  {
    if kids == [] then 0 else CountUsed(kids[..|kids| - 1]) + if Used(kids[|kids| - 1].rec) then 1 else 0
  }

  /** A directory is full exactly when the count of its used slots is the number of its slots. */
  lemma {:induction false} FullIsNoneFree(kids: seq<Tree>)
    ensures CountUsed(kids) == |kids| <==> FindFree(kids, 0) == |kids|
  {
    if kids != [] {
      var most := kids[..|kids| - 1];
      FullIsNoneFree(most);
      var i, j := FindFree(kids, 0), FindFree(most, 0);
      assert i < |most| ==> most[i] == kids[i];
      assert j < |most| ==> !Used(kids[j].rec);
    }
  }

  /** lf12_entry_from_path, with the slot's address as the answer. */
  function Lookup(t: Tree, path: Path): (r: Option<Address>)
    ensures r.Some? ==> Valid(t, r.value) && |r.value| == |path|
    decreases |path|
  {
    if path == [] then Some([])
    else
      var i := FindFrom(t.kids, path[0], 0);
      if i == |t.kids| then None
      else match Lookup(t.kids[i], path[1..])
        case None => None
        case Some(a) => Some([i] + a)
  }

  /** The names on the way to an address. */
  function Names(t: Tree, a: Address): (r: Path)
    requires Valid(t, a)
    ensures |r| == |a|
  {
    if a == [] then [] else [t.kids[a[0]].rec.name] + Names(t.kids[a[0]], a[1..])
  }

  /** A path leads to an address only along its names, so different paths lead to different slots. */
  lemma {:induction false} LookupNames(t: Tree, path: Path)
    requires Lookup(t, path).Some?
    ensures Names(t, Lookup(t, path).value) == path
    decreases |path|
  {
    if path != [] {
      var i := FindFrom(t.kids, path[0], 0);
      LookupNames(t.kids[i], path[1..]);
      assert path == [path[0]] + path[1..];
    }
  }

  /** Looking up a path in two steps. */
  lemma {:induction false} LookupAppend(t: Tree, p: Path, q: Path)
    requires Lookup(t, p).Some?
    ensures var a := Lookup(t, p).value;
            Lookup(t, p + q) == match Lookup(At(t, a), q) case None => None case Some(b) => Some(a + b)
    decreases |p|
  {
    if p == [] {
      assert p + q == q;
      assert forall b: Address :: [] + b == b;
    } else {
      var i := FindFrom(t.kids, p[0], 0);
      assert (p + q)[1..] == p[1..] + q;
      LookupAppend(t.kids[i], p[1..], q);
      assert forall b: Address :: [i] + (Lookup(t.kids[i], p[1..]).value + b) ==
                                  ([i] + Lookup(t.kids[i], p[1..]).value) + b;
    }
  }

  /** A path that does not resolve has no extension that does. */
  lemma {:induction false} LookupPrefix(t: Tree, p: Path, q: Path)
    requires Lookup(t, p).None?
    ensures Lookup(t, p + q).None?
    decreases |p|
  {
    assert (p + q)[0] == p[0] && (p + q)[1..] == p[1..] + q;
    var i := FindFrom(t.kids, p[0], 0);
    if i < |t.kids| {
      LookupPrefix(t.kids[i], p[1..], q);
    }
  }

  // ----- changed records -----

  /** `t` with another record at address `a`. */
  function SetRecord(t: Tree, a: Address, r: Record): Tree
    requires Valid(t, a)
  {
    Put(t, a, At(t, a).(rec := r))
  }

  lemma {:induction false} SetRecordElsewhere(t: Tree, a: Address, r: Record, b: Address)
    requires Valid(t, a)
    ensures Valid(SetRecord(t, a, r), b) <==> Valid(t, b)
    ensures Valid(t, b) ==> At(SetRecord(t, a, r), b).rec == if b == a then r else At(t, b).rec
  {
    if a != [] && b != [] {
      assert a == [a[0]] + a[1..] && b == [b[0]] + b[1..];
      if a[0] == b[0] {
        SetRecordElsewhere(t.kids[a[0]], a[1..], r, b[1..]);
      }
    }
  }

  lemma SetRecordKid(t: Tree, a: Address, r: Record)
    requires Valid(t, a) && a != [] && r.name == At(t, a).rec.name
    ensures var t' := SetRecord(t, a, r);
            && |t'.kids| == |t.kids| && t'.kids[a[0]] == SetRecord(t.kids[a[0]], a[1..], r)
            && forall i :: 0 <= i < |t.kids| ==> t'.kids[i].rec.name == t.kids[i].rec.name
  {
    if |a| == 1 {
      assert At(t, a) == t.kids[a[0]];
    }
  }

  lemma {:induction false} SetRecordTwice(t: Tree, a: Address, r: Record, r': Record)
    requires Valid(t, a)
    ensures Valid(SetRecord(t, a, r), a) && SetRecord(SetRecord(t, a, r), a, r') == SetRecord(t, a, r')
  {
    if a != [] {
      SetRecordTwice(t.kids[a[0]], a[1..], r, r');
    }
  }

  /** While names stay, paths lead to the same addresses. */
  lemma {:induction false} SetRecordLookup(t: Tree, a: Address, r: Record, path: Path)
    requires Valid(t, a) && (a != [] ==> r.name == At(t, a).rec.name)
    ensures Lookup(SetRecord(t, a, r), path) == Lookup(t, path)
    decreases |path|
  {
    var t' := SetRecord(t, a, r);
    if path != [] && a != [] {
      SetRecordKid(t, a, r);
      SameNames(t.kids, t'.kids, path[0], 0);
      var i := FindFrom(t.kids, path[0], 0);
      if i < |t.kids| && a[0] == i {
        SetRecordLookup(t.kids[i], a[1..], r, path[1..]);
      }
    }
  }

  lemma {:induction false} SameNames(kids: seq<Tree>, kids': seq<Tree>, name: ShortName, i: nat)
    requires |kids'| == |kids| && i <= |kids|
    requires forall j :: 0 <= j < |kids| ==> kids'[j].rec.name == kids[j].rec.name
    ensures FindFrom(kids', name, i) == FindFrom(kids, name, i)
    decreases |kids| - i
  {
    if i < |kids| {
      SameNames(kids, kids', name, i + 1);
    }
  }

  // ----- soundness -----

  /** The clusters that the slot itself refers to. */
  ghost function OwnClusters(fat: Table, r: Record): set<int> {
    if Live(r) && r.firstCluster != 0 then Clusters(fat, r.firstCluster) else {}
  }

  ghost function KidClusters(fat: Table, kids: seq<Tree>): set<int> {
    set i, c | 0 <= i < |kids| && c in TreeClusters(fat, kids[i]) :: c
  }

  /** All clusters that the slot and the slots below it refer to. */
  ghost function TreeClusters(fat: Table, t: Tree): set<int> {
    OwnClusters(fat, t.rec) + KidClusters(fat, t.kids)
  }

  /** A used directory other than "." and "..": scan and write descend into it. */
  predicate Descends(r: Record) {
    Live(r) && IsDirectory(r)
  }

  /**
   A slot whose references can be followed: free slots and dot entries are leaves; files have no chain or a
   complete one; directories have a complete chain below 64 KiB with room for their slots; no two references
   share a cluster.
   */
  ghost predicate SlotSound(g: Geometry, fat: Table, t: Tree) {
    && (!Live(t.rec) ==> t.kids == [] && (!Used(t.rec) ==> !IsDirectory(t.rec)))
    && (Live(t.rec) && t.rec.firstCluster != 0 ==> DataChain(fat, t.rec.firstCluster, g.dataClusters))
    && (Live(t.rec) && !IsDirectory(t.rec) ==> t.kids == [])
    && (Descends(t.rec) ==>
          && t.rec.firstCluster != 0
          && 32 * |t.kids| <= ChainBytes(fat, t.rec.firstCluster, g.clusterSize) < 0x1_0000
          && DirSound(g, fat, t.kids)
          && OwnClusters(fat, t.rec) !! KidClusters(fat, t.kids))
  }

  ghost predicate DirSound(g: Geometry, fat: Table, kids: seq<Tree>) {
    && (forall i :: 0 <= i < |kids| ==> SlotSound(g, fat, kids[i]))
    && (forall i, j :: 0 <= i < j < |kids| ==> TreeClusters(fat, kids[i]) !! TreeClusters(fat, kids[j]))
  }

  // ----- soundness and the table -----

  lemma {:induction false} SoundClustersAllocated(g: Geometry, fat: Table, t: Tree, c: int)
    requires c in TreeClusters(fat, t)
    ensures 2 <= c < |fat| && fat[c] != 0
  {
    if c in OwnClusters(fat, t.rec) {
      ChainIsAllocated(fat, t.rec.firstCluster, c);
    } else {
      var i :| 0 <= i < |t.kids| && c in TreeClusters(fat, t.kids[i]);
      SoundClustersAllocated(g, fat, t.kids[i], c);
    }
  }

  lemma {:induction false} SlotSoundExtends(g: Geometry, fat: Table, after: Table, t: Tree)
    requires Indexable(fat) && Extends(fat, after) && SlotSound(g, fat, t)
    ensures SlotSound(g, after, t) && TreeClusters(after, t) == TreeClusters(fat, t)
  {
    if Live(t.rec) && t.rec.firstCluster != 0 {
      ClustersSurvive(fat, after, t.rec.firstCluster);
    }
    if Descends(t.rec) {
      DirSoundExtends(g, fat, after, t.kids);
    }
  }

  lemma {:induction false} DirSoundExtends(g: Geometry, fat: Table, after: Table, kids: seq<Tree>)
    requires Indexable(fat) && Extends(fat, after) && DirSound(g, fat, kids)
    ensures DirSound(g, after, kids) && KidClusters(after, kids) == KidClusters(fat, kids)
  {
    forall i | 0 <= i < |kids|
      ensures SlotSound(g, after, kids[i]) && TreeClusters(after, kids[i]) == TreeClusters(fat, kids[i])
    {
      SlotSoundExtends(g, fat, after, kids[i]);
    }
  }

  // ----- soundness and replaced slots -----

  lemma KidClustersUpdate(g: Geometry, fat: Table, kids: seq<Tree>, i: nat, u: Tree)
    requires DirSound(g, fat, kids) && i < |kids|
    ensures KidClusters(fat, kids[i := u]) ==
            KidClusters(fat, kids) - TreeClusters(fat, kids[i]) + TreeClusters(fat, u)
  {
    var kids' := kids[i := u];
    forall c | c in KidClusters(fat, kids) && c !in TreeClusters(fat, kids[i])
      ensures c in KidClusters(fat, kids')
    {
      var j :| 0 <= j < |kids| && c in TreeClusters(fat, kids[j]);
      assert kids'[j] == kids[j];
    }
    assert kids'[i] == u;
  }

  lemma DirSoundUpdate(g: Geometry, fat: Table, kids: seq<Tree>, i: nat, u: Tree)
    requires DirSound(g, fat, kids) && i < |kids| && SlotSound(g, fat, u)
    requires TreeClusters(fat, u) !! KidClusters(fat, kids) - TreeClusters(fat, kids[i])
    ensures DirSound(g, fat, kids[i := u])
  {
    var kids' := kids[i := u];
    forall j | 0 <= j < |kids| && j != i ensures TreeClusters(fat, kids[j]) !! TreeClusters(fat, u) {
      assert TreeClusters(fat, kids[j]) !! TreeClusters(fat, kids[i]);
      assert TreeClusters(fat, kids[j]) <= KidClusters(fat, kids);
    }
  }

  /** Replacing a slot keeps a directory sound when the new slot brings no cluster that is in use elsewhere. */
  lemma {:induction false} PutSound(g: Geometry, fat: Table, t: Tree, a: Address, u: Tree)
    requires DirSound(g, fat, t.kids) && Valid(t, a) && a != [] && SlotSound(g, fat, u)
    requires TreeClusters(fat, u) !! KidClusters(fat, t.kids) - TreeClusters(fat, At(t, a))
    ensures TreeClusters(fat, At(t, a)) <= KidClusters(fat, t.kids)
    ensures DirSound(g, fat, Put(t, a, u).kids)
    ensures KidClusters(fat, Put(t, a, u).kids) ==
            KidClusters(fat, t.kids) - TreeClusters(fat, At(t, a)) + TreeClusters(fat, u)
    decreases |a|
  {
    var i := a[0];
    var kid, prior := t.kids[i], At(t, a);
    assert TreeClusters(fat, kid) <= KidClusters(fat, t.kids);
    if |a| == 1 {
      assert prior == kid && Put(t, a, u).kids == t.kids[i := u];
      DirSoundUpdate(g, fat, t.kids, i, u);
      KidClustersUpdate(g, fat, t.kids, i, u);
    } else {
      assert SlotSound(g, fat, kid) && Descends(kid.rec);
      PutSound(g, fat, kid, a[1..], u);
      var kid' := Put(kid, a[1..], u);
      PutSlotSound(g, fat, kid, kid', TreeClusters(fat, prior), TreeClusters(fat, u));
      DirSoundUpdate(g, fat, t.kids, i, kid');
      KidClustersUpdate(g, fat, t.kids, i, kid');
    }
  }

  /** A directory whose table lost the clusters `lost` and gained the clusters `won`. */
  lemma PutSlotSound(g: Geometry, fat: Table, t: Tree, t': Tree, lost: set<int>, won: set<int>)
    requires SlotSound(g, fat, t) && Descends(t.rec) && t'.rec == t.rec && |t'.kids| == |t.kids|
    requires DirSound(g, fat, t'.kids) && lost <= KidClusters(fat, t.kids)
    requires KidClusters(fat, t'.kids) == KidClusters(fat, t.kids) - lost + won
    requires won !! TreeClusters(fat, t) - lost
    ensures SlotSound(g, fat, t') && TreeClusters(fat, t') == TreeClusters(fat, t) - lost + won
  {
  }

  /** Every slot of a sound directory is sound, at any depth. */
  lemma {:induction false} SoundAt(g: Geometry, fat: Table, t: Tree, a: Address)
    requires DirSound(g, fat, t.kids) && Valid(t, a) && a != []
    ensures SlotSound(g, fat, At(t, a)) && TreeClusters(fat, At(t, a)) <= KidClusters(fat, t.kids)
    decreases |a|
  {
    var kid := t.kids[a[0]];
    assert TreeClusters(fat, kid) <= KidClusters(fat, t.kids);
    if |a| > 1 {
      SoundAt(g, fat, kid, a[1..]);
    } else {
      assert At(t, a) == kid;
    }
  }
}
