/** Reading the directory tree from the image: scan_subsequent_entries (src/libfat12/io.c). */
module Scanning {
  import opened Bytes
  import opened Records
  import opened Errors
  import opened BiosParameterBlock
  import opened Fat
  import opened Disks
  import opened ChainIo
  import opened Trees
  import opened DirectoryEntries
  import DT = DirectoryTables

  /** `slot` lies in `parent` and holds the tree `t` in objects of its own. */
  ghost predicate Hangs(parent: DirectoryEntry, slot: DirectoryEntry, s: Shape, t: Tree)
    reads Objects(s)
  {
    s.self == slot && Rep(s, t) && Separate(s) && Parented(s) && slot.parent == parent
  }

  /** The first `|shapes|` slots hold their trees. */
  ghost predicate AllHang(parent: DirectoryEntry, slots: seq<DirectoryEntry>, shapes: seq<Shape>, kids: seq<Tree>)
    requires |shapes| <= |slots| == |kids|
    reads KidObjects(shapes)
  {
    forall j :: 0 <= j < |shapes| ==>
      assert Objects(shapes[j]) <= KidObjects(shapes);
      Hangs(parent, slots[j], shapes[j], kids[j])
  }

  /** The first `|shapes|` slots are scanned; the others are as allocated. */
  ghost predicate Scanned(parent: DirectoryEntry, slots: seq<DirectoryEntry>, shapes: seq<Shape>, kids: seq<Tree>)
    requires |shapes| <= |slots| == |kids|
    reads slots, KidObjects(shapes)
  {
    && AllHang(parent, slots, shapes, kids)
    && (forall j :: |shapes| <= j < |slots| ==> slots[j] !in KidObjects(shapes) && slots[j].children == [])
    && SeparateKids(shapes)
  }

  lemma ScannedStep(parent: DirectoryEntry, slots: seq<DirectoryEntry>, shapes: seq<Shape>, kids: seq<Tree>, s: Shape)
    requires |shapes| < |slots| == |kids| && Different(slots) && SeparateKids(shapes)
    requires AllHang(parent, slots, shapes, kids)
    requires forall j :: |shapes| < j < |slots| ==>
               slots[j] !in KidObjects(shapes) && slots[j] !in Objects(s) && slots[j].children == []
    requires Hangs(parent, slots[|shapes|], s, kids[|shapes|]) && Objects(s) !! KidObjects(shapes)
    ensures Scanned(parent, slots, shapes + [s], kids)
    ensures KidObjects(shapes + [s]) == KidObjects(shapes) + Objects(s)
  {
    KidObjectsAppend(shapes, s);
    SeparateAppend(shapes, s);
  }

  /** The image and the table that are read; scanning changes neither. */
  ghost predicate Reading(img: Image, p: Bpb, fat: array<U16>, b: seq<Byte>, f: Fat.Table)
    reads img, fat
  {
    img.contents == b && fat[..] == f && Mounted(p, b) && Indexable(f)
  }

  /** Fills the table of `parent` from its bytes. */
  method ScanTable(img: Image, p: Bpb, fat: array<U16>, marker: U16, parent: DirectoryEntry, table: seq<Byte>,
                   slots: seq<DirectoryEntry>, ghost b: seq<Byte>, ghost f: Fat.Table, ghost kids: seq<Tree>)
    returns (err: Error, ghost shapes: seq<Shape>)
    requires marker == END_OF_CHAIN && Reading(img, p, fat, b, f)
    requires |slots| == |kids| && Different(slots) && parent !in slots
    requires forall i :: 0 <= i < |slots| ==> slots[i].children == []
    requires DT.ReadsTable(Areas(p), View(Areas(p), b), f, table, kids)
    modifies slots, img`position
    ensures err == Success && |shapes| == |slots| && Scanned(parent, slots, shapes, kids)
    ensures (forall o :: o in KidObjects(shapes) && o !in slots ==> fresh(o)) && Reading(img, p, fat, b, f)
    decreases kids, 1
  {
    shapes := [];
    err := Success;
    for i := 0 to |slots|
      invariant |shapes| == i && Scanned(parent, slots, shapes, kids) && (forall o :: o in KidObjects(shapes) && o !in slots ==> fresh(o))
      invariant Reading(img, p, fat, b, f) && err == Success
    {
      err, shapes := ScanNext(img, p, fat, marker, parent, table, slots, i, b, f, kids, shapes);
    }
  }

  /** One turn of the loop above. */
  method ScanNext(img: Image, p: Bpb, fat: array<U16>, marker: U16, parent: DirectoryEntry, table: seq<Byte>,
                  slots: seq<DirectoryEntry>, i: nat, ghost b: seq<Byte>, ghost f: Fat.Table, ghost kids: seq<Tree>,
                  ghost before: seq<Shape>)
    returns (err: Error, ghost shapes: seq<Shape>)
    requires marker == END_OF_CHAIN && Reading(img, p, fat, b, f)
    requires i == |before| < |slots| == |kids| && Different(slots) && parent !in slots
    requires Scanned(parent, slots, before, kids)
    requires 32 * i + 32 <= |table| && kids[i].rec == DT.SlotRecord(table, i)
    requires DT.Reads(Areas(p), View(Areas(p), b), f, kids[i])
    modifies slots[i], img`position
    ensures err == Success && |shapes| == i + 1 && Scanned(parent, slots, shapes, kids)
    ensures (forall o :: o in KidObjects(shapes) ==> o in KidObjects(before) || o == slots[i] || fresh(o))
    ensures Reading(img, p, fat, b, f)
    decreases kids, 0
  {
    assert allocated(KidObjects(before));
    ghost var s: Shape;
    err, s := ScanBeside(img, p, fat, marker, parent, slots[i], table[32 * i..32 * i + 32], b, f, kids[i],
                         slots, before, kids);
    ScannedStep(parent, slots, before, kids, s);
    KidObjectsAppend(before, s);
    shapes := before + [s];
  }

  /** Reading a slot leaves the slots that were read before it alone. */
  method ScanBeside(img: Image, p: Bpb, fat: array<U16>, marker: U16, parent: DirectoryEntry, slot: DirectoryEntry,
                    data: seq<Byte>, ghost b: seq<Byte>, ghost f: Fat.Table, ghost t: Tree,
                    ghost slots: seq<DirectoryEntry>, ghost before: seq<Shape>, ghost kids: seq<Tree>)
    returns (err: Error, ghost s: Shape)
    requires marker == END_OF_CHAIN && Reading(img, p, fat, b, f) && slot.children == []
    requires |data| == 32 && DecodeRecord(data) == t.rec && slot != parent
    requires DT.Reads(Areas(p), View(Areas(p), b), f, t)
    requires |before| <= |slots| == |kids| && slot !in KidObjects(before)
    requires AllHang(parent, slots, before, kids)
    modifies slot, img`position
    ensures err == Success && Hangs(parent, slot, s, t) && (forall o :: o in Objects(s) && o != slot ==> fresh(o))
    ensures Reading(img, p, fat, b, f)
    ensures AllHang(parent, slots, before, kids)
    decreases t, 2
  {
    assert allocated(KidObjects(before));
    assert AllHang(parent, slots, before, kids);
    err, s := ScanSlot(img, p, fat, marker, parent, slot, data, b, f, t);
  }

  /** Reads one slot and the slots below it. */
  method ScanSlot(img: Image, p: Bpb, fat: array<U16>, marker: U16, parent: DirectoryEntry, slot: DirectoryEntry,
                  data: seq<Byte>, ghost b: seq<Byte>, ghost f: Fat.Table, ghost t: Tree)
    returns (err: Error, ghost s: Shape)
    requires marker == END_OF_CHAIN && Reading(img, p, fat, b, f) && slot.children == []
    requires |data| == 32 && DecodeRecord(data) == t.rec && slot != parent
    requires DT.Reads(Areas(p), View(Areas(p), b), f, t)
    modifies slot, img`position
    ensures err == Success && Hangs(parent, slot, s, t) && (forall o :: o in Objects(s) && o != slot ==> fresh(o)) && Reading(img, p, fat, b, f)
    decreases t, 1
  {
    slot.rec := DecodeRecord(data);
    slot.parent := parent;
    err, s := ScanSubsequentEntries(img, p, fat, marker, slot, b, f, t);
  }

  /** The bytes of a directory's table and a zeroed slot for each record. */
  method LoadTable(img: Image, p: Bpb, fat: array<U16>, marker: U16, first: U16,
                   ghost b: seq<Byte>, ghost f: Fat.Table, ghost t: Tree)
    returns (table: seq<Byte>, slots: seq<DirectoryEntry>)
    requires marker == END_OF_CHAIN && Reading(img, p, fat, b, f) && Descends(t.rec) && first == t.rec.firstCluster
    requires DT.Reads(Areas(p), View(Areas(p), b), f, t)
    modifies img`position
    ensures Reading(img, p, fat, b, f) && DT.ReadsTable(Areas(p), View(Areas(p), b), f, table, t.kids)
    ensures |slots| == |t.kids| && Different(slots) && forall i :: 0 <= i < |slots| ==> fresh(slots[i]) && slots[i].children == []
  {
    var size := ChainSize(p, fat, marker, first);
    table := LoadClusterChain(img, p, fat, marker, first);
    slots := NewSlots(size / 32);
  }

  /** A directory whose slots were all scanned holds its tree. */
  lemma ScannedWhole(dir: DirectoryEntry, shapes: seq<Shape>, t: Tree)
    requires |dir.children| == |shapes| == |t.kids| && Scanned(dir, dir.children, shapes, t.kids)
    requires dir.rec == t.rec && dir !in KidObjects(shapes)
    ensures var s := Shape(dir, shapes); Rep(s, t) && Separate(s) && Parented(s) && Objects(s) == {dir} + KidObjects(shapes)
  {
  }

  /**
   scan_subsequent_entries. A tree that the image holds is what guarantees that the recursion ends; the
   children pointers that dot entries share with other directories are left out.
   */
  method ScanSubsequentEntries(img: Image, p: Bpb, fat: array<U16>, marker: U16, dir: DirectoryEntry,
                               ghost b: seq<Byte>, ghost f: Fat.Table, ghost t: Tree)
    returns (err: Error, ghost s: Shape)
    requires marker == END_OF_CHAIN && Reading(img, p, fat, b, f)
    requires dir.rec == t.rec && dir.children == []
    requires DT.Reads(Areas(p), View(Areas(p), b), f, t)
    modifies dir`children, img`position
    ensures err == Success && s.self == dir && Rep(s, t) && Separate(s) && Parented(s)
    ensures (forall o :: o in Objects(s) && o != dir ==> fresh(o)) && Reading(img, p, fat, b, f)
    decreases t, 0
  {
    s := Shape(dir, []);
    if !Used(dir.rec) || !IsDirectory(dir.rec) || IsDotDir(dir.rec) {
      return Success, s;
    }
    var table, slots := LoadTable(img, p, fat, marker, dir.rec.firstCluster, b, f, t);
    dir.children := slots;
    ghost var shapes;
    err, shapes := ScanTable(img, p, fat, marker, dir, table, slots, b, f, t.kids);
    ScannedWhole(dir, shapes, t);
    s := Shape(dir, shapes);
  }
}
