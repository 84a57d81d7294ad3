/** Sound volumes on which the allocator leaves the data area, and on which a move hides an entry. */
module Witnesses {
  import opened Bytes
  import opened Records
  import opened Options
  import opened BiosParameterBlock
  import opened Fat
  import opened Disks
  import opened Trees
  import opened Volumes
  import opened Creation
  import opened Files
  import opened Moves
  import opened SmallVolumes

  // ----- a full data area -----

  /** The table of a volume with one root entry whose 25 data clusters are taken. */
  function FullTable(): Fat.Table {
    [0xff0] + seq(26, i => END_OF_CHAIN) + Zeros(5)
  }

  lemma FullEntries(fat: Fat.Table)
    requires fat == FullTable()
    ensures |fat| == 32 && fat[0] == 0xff0 && (forall c :: 1 <= c < 27 ==> fat[c] == END_OF_CHAIN)
    ensures forall c :: 27 <= c < 32 ==> fat[c] == 0
  {
  }

  lemma FullHasNoRoom(fat: Fat.Table)
    requires fat == FullTable()
    ensures SmallFits(fat) && Indexable(fat) && FreeUpTo(fat, 27) == [] && 27 in FreeClusters(fat)
  {
    hide FullTable;
    FullEntries(fat);
    NoneFree(fat, 27);
    FreeUpToComplete(fat, 32, 27);
  }

  lemma {:induction false} NoneFree(fat: Fat.Table, n: nat)
    requires n <= |fat| && forall c :: 2 <= c < n ==> fat[c] != 0
    ensures FreeUpTo(fat, n) == []
  {
    if n > 2 {
      NoneFree(fat, n - 1);
    }
  }

  lemma FullIsSound(v: Volume)
    requires v == Volume(SmallBpb(1), FullTable(), Node(ROOT_RECORD, [FREE]))
    ensures VolumeSound(v) && Areas(v.bpb) == SmallAreas(1)
  {
    FullHasNoRoom(v.fat);
    FreeSound(SmallAreas(1), v.fat);
    SlotsSound(SmallAreas(1), v.fat, v.root.kids);
    SmallSound(v, 1);
  }

  /** A sound volume for which a request for one cluster is answered with one behind the data area. */
  lemma AllocateBeyond() returns (v: Volume)
    ensures VolumeSound(v) && !ServedInData(v, 1)
    ensures var (first, after) := Allocate(v.fat, 1);
            first != 0 && HasChain(after, first) && !ChainInData(v, ChainOf(after, first))
  {
    v := Volume(SmallBpb(1), FullTable(), Node(ROOT_RECORD, [FREE]));
    FullHasNoRoom(v.fat);
    FullIsSound(v);
    AllocateFails(v.fat, 1);
    ServedIffInData(v, 1);
  }

  // ----- two entries of one name -----

  function SmallFile(size: U32): Tree {
    Node(EMPTY.(name := OTHER_NAME, fileSize := size), [])
  }

  /** The root directory with a file, a directory that holds another file of that name, and a free slot, in some order. */
  ghost predicate Clashing(v: Volume, dir: nat, file: nat, free: nat) {
    && v.bpb == SmallBpb(3) && v.fat == SmallTable() && v.root.rec == ROOT_RECORD && |v.root.kids| == 3
    && dir < 3 && file < 3 && free < 3 && dir != file && dir != free && file != free
    && v.root.kids[dir] == SmallDirectory(SmallFile(2)) && v.root.kids[file] == SmallFile(1)
    && v.root.kids[free] == FREE
  }

  lemma SmallFileSound(g: Geometry, fat: Fat.Table, size: U32)
    ensures SlotSound(g, fat, SmallFile(size)) && TreeClusters(fat, SmallFile(size)) == {}
  {
  }

  lemma ClashingIsSound(v: Volume, dir: nat, file: nat, free: nat)
    requires Clashing(v, dir, file, free)
    ensures VolumeSound(v)
  {
    var g := SmallAreas(3);
    FreeSound(g, v.fat);
    SmallFileSound(g, v.fat, 1);
    SmallFileSound(g, v.fat, 2);
    SmallDirectorySound(3, SmallFile(2));
    SlotsSound(g, v.fat, v.root.kids);
    SmallTableFits();
    SmallSound(v, 3);
  }

  lemma ClashingFile(t: Tree, file: nat)
    requires file < |t.kids| && t.kids[file].rec.name == OTHER_NAME
    requires forall i :: 0 <= i < |t.kids| && i != file ==> t.kids[i].rec.name != OTHER_NAME
    ensures FindFrom(t.kids, OTHER_NAME, 0) == file && Lookup(t, [OTHER_NAME]) == Some([file])
  {
    FindIsFirst(t.kids, OTHER_NAME, file);
    assert [OTHER_NAME][1..] == [] && [file] + [] == [file];
  }

  lemma ClashingSource(t: Tree, dir: nat)
    requires dir < |t.kids| && t.kids[dir] == SmallDirectory(SmallFile(2))
    requires forall i :: 0 <= i < |t.kids| && i != dir ==> t.kids[i].rec.name != SMALL_NAME
    ensures Lookup(t, [SMALL_NAME, OTHER_NAME]) == Some([dir, 0]) && At(t, [dir, 0]) == SmallFile(2)
  {
    FindIsFirst(t.kids, SMALL_NAME, dir);
    assert [SMALL_NAME, OTHER_NAME][1..] == [OTHER_NAME] && [OTHER_NAME][1..] == [];
    assert [0] + [] == [0] && [dir] + [0] == [dir, 0];
    assert Lookup(t.kids[dir], [OTHER_NAME]) == Some([0]);
    assert [dir, 0][1..] == [0] && [0][1..] == [];
  }

  lemma ClashingLookups(v: Volume, dir: nat, file: nat, free: nat)
    requires Clashing(v, dir, file, free)
    ensures Lookup(v.root, [OTHER_NAME]) == Some([file]) && Lookup(v.root, [SMALL_NAME, OTHER_NAME]) == Some([dir, 0])
    ensures At(v.root, [dir, 0]) == SmallFile(2) && Slot(v.root, []) == free
  {
    ClashingFile(v.root, file);
    ClashingSource(v.root, dir);
  }

  lemma ClashingMoves(v: Volume, dir: nat, file: nat, free: nat)
    requires Clashing(v, dir, file, free)
    ensures MoveReady(v.root, [SMALL_NAME, OTHER_NAME], []) && WillMove(v.root, [SMALL_NAME, OTHER_NAME], [], false)
  {
    ClashingLookups(v, dir, file, free);
  }

  /** The slots of the root directory when the file is removed from the other directory. */
  lemma ClashingAfter(v: Volume, dir: nat, file: nat, free: nat)
    requires Clashing(v, dir, file, free) && Valid(v.root, [dir, 0])
    ensures FindFrom(Put(v.root, [dir, 0], FREE).kids, OTHER_NAME, 0) == file
  {
    var t := v.root;
    assert [dir, 0][1..] == [0];
    var kids := Put(t, [dir, 0], FREE).kids;
    assert kids == t.kids[dir := Put(t.kids[dir], [0], FREE)];
    FindIsFirst(kids, OTHER_NAME, file);
  }

  /**
   Moving the file to the root directory: whichever of the two entries is in the earlier slot is found under the name
   afterwards. So the moved file is hidden where the free slot comes last, and hides the other where it comes first.
   */
  lemma NameClash(v: Volume, dir: nat, file: nat, free: nat)
    requires Clashing(v, dir, file, free)
    ensures VolumeSound(v) && WillMove(v.root, [SMALL_NAME, OTHER_NAME], [], false)
    ensures Lookup(v.root, [OTHER_NAME]) == Some([file]) && MoveReady(v.root, [SMALL_NAME, OTHER_NAME], [])
    ensures Lookup(MovedPath(v.root, [SMALL_NAME, OTHER_NAME], []), [OTHER_NAME]) ==
            Some([if file < free then file else free])
  {
    hide VolumeSound, Clashing, MoveReady, WillMove;
    ClashingIsSound(v, dir, file, free);
    ClashingLookups(v, dir, file, free);
    ClashingMoves(v, dir, file, free);
    ClashingAfter(v, dir, file, free);
    MovedToRoot(v.root, [SMALL_NAME, OTHER_NAME], dir, file);
  }

  lemma MovedToRoot(t: Tree, p: Path, dir: nat, file: nat)
    requires MoveReady(t, p, []) && |p| == 2 && Lookup(t, p) == Some([dir, 0])
    requires FindFrom(Put(t, [dir, 0], FREE).kids, p[1], 0) == file
    ensures Lookup(MovedPath(t, p, []), [p[1]]) == Some([if file < Slot(t, []) then file else Slot(t, [])])
  {
    MovedName(t, p, []);
    assert [] + [p[1]] == [p[1]] && At(Put(t, [dir, 0], FREE), []) == Put(t, [dir, 0], FREE);
    assert forall i: nat :: [] + [i] == [i];
  }

  /** Both orders exist. */
  lemma BothClashes() returns (hidden: Volume, hiding: Volume)
    ensures Clashing(hidden, 1, 0, 2) && Clashing(hiding, 2, 1, 0)
  {
    var d, f := SmallDirectory(SmallFile(2)), SmallFile(1);
    hidden := Volume(SmallBpb(3), SmallTable(), Node(ROOT_RECORD, [f, d, FREE]));
    hiding := Volume(SmallBpb(3), SmallTable(), Node(ROOT_RECORD, [FREE, f, d]));
  }
}
