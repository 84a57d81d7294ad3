/** Small sound volumes that show what can happen: 30 sectors of 32 bytes. */
module SmallVolumes {
  import opened Bytes
  import opened Records
  import opened BiosParameterBlock
  import opened Fat
  import opened Disks
  import opened Trees
  import opened Volumes
  import M = Multiplication

  const SMALL_NAME: ShortName := [0x41, SPACE, SPACE, SPACE, SPACE, SPACE, SPACE, SPACE, SPACE, SPACE, SPACE]
  const OTHER_NAME: ShortName := [0x42, SPACE, SPACE, SPACE, SPACE, SPACE, SPACE, SPACE, SPACE, SPACE, SPACE]

  /** One sector per cluster, two before the table, one table of two sectors, `n` root entries, one to a sector. */
  function SmallBpb(n: U16): Bpb {
    Bpb(Zeros(8), 32, 1, 2, 1, n, 30, 0xf0, 2, 1, 1, 0, 30, 0, 0, 0, 0, Zeros(11), Zeros(8))
  }

  function SmallAreas(n: U16): Geometry
    requires n < 16
  {
    Geometry(64, 128, 128 + 32 * n, 32, 26 - n)
  }

  lemma SmallSizes(n: U16)
    ensures var p := SmallBpb(n);
            && ClusterSize(p) == 32 && FatOffset(p) == 64 && FatSize(p) == 64 && RootDirOffset(p) == 128
            && FatEntries(p) == 30 && ImageSize(p) == 960
  {
    SizesAreProducts(SmallBpb(n));
    RootOffsetIsProduct(SmallBpb(n));
    EntriesAreQuotient(SmallBpb(n));
  }

  lemma SmallRoot(n: nat)
    requires n < 16
    ensures 32 * n % 32 == 0 && M.Quotient(832 - 32 * n, 32) == 26 - n
  {
    M.QuotientIsDivision(832 - 32 * n, 32);
  }

  lemma SoundFromSizes(p: Bpb, n: nat)
    requires 1 <= n < 16 && p.sectorSize == 32 && p.sectorsPerCluster == 1 && p.numberOfFats == 1 && p.rootDirEntries == n
    requires ClusterSize(p) == 32 && FatOffset(p) == 64 && FatSize(p) == 64 && RootDirOffset(p) == 128
    requires FatEntries(p) == 30 && ImageSize(p) == 960
    ensures Sound(p) && Areas(p) == SmallAreas(n)
  {
    SmallRoot(n);
    assert DataStart(p) == 128 + 32 * n;
    assert DataClusters(p) == 26 - n;
  }

  lemma SmallIsSound(n: U16)
    requires 1 <= n < 16
    ensures Sound(SmallBpb(n)) && Areas(SmallBpb(n)) == SmallAreas(n)
  {
    SmallSizes(n);
    SoundFromSizes(SmallBpb(n), n);
  }

  /** The first three entries are taken, the third by a chain of one cluster. */
  function SmallTable(): Fat.Table {
    [0xff0, END_OF_CHAIN, END_OF_CHAIN] + Zeros(29)
  }

  /** A directory with a chain of one cluster, so with one slot. */
  function SmallDirectory(kid: Tree): Tree {
    Node(EMPTY.(name := SMALL_NAME, attributes := SUBDIRECTORY, firstCluster := 2), [kid])
  }

  lemma SmallChain()
    ensures HasChain(SmallTable(), 2) && ChainOf(SmallTable(), 2) == [2] && Indexable(SmallTable())
  {
    assert IsChain(SmallTable(), [2]);
    ChainOfIs(SmallTable(), [2]);
  }

  lemma SmallDirectorySound(n: U16, kid: Tree)
    requires n < 16 && SlotSound(SmallAreas(n), SmallTable(), kid) && TreeClusters(SmallTable(), kid) == {}
    ensures SlotSound(SmallAreas(n), SmallTable(), SmallDirectory(kid))
  {
    SmallChain();
    assert Span(1, 32) == 32;
    assert DOT_NAME[0] == DOT && DOT_DOT_NAME[0] == DOT;
    assert KidClusters(SmallTable(), [kid]) == {};
  }

  /** A table for such a volume. */
  ghost predicate SmallFits(fat: Fat.Table) {
    |fat| == 32 && TwelveBit(fat) && fat[1] == END_OF_CHAIN && fat[30] == 0 && fat[31] == 0
  }

  lemma SmallFitsTable(p: Bpb, fat: Fat.Table)
    requires 0 < p.sectorsPerCluster && FatEntries(p) == 30 && SmallFits(fat)
    ensures TableSound(p, fat)
  {
  }

  /** At most one of the slots refers to clusters. */
  lemma SlotsSound(g: Geometry, fat: Fat.Table, kids: seq<Tree>)
    requires forall i :: 0 <= i < |kids| ==> SlotSound(g, fat, kids[i])
    requires forall i, j :: 0 <= i < j < |kids| ==> TreeClusters(fat, kids[i]) == {} || TreeClusters(fat, kids[j]) == {}
    ensures DirSound(g, fat, kids)
  {
  }

  lemma SmallSound(v: Volume, n: U16)
    requires 1 <= n < 16 && v.bpb == SmallBpb(n) && SmallFits(v.fat) && v.root.rec == ROOT_RECORD && |v.root.kids| == n
    requires DirSound(SmallAreas(n), v.fat, v.root.kids)
    ensures VolumeSound(v) && Areas(v.bpb) == SmallAreas(n)
  {
    SmallSizes(n);
    SmallIsSound(n);
    SmallFitsTable(v.bpb, v.fat);
  }

  lemma SmallTableFits()
    ensures SmallFits(SmallTable())
  {
  }
}
