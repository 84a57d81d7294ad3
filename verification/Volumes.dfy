/** The metadata of a partition as a value, and the image that stores it. */
module Volumes {
  import opened Bytes
  import opened Records
  import opened BiosParameterBlock
  import opened Fat
  import opened FatPacking
  import opened Disks
  import opened Trees
  import DT = DirectoryTables

  /** struct lf12_metadata */
  datatype Volume = Volume(bpb: Bpb, fat: Fat.Table, root: Tree)

  /** The record that lf12_create_root_dir_meta gives the root directory. */
  const ROOT_RECORD: Record := Record([SPACE, SPACE, SPACE, SPACE, SPACE, SPACE, SPACE, SPACE, SPACE, SPACE, SPACE],
                                      SUBDIRECTORY, 0, 0, 0, 0, 0, 0, 0, 0, 0, 0)

  /** A table of 12-bit entries whose last two entries, which are not kept on the image, are free. */
  ghost predicate TableSound(p: Bpb, fat: Fat.Table)
    requires 0 < p.sectorsPerCluster
  {
    && |fat| == FatEntries(p) + 2 <= END_OF_CHAIN && 2 <= FatEntries(p) && TwelveBit(fat)
    && fat[1] == END_OF_CHAIN && fat[FatEntries(p)] == 0 && fat[FatEntries(p) + 1] == 0
  }

  ghost predicate VolumeSound(v: Volume) {
    && Sound(v.bpb) && TableSound(v.bpb, v.fat)
    && v.root.rec == ROOT_RECORD && |v.root.kids| == v.bpb.rootDirEntries
    && DirSound(Areas(v.bpb), v.fat, v.root.kids)
  }

  // ----- writing -----

  ghost function Copies(f: seq<Byte>, n: nat): (r: seq<Byte>)
    ensures |r| == Span(n, |f|)
  {
    if n == 0 then [] else Copies(f, n - 1) + f
  }

  /** The bytes of one FAT. */
  ghost function FatBytes(v: Volume): (r: seq<Byte>)
    requires Sound(v.bpb) && TableSound(v.bpb, v.fat)
    ensures |r| == FatSize(v.bpb)
  {
    Packed(v.fat, FatEntries(v.bpb), FatSize(v.bpb))
  }

  /** write_bpb and write_fats */
  ghost function WriteSystem(d: Disk, v: Volume): (r: Disk)
    requires Sound(v.bpb) && TableSound(v.bpb, v.fat) && Fits(Areas(v.bpb), d)
    ensures Fits(Areas(v.bpb), r) && r.clusters == d.clusters
  {
    FatAreaSize(v.bpb);
    SpanIsProduct(v.bpb.numberOfFats, FatSize(v.bpb));
    d.(boot := Splice(d.boot, BPB_OFFSET, EncodeBpb(v.bpb)), fats := Copies(FatBytes(v), v.bpb.numberOfFats))
  }

  /** lf12_write_metadata */
  ghost function WriteMetadata(d: Disk, v: Volume): (r: Disk)
    requires VolumeSound(v) && Fits(Areas(v.bpb), d)
    ensures Fits(Areas(v.bpb), r)
  {
    DT.WriteKids(Areas(v.bpb), WriteSystem(d, v), v.fat, v.root.kids, |v.root.kids|)
    .(root := DT.TableBytes(v.root.kids, RootDirSize(v.bpb)))
  }

  // ----- reading -----

  /** `v` is what lf12_read_metadata builds from the disk. */
  ghost predicate ReadsVolume(d: Disk, v: Volume) {
    && Sound(v.bpb) && Fits(Areas(v.bpb), d)
    && DecodeBpb(d.boot[BPB_OFFSET..BPB_OFFSET + BPB_SIZE]) == v.bpb
    && TableSound(v.bpb, v.fat) && ReadsTableEntries(d.fats, v.fat, FatEntries(v.bpb))
    && v.root.rec == ROOT_RECORD && |v.root.kids| == v.bpb.rootDirEntries
    && DT.ReadsTable(Areas(v.bpb), d, v.fat, d.root, v.root.kids)
  }

  ghost predicate ReadsTableEntries(fats: seq<Byte>, fat: Fat.Table, n: nat) {
    && n <= |fat|
    && forall i :: 0 <= i < n ==> EntryOffset(i) + 2 <= |fats| && fat[i] == ReadFatEntry(fats, i)
  }

  /** The volume after writing and reading. */
  ghost function FilledVolume(v: Volume): Volume
    requires Sound(v.bpb)
  {
    v.(root := v.root.(kids := DT.FilledKids(Areas(v.bpb), v.fat, v.root.kids, |v.root.kids|)))
  }

  // ----- the metadata round trip -----

  lemma {:induction false} FirstCopy(f: seq<Byte>, n: nat)
    requires 0 < n
    ensures f <= Copies(f, n)
  {
    if n > 1 {
      FirstCopy(f, n - 1);
    }
  }

  /** One entry of the first copy. */
  lemma EntryIsRead(fat: Fat.Table, n: nat, f: seq<Byte>, fats: seq<Byte>, i: nat)
    requires i < n <= |fat| && TwelveBit(fat) && (3 * n + 1) / 2 <= |f| && f == Packed(fat, n, |f|) && f <= fats
    ensures EntryOffset(i) + 2 <= |fats| && fat[i] == ReadFatEntry(fats, i)
  {
    PackingRoundTrip(fat, n, |f|, i);
    assert fats[EntryOffset(i)] == f[EntryOffset(i)] && fats[EntryOffset(i) + 1] == f[EntryOffset(i) + 1];
  }

  lemma FatIsRead(v: Volume)
    requires Sound(v.bpb) && TableSound(v.bpb, v.fat)
    ensures ReadsTableEntries(Copies(FatBytes(v), v.bpb.numberOfFats), v.fat, FatEntries(v.bpb))
  {
    var f, fats, n := FatBytes(v), Copies(FatBytes(v), v.bpb.numberOfFats), FatEntries(v.bpb);
    FirstCopy(f, v.bpb.numberOfFats);
    forall i | 0 <= i < n ensures EntryOffset(i) + 2 <= |fats| && v.fat[i] == ReadFatEntry(fats, i) {
      EntryIsRead(v.fat, n, f, fats, i);
    }
  }

  lemma BpbIsRead(boot: seq<Byte>, p: Bpb)
    requires BPB_OFFSET + BPB_SIZE <= |boot|
    ensures DecodeBpb(Splice(boot, BPB_OFFSET, EncodeBpb(p))[BPB_OFFSET..BPB_OFFSET + BPB_SIZE]) == p
  {
    BpbRoundTrip(p);
  }

  lemma RootIsRead(g: Geometry, d: Disk, fat: Fat.Table, kids: seq<Tree>, size: nat)
    requires Fits(g, d) && DirSound(g, fat, kids) && size == 32 * |kids| == |d.root|
    ensures var bytes := DT.TableBytes(kids, size);
            var r := DT.WriteKids(g, d, fat, kids, |kids|).(root := bytes);
            Fits(g, r) && DT.ReadsTable(g, r, fat, bytes, DT.FilledKids(g, fat, kids, |kids|))
  {
    var bytes, written := DT.TableBytes(kids, size), DT.WriteKids(g, d, fat, kids, |kids|);
    var r, filled := written.(root := bytes), DT.FilledKids(g, fat, kids, |kids|);
    forall i | 0 <= i < |kids| ensures filled[i].rec == DT.SlotRecord(bytes, i) && DT.Reads(g, r, fat, filled[i]) {
      DT.TableRoundTrip(kids, size, i);
      DT.WriteKidsReads(g, d, fat, kids, |kids|, i);
      DT.ReadsFrame(g, written, r, fat, filled[i]);
    }
  }

  /** Reading back what lf12_write_metadata wrote gives the same metadata, with directories filled up. */
  lemma MetadataRoundTrip(d: Disk, v: Volume)
    requires VolumeSound(v) && Fits(Areas(v.bpb), d)
    ensures ReadsVolume(WriteMetadata(d, v), FilledVolume(v))
  {
    FatIsRead(v);
    BpbIsRead(d.boot, v.bpb);
    RootIsRead(Areas(v.bpb), WriteSystem(d, v), v.fat, v.root.kids, RootDirSize(v.bpb));
  }

  /** A disk determines the metadata that is read from it. */
  lemma ReadsVolumeIsUnique(d: Disk, v: Volume, w: Volume)
    requires ReadsVolume(d, v) && ReadsVolume(d, w)
    ensures v == w
  {
    assert v.bpb == w.bpb;
    SameEntries(v, w);
    forall i | 0 <= i < |v.root.kids| ensures v.root.kids[i] == w.root.kids[i] {
      DT.ReadsIsUnique(Areas(v.bpb), d, v.fat, v.root.kids[i], w.root.kids[i]);
    }
    assert v.root.kids == w.root.kids;
  }

  lemma SameEntries(v: Volume, w: Volume)
    requires Sound(v.bpb) && v.bpb == w.bpb && TableSound(v.bpb, v.fat) && TableSound(w.bpb, w.fat)
    requires forall i :: 0 <= i < FatEntries(v.bpb) ==> v.fat[i] == w.fat[i]
    ensures v.fat == w.fat
  {
    forall i | 0 <= i < |v.fat| ensures v.fat[i] == w.fat[i] {
      assert i < FatEntries(v.bpb) || i == FatEntries(v.bpb) || i == FatEntries(v.bpb) + 1;
    }
  }
}
