/** Whole runs of commands on an image: what every reachable image keeps, and what its files hold. */
module Runs {
  import opened Bytes
  import opened Records
  import opened Options
  import opened Errors
  import opened BiosParameterBlock
  import opened Fat
  import opened Disks
  import opened ChainIo
  import opened Trees
  import opened Volumes
  import opened Creation
  import opened Lookups
  import opened Files
  import opened Contents
  import opened Putting
  import opened Moves
  import opened Deletion
  import opened Tidiness
  import opened MetadataIo
  import DT = DirectoryTables

  // ----- what is read back is sound -----

  lemma {:induction false} FilledSlotSound(g: Geometry, fat: Fat.Table, t: Tree)
    requires SlotSound(g, fat, t)
    ensures SlotSound(g, fat, DT.Filled(g, fat, t)) && TreeClusters(fat, DT.Filled(g, fat, t)) == TreeClusters(fat, t)
    decreases t, 1
  {
    if Descends(t.rec) {
      var n := DT.Capacity(g, fat, t.rec.firstCluster);
      FilledDirSound(g, fat, t.kids, n);
    } else {
      assert t.kids == [];
    }
  }

  lemma {:induction false} FilledDirSound(g: Geometry, fat: Fat.Table, kids: seq<Tree>, n: nat)
    requires DirSound(g, fat, kids) && |kids| <= n
    ensures DirSound(g, fat, DT.FilledKids(g, fat, kids, n))
    ensures KidClusters(fat, DT.FilledKids(g, fat, kids, n)) == KidClusters(fat, kids)
    decreases kids, 0
  {
    var filled := DT.FilledKids(g, fat, kids, n);
    FreeSound(g, fat);
    forall i | 0 <= i < n
      ensures SlotSound(g, fat, filled[i])
      ensures TreeClusters(fat, filled[i]) == if i < |kids| then TreeClusters(fat, kids[i]) else {}
    {
      if i < |kids| {
        FilledSlotSound(g, fat, kids[i]);
      }
    }
  }

  /** Metadata that were written and read back are sound. */
  lemma FilledVolumeSound(v: Volume)
    requires VolumeSound(v)
    ensures VolumeSound(FilledVolume(v))
  {
    FilledDirSound(Areas(v.bpb), v.fat, v.root.kids, |v.root.kids|);
  }

  // ----- commands -----

  datatype Command =
    | PutFile(path: Path, src: seq<Byte>, stamp: Stamp)
    | MakeDirectories(path: Path)
    | MoveTo(source: Path, dest: Path, recursive: bool)
    | DeleteAll(path: Path, recursive: bool, soft: bool)

  /**
   What a command needs to leave a readable image: parsed paths, no chain from behind the data area, and no file in
   place of a directory.
   */
  ghost predicate Allowed(v: Volume, c: Command)
    requires VolumeSound(v)
  {
    match c
    case PutFile(path, src, stamp) => PutServed(v, path, src)
    case MakeDirectories(path) => MakeServed(v, path)
    case MoveTo(source, dest, recursive) => Plain(source) && Plain(dest)
    case DeleteAll(path, recursive, soft) => Plain(path)
  }

  ghost predicate MakeServed(v: Volume, path: Path)
    requires VolumeSound(v)
  {
    Plain(path) && ServedInData(v, Span(Missing(v.root, path), TableClusters(ClusterSize(v.bpb))))
  }

  ghost function Made(v: Volume, path: Path): (Error, Fat.Table, Tree)
    requires VolumeSound(v)
  {
    VolumeFacts(v);
    MakeDirs(ClusterSize(v.bpb), v.fat, v.root, path)
  }

  /** The removal of a hard or soft deletion. */
  ghost function RemovalAt(v: Volume, path: Path, soft: bool): Removal<Tree>
    requires Lookup(v.root, path).Some?
  {
    RemoveTree(v.fat, soft, At(v.root, Lookup(v.root, path).value))
  }

  /** The deletion gets as far as removing something. */
  ghost predicate Removes(v: Volume, path: Path, recursive: bool, soft: bool) {
    WillDelete(v.root, path, recursive) && RemovalAt(v, path, soft).removed > 0
  }

  /** The metadata in memory when the command writes them; None if it exits without writing them. */
  ghost function Changed(d: Disk, v: Volume, c: Command): Option<Volume>
    requires VolumeSound(v) && Fits(Areas(v.bpb), d) && Allowed(v, c)
  {
    match c
    case PutFile(path, src, stamp) =>
      var (e, d', v') := CreateFile(d, v, path, src, stamp);
      if e == Success then Some(v') else None
    case MakeDirectories(path) =>
      var (e, fat', t) := Made(v, path);
      if e == Success then Some(v.(fat := fat', root := t)) else None
    case MoveTo(source, dest, recursive) =>
      if WillMove(v.root, source, dest, recursive) then Some(MovedTo(v, source, dest, recursive)) else None
    case DeleteAll(path, recursive, soft) =>
      if Removes(v, path, recursive, soft) then
        PlainIsTarget(v, path);
        Some(DeletedFrom(v, Lookup(v.root, path).value, soft))
      else None
  }

  lemma MadeSound(v: Volume, path: Path)
    requires VolumeSound(v) && MakeServed(v, path) && Made(v, path).0 == Success
    ensures var (e, fat', t) := Made(v, path); VolumeSound(v.(fat := fat', root := t)) && Extends(v.fat, fat')
  {
    VolumeFacts(v);
    MakeDirsUses(ClusterSize(v.bpb), v.fat, v.root, path);
    MakeDirsSound(Areas(v.bpb), v.fat, v.root, path);
    MakeDirsKeptOutside(Areas(v.bpb), v.fat, v.root, path);
    TableStaysSound(v, v.fat, Made(v, path).1);
  }

  lemma PutSound(d: Disk, v: Volume, path: Path, src: seq<Byte>, stamp: Stamp)
    requires PutServed(v, path, src) && Fits(Areas(v.bpb), d) && CreateFile(d, v, path, src, stamp).0 == Success
    ensures var (e, d', v') := CreateFile(d, v, path, src, stamp);
            && VolumeSound(v') && v'.bpb == v.bpb && Extends(v.fat, v'.fat) && Fits(Areas(v.bpb), d')
            && Putable(v, path, src) && src != [] && Created(d, v, path, src, stamp, d', v')
  {
    var (e, d', v') := CreateFile(d, v, path, src, stamp);
    ServedPutSucceeds(d, v, path, src, stamp);
    CreateFileSucceeds(d, v, path, src, stamp);
    CreatedSound(d, v, path, src, stamp, d', v');
  }

  /** Written metadata are sound, and no table entry in use has changed. */
  lemma ChangedSound(d: Disk, v: Volume, c: Command)
    requires VolumeSound(v) && Fits(Areas(v.bpb), d) && Allowed(v, c) && Changed(d, v, c).Some?
    ensures var v' := Changed(d, v, c).value; VolumeSound(v') && v'.bpb == v.bpb && Extends(v.fat, v'.fat)
  {
    match c {
      case PutFile(path, src, stamp) =>
        PutSound(d, v, path, src, stamp);
      case MakeDirectories(path) =>
        MadeSound(v, path);
      case MoveTo(source, dest, recursive) =>
      case DeleteAll(path, recursive, soft) =>
    }
  }

  /** The disk before the metadata are written: a put has stored the data, a deletion has erased clusters. */
  ghost function BeforeWrite(d: Disk, v: Volume, c: Command): (r: Disk)
    requires VolumeSound(v) && Fits(Areas(v.bpb), d) && Allowed(v, c)
    ensures Fits(Areas(v.bpb), r)
  {
    match c
    case PutFile(path, src, stamp) =>
      PutDiskFits(d, v, path, src, stamp);
      CreateFile(d, v, path, src, stamp).1
    case MakeDirectories(path) => d
    case MoveTo(source, dest, recursive) => d
    case DeleteAll(path, recursive, soft) =>
      if Removes(v, path, recursive, soft) then
        EraseSetFits(Areas(v.bpb), d, RemovalAt(v, path, soft).erased);
        EraseSet(d, RemovalAt(v, path, soft).erased, ClusterSize(v.bpb))
      else d
  }

  lemma PutDiskFits(d: Disk, v: Volume, path: Path, src: seq<Byte>, stamp: Stamp)
    requires VolumeSound(v) && Fits(Areas(v.bpb), d) && path != []
    requires ServedInData(v, FileClusters(|src|, ClusterSize(v.bpb)))
    ensures Fits(Areas(v.bpb), CreateFile(d, v, path, src, stamp).1)
  {
    FailedDisk(d, v, path, src, stamp, {});
  }

  /** The disk after a command, and the metadata that are read from it then. */
  ghost function Outcome(d: Disk, v: Volume, c: Command): (r: (Disk, Volume))
    requires VolumeSound(v) && Fits(Areas(v.bpb), d) && Allowed(v, c)
    ensures VolumeSound(r.1) && r.1.bpb == v.bpb && Fits(Areas(v.bpb), r.0)
  {
    match Changed(d, v, c)
    case None => (BeforeWrite(d, v, c), v)
    case Some(v') =>
      ChangedSound(d, v, c);
      FilledVolumeSound(v');
      (WriteMetadata(BeforeWrite(d, v, c), v'), FilledVolume(v'))
  }

  /** What every command keeps: the image reads as sound metadata, and no table entry in use changes. */
  lemma CommandKeeps(d: Disk, v: Volume, c: Command)
    requires VolumeSound(v) && ReadsVolume(d, v) && Allowed(v, c)
    ensures var (d', v') := Outcome(d, v, c);
            VolumeSound(v') && ReadsVolume(d', v') && v'.bpb == v.bpb && Extends(v.fat, v'.fat)
  {
    match Changed(d, v, c) {
      case Some(v') =>
        ChangedSound(d, v, c);
        MetadataRoundTrip(BeforeWrite(d, v, c), v');
      case None =>
        UnchangedCommand(d, v, c, []);
    }
  }

  /** A command that writes no metadata cannot be seen on the image. */
  lemma UnchangedCommand(d: Disk, v: Volume, c: Command, r: Path)
    requires VolumeSound(v) && ReadsVolume(d, v) && Allowed(v, c) && Changed(d, v, c).None?
    ensures ReadsVolume(BeforeWrite(d, v, c), v) && FileContent(BeforeWrite(d, v, c), v, r) == FileContent(d, v, r)
  {
    match c {
      case PutFile(path, src, stamp) =>
        FailedPutIsInvisible(d, v, path, src, stamp, r);
      case MakeDirectories(path) =>
      case MoveTo(source, dest, recursive) =>
      case DeleteAll(path, recursive, soft) =>
    }
  }

  // ----- what the files hold -----

  /** Where the content of a path after a command comes from. */
  datatype Source = Given(bytes: seq<Byte>) | Was(path: Path) | Nothing

  /** The meaning of a command that wrote metadata or did not, and whether it covers what it moves. */
  function Meaning(c: Command, ok: bool, covered: bool, r: Path): Source {
    if !ok || (c.MoveTo? && c.source == []) then Was(r)
    else match c
      case PutFile(path, src, stamp) => if r == path then Given(src) else Was(r)
      case MakeDirectories(path) => Was(r)
      case MoveTo(source, dest, recursive) =>
        (match Origin(source, dest, covered, r) case None => Nothing case Some(o) => Was(o))
      case DeleteAll(path, recursive, soft) => if path <= r then Nothing else Was(r)
  }

  /** The command moves an entry to where an earlier slot has its name. */
  ghost predicate Covers(v: Volume, c: Command) {
    && c.MoveTo? && WillMove(v.root, c.source, c.dest, c.recursive) && CoveredPath(v.root, c.source, c.dest)
  }

  /** A command that brings no entry of the same name to light, and deletes directories with their two dot entries only. */
  ghost predicate Clear(v: Volume, c: Command) {
    match c
    case PutFile(path, src, stamp) => true
    case MakeDirectories(path) => true
    case MoveTo(source, dest, recursive) =>
      WillMove(v.root, source, dest, recursive) ==> OnlyOfItsName(v.root, Lookup(v.root, source).value)
    case DeleteAll(path, recursive, soft) =>
      Removes(v, path, recursive, soft) ==>
        OnlyOfItsName(v.root, Lookup(v.root, path).value) && TwoDots(At(v.root, Lookup(v.root, path).value))
  }

  ghost function ContentFrom(d: Disk, v: Volume, s: Source): Option<seq<Byte>>
    requires Sound(v.bpb) && Fits(Areas(v.bpb), d)
  {
    match s
    case Given(bytes) => Some(bytes)
    case Was(path) => FileContent(d, v, path)
    case Nothing => None
  }

  lemma MadeContent(d: Disk, v: Volume, path: Path, r: Path)
    requires VolumeSound(v) && Fits(Areas(v.bpb), d) && MakeServed(v, path) && Plain(r) && Made(v, path).0 == Success
    ensures var (e, fat', t) := Made(v, path); FileContent(d, v.(fat := fat', root := t), r) == FileContent(d, v, r)
  {
    var (e, fat', t) := Made(v, path);
    VolumeFacts(v);
    RootIsNoFile();
    MadeSound(v, path);
    if r != [] {
      MadeRecord(ClusterSize(v.bpb), v.fat, v.root, path, r);
      if Lookup(v.root, r).Some? {
        var a := Lookup(v.root, r).value;
        SoundAt(Areas(v.bpb), v.fat, v.root, a);
        OldSlotKept(Areas(v.bpb), v.fat, fat', d, d, At(v.root, a));
      }
    }
  }

  lemma MadeRecord(size: nat, fat: Fat.Table, root: Tree, path: Path, q: Path)
    requires 0 < size && Indexable(fat) && Plain(path) && Plain(q) && q != [] && IsDirectory(root.rec)
    requires MakeDirs(size, fat, root, path).0 == Success
    ensures var t := MakeDirs(size, fat, root, path).2;
            match Lookup(root, q)
            case None => Lookup(t, q).Some? ==> IsDirectory(At(t, Lookup(t, q).value).rec)
            case Some(a) => Lookup(t, q) == Some(a) && At(t, a).rec == At(root, a).rec
  {
    var longer := path + [q[0]];
    assert DirOf(longer) == path;
    PreparedRecord(size, fat, root, longer, q);
  }

  /** The contents in the metadata that a command is about to write. */
  lemma ChangedContent(d: Disk, v: Volume, c: Command, r: Path)
    requires VolumeSound(v) && Fits(Areas(v.bpb), d) && Allowed(v, c) && Clear(v, c) && Plain(r)
    requires Changed(d, v, c).Some? && VolumeSound(Changed(d, v, c).value) && Changed(d, v, c).value.bpb == v.bpb
    ensures FileContent(BeforeWrite(d, v, c), Changed(d, v, c).value, r) == ContentFrom(d, v, Meaning(c, true, Covers(v, c), r))
  {
    match c {
      case PutFile(path, src, stamp) =>
        PutContent(d, v, path, src, stamp, r);
      case MakeDirectories(path) =>
        MadeContent(d, v, path, r);
      case MoveTo(source, dest, recursive) =>
        MovedContent(d, v, source, dest, recursive, r);
      case DeleteAll(path, recursive, soft) =>
        PlainIsTarget(v, path);
        DeletedContent(d, v, path, soft, r);
    }
  }

  lemma MovedContent(d: Disk, v: Volume, p: Path, q: Path, recursive: bool, r: Path)
    requires VolumeSound(v) && Fits(Areas(v.bpb), d) && Plain(p) && Plain(q) && Plain(r)
    requires WillMove(v.root, p, q, recursive) && OnlyOfItsName(v.root, Lookup(v.root, p).value)
    ensures FileContent(d, MovedTo(v, p, q, recursive), r) ==
            match Origin(p, q, CoveredPath(v.root, p, q), r) case None => None case Some(o) => FileContent(d, v, o)
  {
    ReadyIsMoved(v, p, q, recursive);
    MoveContents(d, v, p, q, r);
    CameFromOrigin(v.root, p, q, r);
  }

  lemma PutContent(d: Disk, v: Volume, path: Path, src: seq<Byte>, stamp: Stamp, r: Path)
    requires PutServed(v, path, src) && Fits(Areas(v.bpb), d) && Plain(r)
    requires CreateFile(d, v, path, src, stamp).0 == Success
    ensures var (e, d', v') := CreateFile(d, v, path, src, stamp);
            && Sound(v'.bpb) && Fits(Areas(v'.bpb), d')
            && FileContent(d', v', r) == if r == path then Some(src) else FileContent(d, v, r)
  {
    var (e, d', v') := CreateFile(d, v, path, src, stamp);
    PutSound(d, v, path, src, stamp);
    if r == path {
      NewContent(d, v, path, src, stamp, d', v');
    } else {
      OldContent(d, v, path, src, stamp, d', v', r);
    }
  }

  lemma DeletedContent(d: Disk, v: Volume, path: Path, soft: bool, r: Path)
    requires VolumeSound(v) && Fits(Areas(v.bpb), d) && Plain(path) && Plain(r) && path != [] && Lookup(v.root, path).Some?
    requires OnlyOfItsName(v.root, Lookup(v.root, path).value) && TwoDots(At(v.root, Lookup(v.root, path).value))
    requires RemovalAt(v, path, soft).removed > 0 && Target(v, Lookup(v.root, path).value)
    ensures var w, cs := DeletedFrom(v, Lookup(v.root, path).value, soft), RemovalAt(v, path, soft).erased;
            && Fits(Areas(v.bpb), EraseSet(d, cs, ClusterSize(v.bpb)))
            && FileContent(EraseSet(d, cs, ClusterSize(v.bpb)), w, r) == if path <= r then None else FileContent(d, v, r)
  {
    var a := Lookup(v.root, path).value;
    if soft {
      SoftRemovesNothing(v.fat, At(v.root, a));
    }
    DeleteSucceeds(v, a);
    DeleteKeepsFiles(d, v, path, r);
    RemainingOnly(v.root, path, r);
  }

  /** Every path holds after a command what the command means. */
  lemma CommandMeans(d: Disk, v: Volume, c: Command, r: Path)
    requires VolumeSound(v) && ReadsVolume(d, v) && Allowed(v, c) && Clear(v, c) && Plain(r)
    ensures var (d', v') := Outcome(d, v, c);
            FileContent(d', v', r) == ContentFrom(d, v, Meaning(c, Changed(d, v, c).Some?, Covers(v, c), r))
  {
    match Changed(d, v, c) {
      case Some(v') =>
        ChangedSound(d, v, c);
        ChangedContent(d, v, c, r);
        WriteKeepsContents(BeforeWrite(d, v, c), v', r);
      case None =>
        UnchangedCommand(d, v, c, r);
    }
  }

  // ----- runs -----

  /** An image and the metadata that are read from it. */
  datatype Mount = Mount(d: Disk, v: Volume)

  ghost predicate Consistent(m: Mount) {
    VolumeSound(m.v) && ReadsVolume(m.d, m.v)
  }

  /** The state after one command. */
  ghost function Next(m: Mount, c: Command): (r: Mount)
    requires Consistent(m) && Allowed(m.v, c)
    ensures Consistent(r) && r.v.bpb == m.v.bpb && Extends(m.v.fat, r.v.fat)
    ensures Fits(Areas(m.v.bpb), m.d) && (r.d, r.v) == Outcome(m.d, m.v, c)
  {
    CommandKeeps(m.d, m.v, c);
    var (d, v) := Outcome(m.d, m.v, c);
    Mount(d, v)
  }

  /** A run: each command is allowed where it is given. */
  ghost predicate Run(m: Mount, cs: seq<Command>)
    requires Consistent(m)
    decreases |cs|
  {
    cs == [] || (Allowed(m.v, cs[0]) && Run(Next(m, cs[0]), cs[1..]))
  }

  /** The state after a run. */
  ghost function After(m: Mount, cs: seq<Command>): (r: Mount)
    requires Consistent(m) && Run(m, cs)
    decreases |cs|
  {
    if cs == [] then m else After(Next(m, cs[0]), cs[1..])
  }

  /** Every run keeps the image consistent and changes no table entry in use. */
  lemma {:induction false} RunKeeps(m: Mount, cs: seq<Command>)
    requires Consistent(m) && Run(m, cs)
    ensures Consistent(After(m, cs)) && After(m, cs).v.bpb == m.v.bpb && Extends(m.v.fat, After(m, cs).v.fat)
    decreases |cs|
  {
    if cs != [] {
      var next := Next(m, cs[0]);
      RunKeeps(next, cs[1..]);
      ExtendsTwice(m.v.fat, next.v.fat, After(m, cs).v.fat);
    }
  }

  /** A run in which the meaning of each command is clear where it is given. */
  ghost predicate ClearRun(m: Mount, cs: seq<Command>)
    requires Consistent(m)
    decreases |cs|
  {
    cs == [] || (Allowed(m.v, cs[0]) && Clear(m.v, cs[0]) && ClearRun(Next(m, cs[0]), cs[1..]))
  }

  lemma {:induction false} ClearIsRun(m: Mount, cs: seq<Command>)
    requires Consistent(m) && ClearRun(m, cs)
    ensures Run(m, cs)
    decreases |cs|
  {
    if cs != [] {
      ClearIsRun(Next(m, cs[0]), cs[1..]);
    }
  }

  /** What a command makes of a source: the content of a path is traced back, other contents stay. */
  ghost function TracedBack(m: Mount, c: Command, s: Source): Source
    requires Consistent(m) && Allowed(m.v, c)
  {
    if s.Was? then Meaning(c, Changed(m.d, m.v, c).Some?, Covers(m.v, c), s.path) else s
  }

  ghost predicate PlainSource(s: Source) {
    s.Was? ==> Plain(s.path)
  }

  lemma MeaningIsPlain(c: Command, ok: bool, covered: bool, r: Path)
    requires Plain(r) && (c.MoveTo? ==> Plain(c.source))
    ensures PlainSource(Meaning(c, ok, covered, r))
  {
  }

  lemma TracePlain(m: Mount, c: Command, s: Source)
    requires Consistent(m) && Allowed(m.v, c) && PlainSource(s)
    ensures PlainSource(TracedBack(m, c, s))
  {
    if s.Was? {
      MeaningIsPlain(c, Changed(m.d, m.v, c).Some?, Covers(m.v, c), s.path);
    }
  }

  lemma TraceStep(m: Mount, c: Command, s: Source)
    requires Consistent(m) && Allowed(m.v, c) && Clear(m.v, c) && PlainSource(s)
    ensures ContentFrom(Next(m, c).d, Next(m, c).v, s) == ContentFrom(m.d, m.v, TracedBack(m, c, s))
  {
    if s.Was? {
      CommandMeans(m.d, m.v, c, s.path);
    }
  }

  /** Where the content of a path after a run comes from, traced back through the commands. */
  ghost function Traced(m: Mount, cs: seq<Command>, s: Source): Source
    requires Consistent(m) && Run(m, cs)
    decreases |cs|
  {
    if cs == [] then s else TracedBack(m, cs[0], Traced(Next(m, cs[0]), cs[1..], s))
  }

  lemma {:induction false} TracedIsPlain(m: Mount, cs: seq<Command>, s: Source)
    requires Consistent(m) && Run(m, cs) && PlainSource(s)
    ensures PlainSource(Traced(m, cs, s))
    decreases |cs|
  {
    if cs != [] {
      TracedIsPlain(Next(m, cs[0]), cs[1..], s);
      TracePlain(m, cs[0], Traced(Next(m, cs[0]), cs[1..], s));
    }
  }

  /** After every clear run each path holds what the commands mean: the image implements a map from paths to bytes. */
  lemma {:induction false} RunMeans(m: Mount, cs: seq<Command>, s: Source)
    requires Consistent(m) && ClearRun(m, cs) && PlainSource(s)
    ensures Run(m, cs) && Consistent(After(m, cs))
    ensures ContentFrom(After(m, cs).d, After(m, cs).v, s) == ContentFrom(m.d, m.v, Traced(m, cs, s))
    decreases |cs|
  {
    ClearIsRun(m, cs);
    RunKeeps(m, cs);
    if cs != [] {
      var next := Next(m, cs[0]);
      RunMeans(next, cs[1..], s);
      TracedIsPlain(next, cs[1..], s);
      TraceStep(m, cs[0], Traced(next, cs[1..], s));
    }
  }

  // ----- tidy runs -----

  /**
   What a caller can check before a command: parsed paths, room or no room at all, no file in place of a directory,
   and no other entry of the name where something is moved to.
   */
  ghost predicate Polite(v: Volume, c: Command)
    requires VolumeSound(v)
  {
    match c
    case PutFile(path, src, stamp) => PutServed(v, path, src)
    case MakeDirectories(path) => MakeServed(v, path)
    case MoveTo(source, dest, recursive) =>
      && Plain(source) && Plain(dest)
      && (source != [] ==> var target := dest + [LastOf(source)]; target == source || Lookup(v.root, target).None?)
    case DeleteAll(path, recursive, soft) => Plain(path)
  }

  lemma PoliteMove(v: Volume, p: Path, q: Path, recursive: bool)
    requires VolumeSound(v) && TidyVolume(v) && Polite(v, MoveTo(p, q, recursive)) && WillMove(v.root, p, q, recursive)
    ensures var a, b := Lookup(v.root, p).value, Lookup(v.root, q).value;
            && MoveReady(v.root, p, q) && OnlyOfItsName(v.root, a) && At(v.root, a).rec.name == LastOf(p)
            && NoOther(v.root, a, b, At(v.root, a).rec.name)
  {
    var t, a, b := v.root, Lookup(v.root, p).value, Lookup(v.root, q).value;
    TidyIsOnly(Areas(v.bpb), v.fat, t, p);
    ReadyIsMoved(v, p, q, recursive);
    LookupLastName(t, p);
    if q + [LastOf(p)] == p {
      LookupDir(t, q, p);
      NoOtherOfOnly(t, a, b);
    } else {
      NoOtherFrom(t, q, LastOf(p), a);
    }
  }

  /** The directory of a path is where the path's directory part leads. */
  lemma LookupDir(t: Tree, q: Path, p: Path)
    requires p != [] && q == DirOf(p) && Lookup(t, p).Some? && Lookup(t, q).Some?
    ensures var a := Lookup(t, p).value; Lookup(t, q).value == a[..|a| - 1]
  {
    assert p == q + [LastOf(p)];
    LookupAppend(t, q, [LastOf(p)]);
  }

  /** On tidy metadata such a command is allowed and clear. */
  lemma PoliteIsClear(v: Volume, c: Command)
    requires VolumeSound(v) && TidyVolume(v) && Polite(v, c)
    ensures Allowed(v, c) && Clear(v, c)
  {
    match c {
      case PutFile(path, src, stamp) =>
      case MakeDirectories(path) =>
      case MoveTo(source, dest, recursive) =>
        if WillMove(v.root, source, dest, recursive) {
          PoliteMove(v, source, dest, recursive);
        }
      case DeleteAll(path, recursive, soft) =>
        if WillDelete(v.root, path, recursive) {
          TidyTarget(v, path);
        }
    }
  }

  lemma TidyTarget(v: Volume, path: Path)
    requires VolumeSound(v) && TidyVolume(v) && path != [] && Plain(path) && Lookup(v.root, path).Some?
    ensures OnlyOfItsName(v.root, Lookup(v.root, path).value) && TwoDots(At(v.root, Lookup(v.root, path).value))
    ensures Target(v, Lookup(v.root, path).value)
  {
    var a := Lookup(v.root, path).value;
    TidyIsOnly(Areas(v.bpb), v.fat, v.root, path);
    TidyAt(Areas(v.bpb), v.fat, v.root, a);
    TidyHasTwoDots(At(v.root, a));
    PlainIsTarget(v, path);
  }

  /** The metadata that such a command writes are tidy again. */
  lemma PoliteStaysTidy(d: Disk, v: Volume, c: Command)
    requires VolumeSound(v) && TidyVolume(v) && Polite(v, c) && Fits(Areas(v.bpb), d) && Allowed(v, c)
    requires Changed(d, v, c).Some?
    ensures TidyVolume(Changed(d, v, c).value)
  {
    match c {
      case PutFile(path, src, stamp) =>
        TidyPutFile(d, v, path, src, stamp);
      case MakeDirectories(path) =>
        VolumeFacts(v);
        TidyMakeDirs(ClusterSize(v.bpb), v.fat, v.root, path);
      case MoveTo(source, dest, recursive) =>
        TidyMoveTo(v, source, dest, recursive);
      case DeleteAll(path, recursive, soft) =>
        PlainIsTarget(v, path);
        TidyDelete(v, path, soft);
    }
  }

  lemma TidyPutFile(d: Disk, v: Volume, path: Path, src: seq<Byte>, stamp: Stamp)
    requires PutServed(v, path, src) && TidyVolume(v) && Fits(Areas(v.bpb), d)
    requires CreateFile(d, v, path, src, stamp).0 == Success
    ensures TidyVolume(CreateFile(d, v, path, src, stamp).2)
  {
    PutSound(d, v, path, src, stamp);
    FileChainApart(v, path, src);
    TidyFile(Areas(v.bpb), Allocated(v, src).1, v.root, path, Allocated(v, src).0, |src|, stamp);
  }

  lemma TidyMoveTo(v: Volume, p: Path, q: Path, recursive: bool)
    requires VolumeSound(v) && TidyVolume(v) && Polite(v, MoveTo(p, q, recursive)) && WillMove(v.root, p, q, recursive)
    ensures TidyVolume(MovedTo(v, p, q, recursive))
  {
    var a, b := Lookup(v.root, p).value, Lookup(v.root, q).value;
    PoliteMove(v, p, q, recursive);
    ReadyIsMovable(v.root, p, q);
    TidyTarget(v, p);
    TidyMove(Areas(v.bpb), v.fat, v.root, a, b);
  }

  lemma TidyDelete(v: Volume, path: Path, soft: bool)
    requires VolumeSound(v) && TidyVolume(v) && path != [] && Plain(path) && Lookup(v.root, path).Some?
    requires RemovalAt(v, path, soft).removed > 0 && Target(v, Lookup(v.root, path).value)
    ensures TidyVolume(DeletedFrom(v, Lookup(v.root, path).value, soft))
  {
    var a := Lookup(v.root, path).value;
    if soft {
      SoftRemovesNothing(v.fat, At(v.root, a));
    }
    TidyTarget(v, path);
    DeleteSucceeds(v, a);
    TidyRemove(Areas(v.bpb), v.fat, v.root, a);
  }

  /** Every such command keeps the state tidy. */
  lemma TidyNext(m: Mount, c: Command)
    requires Consistent(m) && TidyVolume(m.v) && Polite(m.v, c)
    ensures Allowed(m.v, c) && Clear(m.v, c) && TidyVolume(Next(m, c).v)
  {
    PoliteIsClear(m.v, c);
    if Changed(m.d, m.v, c).Some? {
      PoliteStaysTidy(m.d, m.v, c);
      ChangedSound(m.d, m.v, c);
      TidyWritten(Changed(m.d, m.v, c).value);
    }
  }

  /** A run of such commands from a tidy state. */
  ghost predicate PoliteRun(m: Mount, cs: seq<Command>)
    requires Consistent(m) && TidyVolume(m.v)
    decreases |cs|
  {
    cs == [] || (Polite(m.v, cs[0]) && (TidyNext(m, cs[0]); PoliteRun(Next(m, cs[0]), cs[1..])))
  }

  /** It is a clear run, and ends in a tidy state: all names unique and plain, two dot entries in every directory. */
  lemma {:induction false} PoliteRunIsClear(m: Mount, cs: seq<Command>)
    requires Consistent(m) && TidyVolume(m.v) && PoliteRun(m, cs)
    ensures ClearRun(m, cs) && Run(m, cs) && TidyVolume(After(m, cs).v)
    decreases |cs|
  {
    if cs != [] {
      TidyNext(m, cs[0]);
      PoliteRunIsClear(Next(m, cs[0]), cs[1..]);
    }
  }

  // ----- what soundness means for the chains -----

  /** In a sound volume every live entry's chain lies in the data area, is acyclic and ends with the marker. */
  lemma ChainsInBounds(v: Volume, a: Address)
    requires VolumeSound(v) && Target(v, a) && At(v.root, a).rec.firstCluster != 0
    ensures var fat, first := v.fat, At(v.root, a).rec.firstCluster;
            && HasChain(fat, first) && Distinct(ChainOf(fat, first))
            && (forall i :: 0 <= i < |ChainOf(fat, first)| ==> 2 <= ChainOf(fat, first)[i] < Areas(v.bpb).dataClusters + 2)
            && fat[ChainOf(fat, first)[|ChainOf(fat, first)| - 1]] == END_OF_CHAIN
  {
    SoundAt(Areas(v.bpb), v.fat, v.root, a);
    ChainIsDistinct(v.fat, ChainOf(v.fat, At(v.root, a).rec.firstCluster));
  }

  /** The chains of different live entries share no cluster. */
  lemma ChainsDisjoint(v: Volume, a: Address, b: Address)
    requires VolumeSound(v) && Target(v, a) && Target(v, b) && a != b
    ensures OwnClusters(v.fat, At(v.root, a).rec) !! OwnClusters(v.fat, At(v.root, b).rec)
  {
    var g := Areas(v.bpb);
    if a <= b {
      OwnNotBelow(g, v.fat, v.root, a, b);
    } else if b <= a {
      OwnNotBelow(g, v.fat, v.root, b, a);
    } else {
      ApartClusters(g, v.fat, v.root, a, b);
    }
  }

  lemma OwnNotBelow(g: Geometry, fat: Fat.Table, t: Tree, a: Address, b: Address)
    requires DirSound(g, fat, t.kids) && Valid(t, b) && a <= b && a != b && a != [] && Valid(t, a) && Live(At(t, a).rec)
    ensures OwnClusters(fat, At(t, a).rec) !! TreeClusters(fat, At(t, b))
  {
    var rest, u := b[|a|..], At(t, a);
    assert b == a + rest && rest != [];
    ValidAppend(t, a, rest);
    SoundAt(g, fat, t, a);
    SoundAt(g, fat, u, rest);
  }

  // ----- where runs begin -----

  /** The metadata of an empty partition are sound. */
  lemma FreshIsSound(p: Bpb)
    requires Sound(p)
    ensures VolumeSound(FreshVolume(p))
  {
    FreeSound(Areas(p), FreshTable(p));
    FreshTableSound(p);
  }

  lemma FreshIsTidy(p: Bpb)
    requires Sound(p) && VolumeSound(FreshVolume(p))
    ensures TidyVolume(FilledVolume(FreshVolume(p)))
  {
    FreeIsTidy();
    TidyWritten(FreshVolume(p));
  }

  lemma FreshTableSound(p: Bpb)
    requires Sound(p)
    ensures TableSound(p, FreshTable(p))
  {
  }

  /** Writing the metadata of an empty partition onto any disk of its size starts a run with no file. */
  lemma FreshStart(d: Disk, p: Bpb, r: Path)
    requires Sound(p) && Fits(Areas(p), d) && Plain(r)
    ensures VolumeSound(FreshVolume(p))
    ensures var m := Mount(WriteMetadata(d, FreshVolume(p)), FilledVolume(FreshVolume(p)));
            Consistent(m) && TidyVolume(m.v) && FileContent(m.d, m.v, r) == None
  {
    var v := FreshVolume(p);
    FreshIsSound(p);
    FreshIsTidy(p);
    FilledVolumeSound(v);
    MetadataRoundTrip(d, v);
    WriteKeepsContents(d, v, r);
    RootIsNoFile();
    if r != [] {
      NothingInFreeSlots(v.root, r);
    }
  }

  lemma NothingInFreeSlots(t: Tree, r: Path)
    requires Plain(r) && r != [] && forall i :: 0 <= i < |t.kids| ==> t.kids[i] == FREE
    ensures Lookup(t, r) == None
  {
    EmptyRecordIsZero();
    assert PlainName(r[0]);
  }
}
