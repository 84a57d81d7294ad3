/** The commands on an image: read the metadata, change them, write them back (src/put.c, src/move.c, src/del.c). */
module Commands {
  import opened Bytes
  import opened Records
  import opened Options
  import opened Errors
  import opened BiosParameterBlock
  import opened Disks
  import opened ChainIo
  import opened Trees
  import opened Volumes
  import opened Creation
  import opened Files
  import opened Putting
  import opened Moves
  import opened Contents
  import opened Walks
  import opened Rewriting
  import opened Deletion
  import opened Runs
  import opened ImageFormat
  import opened Promises
  import opened PutPromises
  import opened ShortNames
  import opened Paths
  import opened DirectoryEntries
  import opened MetadataIo
  import opened MetadataReading
  import opened EntryCreation
  import opened EntryMoves
  import opened EntryWalk
  import opened EntryDeletion
  import opened FileIo

  /** The image holds the sound metadata `v`. */
  ghost predicate Stored(img: Image, v: Volumes.Volume)
    reads img
  {
    StoredIn(img.contents, v)
  }

  lemma BpbOnImage(img: Image, v: Volumes.Volume)
    requires Stored(img, v)
    ensures BPB_OFFSET + BPB_SIZE <= |img.contents|
    ensures DecodeBpb(img.contents[BPB_OFFSET..BPB_OFFSET + BPB_SIZE]) == v.bpb
  {
    ViewFits(Areas(v.bpb), img.contents);
    var boot := img.Disk(Areas(v.bpb)).boot;
    assert boot == img.contents[..FatOffset(v.bpb)];
    assert boot[BPB_OFFSET..BPB_OFFSET + BPB_SIZE] == img.contents[BPB_OFFSET..BPB_OFFSET + BPB_SIZE];
  }

  /** open_image */
  method OpenImage(img: Image, ghost v: Volumes.Volume) returns (meta: Metadata)
    requires Stored(img, v)
    modifies img`position
    ensures fresh(meta) && fresh(meta.fatEntries) && forall o :: o in Objects(meta.shape) ==> fresh(o)
    ensures Loaded(img, meta) && meta.Volume() == v
    ensures Linked(meta.shape, LinksOf(Objects(meta.shape)))
  {
    hide Linked, Mounted;
    BpbOnImage(img, v);
    var err;
    err, meta := ReadMetadata(img, v);
    ParentedIsLinked(meta.shape, LinksOf(Objects(meta.shape)));
    IsLoaded(img, meta, v);
  }

  lemma IsLoaded(img: Image, meta: Metadata, v: Volumes.Volume)
    requires meta.Valid() && meta.Volume() == v && VolumeSound(v) && Mounted(v.bpb, img.contents)
    ensures Loaded(img, meta)
  {
  }

  // ----- f12_put -----

  /** What f12_put does with the outcome of lf12_create_file. */
  ghost predicate PutDone(d: Disk, v: Volumes.Volume, path: Path, src: seq<Byte>, stamp: Stamp, done: bool, after: Disk)
    requires PutServed(v, path, src) && Fits(Areas(v.bpb), d)
  {
    var (e, d', v') := CreateFile(d, v, path, src, stamp);
    && done == (e == Success)
    && if done then VolumeSound(v') && Fits(Areas(v'.bpb), d') && after == WriteMetadata(d', v') else after == d'
  }

  /** What a put does to the image: the put as a command of a run. */
  ghost predicate PutResult(d: Disk, v: Volumes.Volume, path: Path, src: seq<Byte>, stamp: Stamp, done: bool, after: Disk)
    requires PutServed(v, path, src) && Fits(Areas(v.bpb), d)
  {
    var c := PutFile(path, src, stamp);
    done == Changed(d, v, c).Some? && after == Outcome(d, v, c).0
  }

  lemma PutOutcome(d: Disk, v: Volumes.Volume, path: Path, src: seq<Byte>, stamp: Stamp, done: bool, after: Disk)
    requires PutServed(v, path, src) && Fits(Areas(v.bpb), d) && PutDone(d, v, path, src, stamp, done, after)
    ensures PutResult(d, v, path, src, stamp, done, after)
  {
  }

  /** The metadata that a successful put writes are sound. */
  lemma PutIsSound(d: Disk, v: Volumes.Volume, path: Path, src: seq<Byte>, stamp: Stamp)
    requires PutServed(v, path, src) && Fits(Areas(v.bpb), d)
    ensures var (e, d', v') := CreateFile(d, v, path, src, stamp);
            e == Success ==> VolumeSound(v') && v'.bpb == v.bpb && Fits(Areas(v.bpb), d')
  {
    if CreateFile(d, v, path, src, stamp).0 == Success {
      Runs.PutSound(d, v, path, src, stamp);
    }
  }

  /** f12_put for a regular file, which is given by its bytes. */
  method PutOnImage(img: Image, meta: Metadata, path: Path, src: seq<Byte>, stamp: Stamp) returns (done: bool)
    requires Loaded(img, meta) && PutServed(meta.Volume(), path, src)
    modifies img, meta, meta.fatEntries, Objects(meta.shape)
    ensures var p, v := old(meta.bpb), old(meta.Volume()); var d := old(img.Disk(Areas(p)));
            && Mounted(p, img.contents) && Fits(Areas(p), d)
            && PutDone(d, v, path, src, stamp, done, img.Disk(Areas(p)))
  {
    ViewFits(Areas(meta.bpb), img.contents);
    PutIsSound(img.Disk(Areas(meta.bpb)), meta.Volume(), path, src, stamp);
    var err := CreateFileOnImage(img, meta, path, src, stamp);
    if err != Success {
      return false;
    }
    err := SaveMetadata(img, meta);
    done := true;
  }

  /** f12_put for a regular file; the path is parsed before the image is read, which changes nothing. */
  method PutCommand(img: Image, destination: Text, src: seq<Byte>, stamp: Stamp, ghost v: Volumes.Volume) returns (done: bool)
    requires Stored(img, v) && NoZero(destination) && ParseOf(destination) != Garbage
    requires ParseOf(destination).Components? ==> PutServed(v, ParseOf(destination).path, src)
    modifies img
    ensures Mounted(v.bpb, img.contents) && Fits(Areas(v.bpb), old(img.Disk(Areas(v.bpb))))
    ensures match ParseOf(destination)
            case Components(path) =>
              && PutResult(old(img.Disk(Areas(v.bpb))), v, path, src, stamp, done, img.Disk(Areas(v.bpb)))
              && PutPromise(old(img.Disk(Areas(v.bpb))), v, path, src, stamp, done, img.Disk(Areas(v.bpb)))
              && StillStores(old(img.contents), img.contents, v.bpb)
            case _ => !done && img.contents == old(img.contents)
  {
    ViewFits(Areas(v.bpb), img.contents);
    var parsed := ParsePath(destination);
    if parsed.NoPath? {
      return false;
    }
    var meta := OpenImage(img, v);
    ghost var d := img.Disk(Areas(v.bpb));
    done := PutOnImage(img, meta, parsed.path, src, stamp);
    PutOutcome(d, v, parsed.path, src, stamp, done, img.Disk(Areas(v.bpb)));
    PutFacts(old(img.contents), img.contents, v, parsed.path, src, stamp, done);
  }

  /** What the result means, said without the run. */
  lemma PutFacts(b: seq<Byte>, b': seq<Byte>, v: Volumes.Volume, path: Path, src: seq<Byte>, stamp: Stamp, done: bool)
    requires StoredIn(b, v) && Mounted(v.bpb, b') && PutServed(v, path, src) && Fits(Areas(v.bpb), View(Areas(v.bpb), b))
    requires PutResult(View(Areas(v.bpb), b), v, path, src, stamp, done, View(Areas(v.bpb), b'))
    ensures PutPromise(View(Areas(v.bpb), b), v, path, src, stamp, done, View(Areas(v.bpb), b'))
    ensures StillStores(b, b', v.bpb)
  {
    hide Outcome, Changed, PutServed, StillStores, PutPromise, View;
    PutKeepsPromise(View(Areas(v.bpb), b), v, path, src, stamp);
    CommandStillStores(b, b', v, PutFile(path, src, stamp));
  }

  // ----- f12_get -----

  /** What lf12_dump_file asks of the file at a path: a chain that holds its size. */
  ghost predicate Gettable(v: Volumes.Volume, path: Path)
    requires VolumeSound(v)
  {
    match Lookup(v.root, path)
    case None => true
    case Some(a) => IsDirectory(At(v.root, a).rec) || Dumpable(Areas(v.bpb), v.fat, At(v.root, a).rec)
  }

  /** lf12_dump_file for an entry of loaded metadata, unless it is a directory. */
  method DumpEntry(img: Image, meta: Metadata, entry: DirectoryEntry, ghost a: Address) returns (got: Option<seq<Byte>>)
    requires Loaded(img, meta) && Valid(meta.tree, a) && entry == SubShape(meta.shape, a).self
    requires IsDirectory(At(meta.tree, a).rec) || Dumpable(Areas(meta.bpb), meta.fatEntries[..], At(meta.tree, a).rec)
    modifies img`position
    ensures Fits(Areas(meta.bpb), img.Disk(Areas(meta.bpb)))
    ensures var r := At(meta.tree, a).rec;
            got == if IsDirectory(r) then None else Some(Dump(Areas(meta.bpb), img.Disk(Areas(meta.bpb)), meta.fatEntries[..], r))
  {
    ViewFits(Areas(meta.bpb), img.contents);
    RepSplit(meta.shape, meta.tree, a);
    if IsDirectory(entry.rec) {
      return None;
    }
    var err, bytes := DumpFile(img, meta.bpb, meta.fatEntries, meta.endOfChainMarker, entry);
    return Some(bytes);
  }

  /** f12_get on a parsed path. */
  method GetPath(img: Image, meta: Metadata, path: Path, ghost v: Volumes.Volume) returns (got: Option<seq<Byte>>)
    requires Loaded(img, meta) && v == meta.Volume() && path != [] && Gettable(v, path)
    modifies img`position
    ensures Fits(Areas(v.bpb), img.Disk(Areas(v.bpb))) && got == FileContent(img.Disk(Areas(v.bpb)), v, path)
  {
    ViewFits(Areas(v.bpb), img.contents);
    assert allocated(Objects(meta.shape)) && Loaded(img, meta);
    var entry := FindEntry(meta, path);
    assert Loaded(img, meta);
    if entry == null {
      return None;
    }
    got := DumpEntry(img, meta, entry, Lookup(v.root, path).value);
  }

  /** f12_get without the recursive option: the bytes of a file, nothing for a directory or a path to nowhere. */
  method GetCommand(img: Image, text: Text, ghost v: Volumes.Volume) returns (got: Option<seq<Byte>>)
    requires Stored(img, v) && NoZero(text) && ParseOf(text) != Garbage
    requires ParseOf(text).Components? ==> Gettable(v, ParseOf(text).path)
    modifies img`position
    ensures Fits(Areas(v.bpb), img.Disk(Areas(v.bpb)))
    ensures got == match ParseOf(text)
                   case Components(path) => FileContent(img.Disk(Areas(v.bpb)), v, path)
                   case _ => None
  {
    ViewFits(Areas(v.bpb), img.contents);
    var parsed := ParsePath(text);
    if parsed.NoPath? {
      return None;
    }
    ParsedIsPlain(text);
    var meta := OpenImage(img, v);
    got := GetPath(img, meta, parsed.path, v);
  }

  /** After a successful put, a get of any path from the image gives the source or what it gave before. */
  lemma GetAfterPut(d: Disk, v: Volumes.Volume, path: Path, src: seq<Byte>, stamp: Stamp, after: Disk, r: Path)
    requires PutServed(v, path, src) && ReadsVolume(d, v) && PutResult(d, v, path, src, stamp, true, after) && Plain(r)
    ensures var w := Outcome(d, v, PutFile(path, src, stamp)).1;
            && VolumeSound(w) && ReadsVolume(after, w)
            && FileContent(after, w, r) == if r == path then Some(src) else FileContent(d, v, r)
  {
    CommandKeeps(d, v, PutFile(path, src, stamp));
    CommandMeans(d, v, PutFile(path, src, stamp), r);
  }

  // ----- f12_move -----

  /** The path of a parsed destination; the root directory has the empty path. */
  function PathOf(parsed: Parsed): Path {
    if parsed.Components? then parsed.path else []
  }

  /** lf12_move_entry on the metadata; for the parent links see MoveEntry. */
  method MoveInMetadata(meta: Metadata, src: DirectoryEntry, dest: DirectoryEntry, ghost a: Address, ghost b: Address)
    returns (err: Error)
    requires meta.Valid() && Valid(meta.tree, a) && Valid(meta.tree, b)
    requires src == SubShape(meta.shape, a).self && dest == SubShape(meta.shape, b).self
    requires MoveError(meta.tree, b) == Success ==> Movable(meta.tree, a, b)
    modifies meta`shape, meta`tree, Objects(meta.shape)
    ensures err == MoveError(old(meta.tree), b) && meta.Valid()
    ensures meta.tree == if err == Success then Moved(old(meta.tree), a, b) else old(meta.tree)
  {
    hide Movable, Whole;
    ghost var t := meta.tree;
    ghost var k;
    err, k := MoveObjects(src, dest, meta.shape, t, a, b);
    ghost var w := if err == Success then Moved(t, a, b) else t;
    assert Whole(k, w);
    meta.shape, meta.tree := k, w;
    assert Whole(k, w);
  }

  method MoveObjects(src: DirectoryEntry, dest: DirectoryEntry, ghost s: Shape, ghost t: Tree, ghost a: Address, ghost b: Address)
    returns (err: Error, ghost k: Shape)
    requires Whole(s, t) && Valid(t, a) && Valid(t, b) && src == SubShape(s, a).self && dest == SubShape(s, b).self
    requires MoveError(t, b) == Success ==> Movable(t, a, b)
    modifies Objects(s)
    ensures err == MoveError(t, b) && k.self == s.self
    ensures if err == Success then Movable(t, a, b) && Whole(k, Moved(t, a, b)) else k == s && Whole(s, t)
  {
    err, k := MoveEntry(src, dest, s, t, a, b);
  }

  /** The part of f12_move after the paths were looked up; `w` are the metadata after the move. */
  method MoveOnImage(img: Image, meta: Metadata, src: DirectoryEntry, dest: DirectoryEntry,
                     ghost a: Address, ghost b: Address, ghost w: Volumes.Volume)
    returns (done: bool)
    requires meta.Valid() && Mounted(meta.bpb, img.contents) && Valid(meta.tree, a) && Valid(meta.tree, b)
    requires src == SubShape(meta.shape, a).self && dest == SubShape(meta.shape, b).self
    requires VolumeSound(w) && w.bpb == meta.bpb
    requires MoveError(meta.tree, b) == Success ==>
               Movable(meta.tree, a, b) && w == meta.Volume().(root := Moved(meta.tree, a, b))
    modifies img, meta`shape, meta`tree, Objects(meta.shape)
    ensures done <==> MoveError(old(meta.tree), b) == Success
    ensures Mounted(w.bpb, img.contents) && Fits(Areas(w.bpb), old(img.Disk(Areas(w.bpb))))
    ensures img.Disk(Areas(w.bpb)) ==
            if done then WriteMetadata(old(img.Disk(Areas(w.bpb))), w) else old(img.Disk(Areas(w.bpb)))
  {
    ViewFits(Areas(meta.bpb), img.contents);
    var err := MoveInMetadata(meta, src, dest, a, b);
    if err != Success {
      return false;
    }
    WriteThese(img, meta, w);
    done := true;
  }

  /** lf12_write_metadata for metadata known to be sound. */
  method WriteThese(img: Image, meta: Metadata, ghost w: Volumes.Volume)
    requires meta.Valid() && meta.Volume() == w && VolumeSound(w) && Mounted(w.bpb, img.contents)
    modifies img
    ensures Mounted(w.bpb, img.contents) && Fits(Areas(w.bpb), old(img.Disk(Areas(w.bpb))))
    ensures img.Disk(Areas(w.bpb)) == WriteMetadata(old(img.Disk(Areas(w.bpb))), w)
  {
    ViewFits(Areas(w.bpb), img.contents);
    var err := SaveMetadata(img, meta);
  }

  /** What lf12_entry_from_path gives for a path. */
  ghost predicate Found(meta: Metadata, path: Path, entry: DirectoryEntry?)
    reads meta
  {
    entry == match Lookup(meta.tree, path) case None => null case Some(a) => SubShape(meta.shape, a).self
  }

  method FindEntry(meta: Metadata, path: Path) returns (entry: DirectoryEntry?)
    requires meta.Valid()
    ensures meta.Valid() && Found(meta, path, entry)
  {
    assert allocated(Objects(meta.shape));
    entry := EntryFromPath(meta.rootDir, path, meta.shape, meta.tree);
    assert Rep(meta.shape, meta.tree);
  }

  /** Both paths lead to entries, and a directory may be moved. */
  ghost predicate BothFound(t: Tree, p: Path, q: Path, recursive: bool) {
    && Lookup(t, p).Some? && Lookup(t, q).Some?
    && (recursive || !IsDirectory(At(t, Lookup(t, p).value).rec) || |At(t, Lookup(t, p).value).kids| <= 2)
  }

  /** Looks up both paths; false if one leads nowhere or a directory may not be moved. */
  method FindBoth(meta: Metadata, p: Path, q: Path, recursive: bool)
    returns (found: bool, src: DirectoryEntry?, dest: DirectoryEntry?)
    requires meta.Valid()
    ensures meta.Valid() && (found <==> BothFound(meta.tree, p, q, recursive))
    ensures found ==> src != null && dest != null && Found(meta, p, src) && Found(meta, q, dest)
  {
    found := false;
    dest := null;
    src := FindEntry(meta, p);
    if src == null {
      return;
    }
    RepSplit(meta.shape, meta.tree, Lookup(meta.tree, p).value);
    if !recursive && IsDirectory(src.rec) && |src.children| > 2 {
      return;
    }
    dest := FindEntry(meta, q);
    found := dest != null;
  }

  /** The walk of a verbose move does not leave the tables. */
  predicate WalkStaysInside(t: Tree, p: Path) {
    match Lookup(t, p)
    case None => true
    case Some(a) => Walkable(At(t, a))
  }

  /** _f12_dump_move on loaded metadata. */
  method ShowWalk(meta: Metadata, src: DirectoryEntry, ghost a: Address) returns (names: seq<ShortName>)
    requires meta.Valid() && Linked(meta.shape, LinksOf(Objects(meta.shape)))
    requires Valid(meta.tree, a) && src == SubShape(meta.shape, a).self && Walkable(At(meta.tree, a))
    ensures NamesAt(At(meta.tree, a), Visits(At(meta.tree, a)), names)
  {
    GroundAt(meta.shape, meta.tree, a);
    ghost var k := SubShape(meta.shape, a);
    names := WalkNames(src, Ground(k, At(meta.tree, a), LinksOf(Objects(k))));
  }

  /** What f12_move does to the image: the move as a command of a run. */
  ghost predicate MoveResult(d: Disk, v: Volumes.Volume, p: Path, q: Path, recursive: bool, done: bool, after: Disk)
    requires VolumeSound(v) && Plain(p) && Plain(q) && Fits(Areas(v.bpb), d)
  {
    && (done <==> Relation(p, q) == Equal || WillMove(v.root, p, q, recursive))
    && after == Outcome(d, v, MoveTo(p, q, recursive)).0
  }

  /** The same without the run: the metadata are written if the entry is moved. */
  ghost predicate MoveDone(d: Disk, v: Volumes.Volume, p: Path, q: Path, recursive: bool, done: bool, after: Disk)
    requires VolumeSound(v) && Plain(p) && Fits(Areas(v.bpb), d)
  {
    && (done <==> Relation(p, q) == Equal || WillMove(v.root, p, q, recursive))
    && after == if WillMove(v.root, p, q, recursive) then WriteMetadata(d, MovedTo(v, p, q, recursive)) else d
  }

  lemma MoveOutcome(d: Disk, v: Volumes.Volume, p: Path, q: Path, recursive: bool, done: bool, after: Disk)
    requires VolumeSound(v) && Plain(p) && Plain(q) && Fits(Areas(v.bpb), d) && MoveDone(d, v, p, q, recursive, done, after)
    ensures MoveResult(d, v, p, q, recursive, done, after)
  {
  }

  /** What a verbose move prints: nothing unless both paths were found, then the walk, even if the move fails. */
  ghost predicate MoveShows(t: Tree, p: Path, q: Path, recursive: bool, verbose: bool, shown: seq<ShortName>) {
    if verbose && Relation(p, q) != First && Relation(p, q) != Equal && BothFound(t, p, q, recursive)
    then NamesAt(At(t, Lookup(t, p).value), Visits(At(t, Lookup(t, p).value)), shown)
    else shown == []
  }

  /** The part of f12_move before the move: both paths are looked up, and the walk is shown. */
  method FindAndShow(meta: Metadata, p: Path, q: Path, recursive: bool, verbose: bool)
    returns (found: bool, src: DirectoryEntry?, dest: DirectoryEntry?, shown: seq<ShortName>)
    requires meta.Valid() && Linked(meta.shape, LinksOf(Objects(meta.shape)))
    requires Relation(p, q) != First && Relation(p, q) != Equal && (verbose ==> WalkStaysInside(meta.tree, p))
    ensures meta.Valid() && (found <==> BothFound(meta.tree, p, q, recursive))
    ensures found ==> src != null && dest != null && Found(meta, p, src) && Found(meta, q, dest)
    ensures MoveShows(meta.tree, p, q, recursive, verbose, shown)
  {
    hide Linked, Relation;
    shown := [];
    assert allocated(Objects(meta.shape)) && meta.Valid();
    found, src, dest := FindBoth(meta, p, q, recursive);
    assert meta.Valid();
    if found && verbose {
      shown := ShowWalk(meta, src, Lookup(meta.tree, p).value);
    }
  }

  /** f12_move on parsed paths of which neither is the other nor its beginning. */
  method MovePaths(img: Image, meta: Metadata, p: Path, q: Path, recursive: bool, verbose: bool)
    returns (done: bool, shown: seq<ShortName>)
    requires Loaded(img, meta) && Linked(meta.shape, LinksOf(Objects(meta.shape)))
    requires Plain(p) && p != [] && Relation(p, q) != First && Relation(p, q) != Equal
    requires verbose ==> WalkStaysInside(meta.tree, p)
    modifies img, meta`shape, meta`tree, Objects(meta.shape)
    ensures MoveShows(old(meta.tree), p, q, recursive, verbose, shown)
    ensures var v, d := old(meta.Volume()), old(img.Disk(Areas(meta.bpb)));
            && Mounted(v.bpb, img.contents) && Fits(Areas(v.bpb), d)
            && MoveDone(d, v, p, q, recursive, done, img.Disk(Areas(v.bpb)))
  {
    ghost var v := meta.Volume();
    ViewFits(Areas(v.bpb), img.contents);
    var found, src, dest;
    found, src, dest, shown := FindAndShow(meta, p, q, recursive, verbose);
    if !found {
      done := false;
      return;
    }
    if MoveError(v.root, Lookup(v.root, q).value) == Success {
      WillMoveIsSafe(v, p, q);
    }
    done := MoveOnImage(img, meta, src, dest, Lookup(v.root, p).value, Lookup(v.root, q).value,
                        MovedTo(v, p, q, recursive));
  }

  /** f12_move on parsed paths. */
  method ComparePaths(img: Image, p: Path, q: Path, recursive: bool, verbose: bool, ghost v: Volumes.Volume)
    returns (done: bool, shown: seq<ShortName>)
    requires Stored(img, v) && Plain(p) && p != [] && (verbose ==> WalkStaysInside(v.root, p))
    modifies img
    ensures Mounted(v.bpb, img.contents) && Fits(Areas(v.bpb), old(img.Disk(Areas(v.bpb))))
    ensures MoveDone(old(img.Disk(Areas(v.bpb))), v, p, q, recursive, done, img.Disk(Areas(v.bpb)))
    ensures MoveShows(v.root, p, q, recursive, verbose, shown)
  {
    ViewFits(Areas(v.bpb), img.contents);
    var relation := PathGetParent(p, q);
    if relation == First {
      return false, [];
    } else if relation == Equal {
      return true, [];
    }
    var meta := OpenImage(img, v);
    done, shown := MovePaths(img, meta, p, q, recursive, verbose);
  }

  lemma PathOfIsPlain(text: Text)
    ensures Plain(PathOf(ParseOf(text)))
  {
    if ParseOf(text).Components? {
      ParsedIsPlain(text);
    }
  }

  /**
   f12_move; the paths are parsed and compared before the image is read, which changes nothing. `shown` are the names
   of the entries that the verbose option prints.
   */
  method MoveCommand(img: Image, source: Text, destination: Text, recursive: bool, verbose: bool, ghost v: Volumes.Volume)
    returns (done: bool, shown: seq<ShortName>)
    requires Stored(img, v) && NoZero(source) && NoZero(destination)
    requires ParseOf(source) != Garbage && ParseOf(destination) != Garbage
    requires verbose && ParseOf(source).Components? ==> WalkStaysInside(v.root, ParseOf(source).path)
    modifies img
    ensures Mounted(v.bpb, img.contents) && Fits(Areas(v.bpb), old(img.Disk(Areas(v.bpb))))
    ensures match ParseOf(source)
            case Components(p) =>
              && Plain(p) && Plain(PathOf(ParseOf(destination)))
              && MoveResult(old(img.Disk(Areas(v.bpb))), v, p, PathOf(ParseOf(destination)), recursive, done,
                            img.Disk(Areas(v.bpb)))
              && MoveShows(v.root, p, PathOf(ParseOf(destination)), recursive, verbose, shown)
              && p != [] && MovePromise(old(img.Disk(Areas(v.bpb))), v, p, PathOf(ParseOf(destination)), recursive, done,
                                        img.Disk(Areas(v.bpb)))
              && StillStores(old(img.contents), img.contents, v.bpb)
            case _ => !done && shown == [] && img.contents == old(img.contents)
  {
    ViewFits(Areas(v.bpb), img.contents);
    var parsed := ParsePath(source);
    if parsed.NoPath? {
      return false, [];
    }
    ParsedIsPlain(source);
    var p := parsed.path;
    parsed := ParsePath(destination);
    var q := PathOf(parsed);
    PathOfIsPlain(destination);
    ghost var d := img.Disk(Areas(v.bpb));
    done, shown := ComparePaths(img, p, q, recursive, verbose, v);
    MoveOutcome(d, v, p, q, recursive, done, img.Disk(Areas(v.bpb)));
    MoveFacts(old(img.contents), img.contents, v, p, q, recursive, done);
  }

  lemma MoveFacts(b: seq<Byte>, b': seq<Byte>, v: Volumes.Volume, p: Path, q: Path, recursive: bool, done: bool)
    requires StoredIn(b, v) && Mounted(v.bpb, b') && Plain(p) && Plain(q) && p != []
    requires Fits(Areas(v.bpb), View(Areas(v.bpb), b))
    requires MoveResult(View(Areas(v.bpb), b), v, p, q, recursive, done, View(Areas(v.bpb), b'))
    ensures MovePromise(View(Areas(v.bpb), b), v, p, q, recursive, done, View(Areas(v.bpb), b'))
    ensures StillStores(b, b', v.bpb)
  {
    hide Outcome, WillMove, StillStores, MovePromise, View;
    MoveKeepsPromise(View(Areas(v.bpb), b), v, p, q, recursive);
    CommandStillStores(b, b', v, MoveTo(p, q, recursive));
  }

  // ----- f12_del -----

  /** What f12_del does to the image: the deletion as a command of a run. */
  ghost predicate DeleteResult(d: Disk, v: Volumes.Volume, path: Path, recursive: bool, soft: bool, done: bool, after: Disk)
    requires VolumeSound(v) && Plain(path) && Fits(Areas(v.bpb), d)
  {
    && (done <==> WillDelete(v.root, path, recursive) && RemovalAt(v, path, soft).error == Success)
    && after == Outcome(d, v, DeleteAll(path, recursive, soft)).0
  }

  /** In metadata that were read, every slot was read, so writing its directories would change nothing. */
  lemma ReadEntrySettled(d: Disk, v: Volumes.Volume, a: Address)
    requires VolumeSound(v) && ReadsVolume(d, v) && Valid(v.root, a) && a != []
    ensures Settled(Areas(v.bpb), v.fat, d, At(v.root, a))
  {
    SoundAt(Areas(v.bpb), v.fat, v.root, a);
    ReadsAt(Areas(v.bpb), d, v.fat, d.root, v.root, a);
    ClustersHoldRecords(v.bpb);
    ReadIsSettled(Areas(v.bpb), d, v.fat, At(v.root, a));
  }

  lemma ClustersHoldRecords(p: Bpb)
    requires Sound(p)
    ensures Areas(p).clusterSize % 32 == 0
  {
    WholeRecords(p.sectorsPerCluster, p.sectorSize);
  }

  /** The recursive deletion on loaded metadata. */
  method DeleteOnImage(img: Image, meta: Metadata, entry: DirectoryEntry, soft: bool, ghost a: Address, ghost v: Volumes.Volume)
    returns (done: bool)
    requires Loaded(img, meta) && v == meta.Volume() && Target(v, a) && entry == SubShape(meta.shape, a).self
    requires ReadsVolume(img.Disk(Areas(v.bpb)), v)
    modifies img, meta`shape, meta`tree, Objects(SubShape(meta.shape, a))
    ensures Mounted(v.bpb, img.contents) && Fits(Areas(v.bpb), old(img.Disk(Areas(v.bpb))))
    ensures var r := RemoveTree(v.fat, soft, At(v.root, a));
            && (done <==> r.error == Success)
            && img.Disk(Areas(v.bpb)) == AfterRemoval(old(img.Disk(Areas(v.bpb))), DeletedFrom(v, a, soft), r)
  {
    ViewFits(Areas(v.bpb), img.contents);
    ReadEntrySettled(img.Disk(Areas(v.bpb)), v, a);
    var err;
    ghost var k;
    err, k := DelTree(img, meta, entry, soft, a, At(meta.tree, a));
    done := err == Success;
  }

  /** f12_del on a parsed path. */
  method DeletePath(img: Image, meta: Metadata, path: Path, recursive: bool, soft: bool, ghost v: Volumes.Volume)
    returns (done: bool)
    requires Loaded(img, meta) && v == meta.Volume() && Plain(path) && path != [] && ReadsVolume(img.Disk(Areas(v.bpb)), v)
    modifies img, meta`shape, meta`tree, Objects(meta.shape)
    ensures Mounted(v.bpb, img.contents) && Fits(Areas(v.bpb), old(img.Disk(Areas(v.bpb))))
    ensures DeleteResult(old(img.Disk(Areas(v.bpb))), v, path, recursive, soft, done, img.Disk(Areas(v.bpb)))
  {
    ViewFits(Areas(v.bpb), img.contents);
    DeleteOutcome(img.Disk(Areas(v.bpb)), v, path, recursive, soft);
    assert allocated(Objects(meta.shape)) && Loaded(img, meta);
    var entry := FindEntry(meta, path);
    assert Loaded(img, meta);
    if entry == null {
      return false;
    }
    ghost var a := Lookup(v.root, path).value;
    PlainIsTarget(v, path);
    RepSplit(meta.shape, meta.tree, a);
    OutsideApart(meta.shape, meta.tree, a);
    if IsDirectory(entry.rec) && |entry.children| > 2 && !recursive {
      return false;
    }
    done := DeleteOnImage(img, meta, entry, soft, a, v);
  }

  /** f12_del; the path is parsed before the image is read, which changes nothing. */
  method DeleteCommand(img: Image, text: Text, recursive: bool, soft: bool, ghost v: Volumes.Volume) returns (done: bool)
    requires Stored(img, v) && NoZero(text) && ParseOf(text) != Garbage
    modifies img
    ensures Mounted(v.bpb, img.contents) && Fits(Areas(v.bpb), old(img.Disk(Areas(v.bpb))))
    ensures match ParseOf(text)
            case Components(path) =>
              && Plain(path)
              && DeleteResult(old(img.Disk(Areas(v.bpb))), v, path, recursive, soft, done, img.Disk(Areas(v.bpb)))
              && DeletePromise(old(img.Disk(Areas(v.bpb))), v, path, recursive, soft, done, img.Disk(Areas(v.bpb)))
              && StillStores(old(img.contents), img.contents, v.bpb)
            case _ => !done && img.contents == old(img.contents)
  {
    ViewFits(Areas(v.bpb), img.contents);
    var parsed := ParsePath(text);
    if parsed.NoPath? {
      return false;
    }
    ParsedIsPlain(text);
    var meta := OpenImage(img, v);
    done := DeletePath(img, meta, parsed.path, recursive, soft, v);
    DeleteFacts(old(img.contents), img.contents, v, parsed.path, recursive, soft, done);
  }

  lemma DeleteFacts(b: seq<Byte>, b': seq<Byte>, v: Volumes.Volume, path: Path, recursive: bool, soft: bool, done: bool)
    requires StoredIn(b, v) && Mounted(v.bpb, b') && Plain(path) && Fits(Areas(v.bpb), View(Areas(v.bpb), b))
    requires DeleteResult(View(Areas(v.bpb), b), v, path, recursive, soft, done, View(Areas(v.bpb), b'))
    ensures DeletePromise(View(Areas(v.bpb), b), v, path, recursive, soft, done, View(Areas(v.bpb), b'))
    ensures StillStores(b, b', v.bpb)
  {
    hide Outcome, WillDelete, StillStores, DeletePromise, View;
    DeleteKeepsPromise(View(Areas(v.bpb), b), v, path, recursive, soft);
    CommandStillStores(b, b', v, DeleteAll(path, recursive, soft));
  }
}
