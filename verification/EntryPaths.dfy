/** Printing the path of an entry by its parent links (src/libfat12/name.c). */
module EntryPaths {
  import opened Bytes
  import opened Records
  import opened Options
  import opened Trees
  import opened ShortNames
  import opened Paths
  import opened Walks
  import opened DirectoryEntries
  import opened EntryWalk

  // ----- lengths -----

  function NonSpaces(s: Text): nat {
    if s == [] then 0 else (if s[0] == SPACE then 0 else 1) + NonSpaces(s[1..])
  }

  /** What _lf12_get_path_length counts for a name. */
  function CountedLength(n: ShortName): nat {
    NonSpaces(n[..8]) + (if n[8] != SPACE then 1 else 0) + NonSpaces(n[8..])
  }

  /** A string up to its first zero byte. */
  function UpToZero(s: Text): (r: Text)
    ensures |r| <= |s| && NoZero(r) && (NoZero(s) ==> r == s)
  {
    if s == [] || s[0] == 0 then [] else [s[0]] + UpToZero(s[1..])
  }

  /** What a path shows of a name. */
  function Shown(n: ShortName): Text {
    UpToZero(FileName(n))
  }

  /** The names with a slash before each. */
  function Slashed(names: seq<ShortName>): Text {
    if names == [] then [] else [SLASH] + Shown(names[0]) + Slashed(names[1..])
  }

  function CountedAll(names: seq<ShortName>): nat {
    if names == [] then 0 else 1 + CountedLength(names[0]) + CountedAll(names[1..])
  }

  /** No space before another character of the name part. */
  predicate NoInnerSpace(n: ShortName) {
    forall i :: 0 <= i < |TrimRight(n[..8])| ==> n[i] != SPACE
  }

  lemma {:induction false} NonSpacesAppend(s: Text, t: Text)
    ensures NonSpaces(s + t) == NonSpaces(s) + NonSpaces(t)
  {
    if s == [] {
      assert s + t == t;
    } else {
      assert (s + t)[1..] == s[1..] + t;
      NonSpacesAppend(s[1..], t);
    }
  }

  lemma {:induction false} NonSpacesBound(s: Text)
    ensures NonSpaces(s) <= |s|
    ensures NonSpaces(s) == |s| <==> forall i :: 0 <= i < |s| ==> s[i] != SPACE
    ensures AllSpaces(s) ==> NonSpaces(s) == 0
  {
    if s != [] {
      NonSpacesBound(s[1..]);
      assert forall i :: 0 < i < |s| ==> s[i] == s[1..][i - 1];
    }
  }

  /** The characters of both parts, without the spaces that fill them. */
  lemma CountedParts(n: ShortName)
    requires Canonical(n)
    ensures var t, e := TrimRight(n[..8]), PrintedExtension(n);
            NonSpaces(n[..8]) == NonSpaces(t) && NonSpaces(n[8..]) == NonSpaces(e) == |e|
  {
    var t, e := TrimRight(n[..8]), PrintedExtension(n);
    PrintedExtensionFacts(n);
    NonSpacesAppend(t, n[..8][|t|..]);
    assert n[..8] == t + n[..8][|t|..];
    NonSpacesAppend(e, Spaces(3 - |e|));
    NonSpacesBound(e);
    NonSpacesBound(n[..8][|t|..]);
    NonSpacesBound(Spaces(3 - |e|));
  }

  /** A canonical name is counted too short exactly when it has a space inside. */
  lemma CountedIsPrinted(n: ShortName)
    requires Canonical(n)
    ensures CountedLength(n) <= |Shown(n)|
    ensures CountedLength(n) == |Shown(n)| <==> NoInnerSpace(n)
  {
    var t := TrimRight(n[..8]);
    PrintedHasNoSlash(n);
    PrintedStemFacts(n);
    PrintedExtensionFacts(n);
    CountedParts(n);
    NonSpacesBound(t);
    assert forall i :: 0 <= i < |t| ==> t[i] == n[i];
  }

  lemma {:induction false} SlashedLength(names: seq<ShortName>)
    requires AllCanonical(names)
    ensures CountedAll(names) <= |Slashed(names)|
    ensures CountedAll(names) == |Slashed(names)| <==> forall i :: 0 <= i < |names| ==> NoInnerSpace(names[i])
  {
    if names != [] {
      CountedIsPrinted(names[0]);
      SlashedLength(names[1..]);
      assert forall i :: 0 < i < |names| ==> names[i] == names[1..][i - 1];
    }
  }

  lemma ShownIsPrinted(n: ShortName)
    requires Canonical(n)
    ensures Shown(n) == FileName(n)
  {
    PrintedHasNoSlash(n);
  }

  lemma {:induction false} SlashedIsJoined(names: seq<ShortName>)
    requires names != [] && AllCanonical(names)
    ensures Slashed(names) == [SLASH] + Join(PrintedAll(names))
  {
    ShownIsPrinted(names[0]);
    var parts := PrintedAll(names);
    if |names| > 1 {
      SlashedIsJoined(names[1..]);
      assert parts[1..] == PrintedAll(names[1..]);
      SlashFirst(parts[0], Join(parts[1..]));
    } else {
      assert Slashed(names[1..]) == [];
      assert [SLASH] + parts[0] + [] == [SLASH] + parts[0];
    }
  }

  lemma SlashFirst(s: Text, t: Text)
    ensures [SLASH] + s + ([SLASH] + t) == [SLASH] + (s + [SLASH] + t)
  {
  }

  /** Parsing a printed path gives the names back exactly when the last one is not blank. */
  lemma PrintedPathParses(names: seq<ShortName>)
    requires names != [] && AllCanonical(names)
    ensures ParseOf(Slashed(names)) == Components(names) <==> FileName(names[|names| - 1]) != []
  {
    SlashedIsJoined(names);
    assert Slashed(names)[1..] == Join(PrintedAll(names));
    JoinedParse(names);
  }

  // ----- looking up what was printed -----

  /** On the way to the address, every slot is the first of its name. */
  ghost predicate FirstAlong(t: Tree, a: Address)
    requires Valid(t, a)
  {
    a == [] || (FindFrom(t.kids, t.kids[a[0]].rec.name, 0) == a[0] && FirstAlong(t.kids[a[0]], a[1..]))
  }

  /** The names on the way lead back to the address exactly when each is found first. */
  lemma {:induction false} NamesLookup(t: Tree, a: Address)
    requires Valid(t, a)
    ensures Lookup(t, Names(t, a)) == Some(a) <==> FirstAlong(t, a)
    decreases |a|
  {
    if a != [] {
      var path, i := Names(t, a), a[0];
      assert path[0] == t.kids[i].rec.name && path[1..] == Names(t.kids[i], a[1..]) && a == [i] + a[1..];
      NamesLookup(t.kids[i], a[1..]);
    }
  }

  /** Print, parse and look up: the printed path of an entry leads back to the entry. */
  lemma PrintParseLookup(t: Tree, a: Address)
    requires Valid(t, a) && a != [] && AllCanonical(Names(t, a)) && FirstAlong(t, a)
    requires FileName(At(t, a).rec.name) != []
    ensures var parsed := ParseOf(Slashed(Names(t, a)));
            parsed.Components? && Lookup(t, parsed.path) == Some(a)
  {
    LastNameAt(t, a);
    PrintedPathParses(Names(t, a));
    NamesLookup(t, a);
  }

  lemma {:induction false} LastNameAt(t: Tree, a: Address)
    requires Valid(t, a) && a != []
    ensures Names(t, a)[|a| - 1] == At(t, a).rec.name
    decreases |a|
  {
    if |a| > 1 {
      LastNameAt(t.kids[a[0]], a[1..]);
    }
  }

  lemma {:induction false} NamesAbove(t: Tree, a: Address, k: nat)
    requires Valid(t, a) && k <= |a|
    ensures Valid(t, a[..k]) && Names(t, a[..k]) == Names(t, a)[..k]
    decreases |a|
  {
    if k > 0 {
      assert a[..k][1..] == a[1..][..k - 1];
      NamesAbove(t.kids[a[0]], a[1..], k - 1);
    }
  }

  // ----- the code -----

  /** The entry and its directories are in use. */
  predicate UsedAlong(t: Tree, a: Address)
    requires Valid(t, a)
  {
    a == [] || (Used(t.kids[a[0]].rec) && UsedAlong(t.kids[a[0]], a[1..]))
  }

  lemma {:induction false} UsedAbove(t: Tree, a: Address, k: nat)
    requires Valid(t, a) && UsedAlong(t, a) && 0 < k <= |a|
    ensures Valid(t, a[..k]) && Used(At(t, a[..k]).rec)
    decreases |a|
  {
    assert a[..k][1..] == a[1..][..k - 1];
    if k > 1 {
      UsedAbove(t.kids[a[0]], a[1..], k - 1);
    }
  }

  lemma NameStep(q: Ground, a: Address, k: nat)
    requires Firm(q) && Valid(q.t, a) && 0 < k <= |a|
    ensures SubShape(q.s, a[..k]).self.rec.name == Names(q.t, a)[k - 1]
  {
    NamesAbove(q.t, a, k);
    LastNameAt(q.t, a[..k]);
    RepSplit(q.s, q.t, a[..k]);
  }

  lemma ParentStep(q: Ground, a: Address, k: nat)
    requires Firm(q) && Valid(q.t, a) && UsedAlong(q.t, a) && 0 < k <= |a|
    ensures SubShape(q.s, a[..k]).self.parent == SubShape(q.s, a[..k - 1]).self
  {
    UsedAbove(q.t, a, k);
    ParentLink(q, a[..k]);
    assert Up(a[..k]) == a[..k - 1];
  }

  /** A step of the loops: the entry at the first `k` slot numbers of `a`, its name, and its parent. */
  lemma StepAt(q: Ground, a: Address, k: nat)
    requires Firm(q) && Valid(q.t, a) && UsedAlong(q.t, a) && 0 < k <= |a|
    ensures var o := SubShape(q.s, a[..k]).self;
            && o.rec.name == Names(q.t, a)[k - 1] && o.parent == SubShape(q.s, a[..k - 1]).self
            && (k > 1 ==> SubShape(q.s, a[..k - 1]).self.parent != null)
  {
    NameStep(q, a, k);
    ParentStep(q, a, k);
    if k > 1 {
      ParentStep(q, a, k - 1);
    }
  }

  method CountNonSpaces(s: Text) returns (n: nat)
    ensures n == NonSpaces(s)
  {
    n := 0;
    for i := 0 to |s|
      invariant n + NonSpaces(s[i..]) == NonSpaces(s)
    {
      assert s[i..][1..] == s[i + 1..];
      if s[i] != SPACE {
        n := n + 1;
      }
    }
  }

  /** The part of the length that the characters of a name take. */
  method CountName(n: ShortName) returns (length: nat)
    ensures length == CountedLength(n)
  {
    var inName := CountNonSpaces(n[..8]);
    var inExtension := CountNonSpaces(n[8..]);
    length := inName + (if n[8] != SPACE then 1 else 0) + inExtension;
  }

  /** The state of both loops: the entry at the first `k` slot numbers of `a`. */
  ghost predicate Climbing(q: Ground, a: Address, k: nat, current: DirectoryEntry?)
    reads Objects(q.s)
  {
    && Firm(q) && Valid(q.t, a) && UsedAlong(q.t, a) && q.s.self.parent == null
    && k <= |a| && current == SubShape(q.s, a[..k]).self
  }

  /** One step up: the entry's name, its directory, and whether that is the root directory. */
  method Climb(current: DirectoryEntry, ghost q: Ground, ghost a: Address, ghost k: nat)
    returns (name: ShortName, up: DirectoryEntry?, top: bool)
    requires Climbing(q, a, k, current) && 0 < k
    ensures Climbing(q, a, k - 1, up) && name == Names(q.t, a)[k - 1] && up != null && (top <==> k == 1)
  {
    StepAt(q, a, k);
    name := current.rec.name;
    up := current.parent;
    top := up == null || up.parent == null;
    assert k == 1 ==> a[..k - 1] == [];
  }

  lemma CountedStep(names: seq<ShortName>, k: nat)
    requires 0 < k <= |names|
    ensures CountedAll(names[k - 1..]) == 1 + CountedLength(names[k - 1]) + CountedAll(names[k..])
    ensures Slashed(names[k - 1..]) == [SLASH] + Shown(names[k - 1]) + Slashed(names[k..])
  {
    assert names[k - 1..][0] == names[k - 1] && names[k - 1..][1..] == names[k..];
  }

  /** The path of the entry: the names below the root directory, or the root directory's own name, which is blank. */
  function PathText(t: Tree, a: Address): Text
    requires Valid(t, a)
  {
    if a == [] then Shown(t.rec.name) else Slashed(Names(t, a))
  }

  function CountedPath(t: Tree, a: Address): nat
    requires Valid(t, a)
  {
    if a == [] then CountedLength(t.rec.name) else CountedAll(Names(t, a))
  }

  /** The root directory has the empty path. */
  lemma RootPath(t: Tree)
    requires AllSpaces(t.rec.name)
    ensures PathText(t, []) == [] && CountedPath(t, []) == 0
  {
    BlankPrintsEmpty(t.rec.name);
    NonSpacesBound(t.rec.name[..8]);
    NonSpacesBound(t.rec.name[8..]);
  }

  /** Only the root directory has no parent. */
  lemma TopIsRoot(q: Ground, a: Address, entry: DirectoryEntry)
    requires Climbing(q, a, |a|, entry)
    ensures entry.parent == null <==> a == []
    ensures a == [] ==> entry.rec == q.t.rec
  {
    assert a[..|a|] == a;
    if a != [] {
      StepAt(q, a, |a|);
    }
  }

  /** _lf12_get_path_length */
  method GetPathLength(entry: DirectoryEntry, ghost q: Ground, ghost a: Address) returns (length: nat)
    requires Climbing(q, a, |a|, entry)
    ensures length == 1 + CountedPath(q.t, a)
  {
    TopIsRoot(q, a, entry);
    if entry.parent == null {
      var n := CountName(entry.rec.name);
      return 1 + n;
    }
    length := CountBelowRoot(entry, q, a);
  }

  /** The loop for an entry below the root directory. */
  method CountBelowRoot(entry: DirectoryEntry, ghost q: Ground, ghost a: Address) returns (length: nat)
    requires Climbing(q, a, |a|, entry) && a != []
    ensures length == 1 + CountedAll(Names(q.t, a))
  {
    length := 1;
    var current: DirectoryEntry?, top := entry, false;
    ghost var k: nat, names := |a|, Names(q.t, a);
    assert CountedAll(names[|a|..]) == 0 && allocated(Objects(q.s));
    while !top
      invariant k <= |a| && Climbing(q, a, k, current) && (top <==> k == 0)
      invariant length == 1 + CountedAll(names[k..])
      decreases k
    {
      var name;
      name, current, top := Climb(current, q, a, k);
      CountedStep(names, k);
      k := k - 1;
      var n := CountName(name);
      length := length + n;
      if current != null {
        length := length + 1;
      }
    }
    assert names[0..] == names;
  }

  lemma {:induction false} SlashedLonger(names: seq<ShortName>, k: nat)
    requires k <= |names|
    ensures |Slashed(names[k..])| <= |Slashed(names)|
  {
    if k > 0 {
      SlashedLonger(names[1..], k - 1);
      assert names[1..][k - 1..] == names[k..];
    } else {
      assert names[0..] == names;
    }
  }

  /** A printed name up to its first zero byte, as strlen sees it. */
  method ShowName(name: ShortName) returns (shown: Text)
    ensures shown == Shown(name)
  {
    var printed := GetFileName(name);
    var n := 0;
    while n < |printed| && printed[n] != 0
      invariant n <= |printed| && NoZero(printed[..n])
    {
      assert printed[..n + 1] == printed[..n] + [printed[n]];
      n := n + 1;
    }
    UpToZeroIs(printed, n);
    shown := printed[..n];
  }

  lemma {:induction false} UpToZeroIs(s: Text, n: nat)
    requires n <= |s| && NoZero(s[..n]) && (n < |s| ==> s[n] == 0)
    ensures UpToZero(s) == s[..n]
    decreases n
  {
    if n > 0 {
      assert s[1..][..n - 1] == s[..n][1..] && s[..n][0] == s[0];
      UpToZeroIs(s[1..], n - 1);
      assert s[..n] == [s[0]] + s[1..][..n - 1];
    }
  }

  /** Writes a name in front of what the buffer holds from `at` on; false if there is no room. */
  method WriteName(buffer: array<Byte>, at: nat, name: ShortName) returns (fits: bool, start: nat)
    requires at <= buffer.Length
    modifies buffer
    ensures fits <==> |Shown(name)| <= at
    ensures fits ==> start == at - |Shown(name)| && buffer[start..] == Shown(name) + old(buffer[at..])
  {
    var shown := ShowName(name);
    if |shown| > at {
      return false, at;
    }
    start := at - |shown|;
    ghost var rest := buffer[at..];
    forall i | 0 <= i < |shown| {
      buffer[start + i] := shown[i];
    }
    assert buffer[start..] == shown + rest;
    fits := true;
  }

  /** Writes a slash and a name in front of what the buffer holds from `at` on; false if there is no room. */
  method WriteBefore(buffer: array<Byte>, at: nat, name: ShortName) returns (fits: bool, start: nat)
    requires at <= buffer.Length
    modifies buffer
    ensures fits <==> 1 + |Shown(name)| <= at
    ensures fits ==> start == at - |Shown(name)| - 1 &&
                     buffer[start..] == [SLASH] + Shown(name) + old(buffer[at..])
  {
    ghost var rest := buffer[at..];
    fits, start := WriteName(buffer, at, name);
    if !fits || start == 0 {
      return false, at;
    }
    assert buffer[start..] == Shown(name) + rest;
    start := start - 1;
    buffer[start] := SLASH;
    assert buffer[start..] == [SLASH] + (Shown(name) + rest);
    fits := true;
  }

  /** The buffer holds the names from the `k`-th on and the zero byte from `at` on. */
  ghost predicate Held(b: Text, at: nat, names: seq<ShortName>, k: nat) {
    k <= |names| && at <= |b| && |b| == 1 + CountedAll(names) && b[at..] == Slashed(names[k..]) + [0]
  }

  /** One more name in front. */
  lemma HeldStep(b: Text, at: nat, b': Text, start: nat, names: seq<ShortName>, k: nat)
    requires 0 < k && Held(b, at, names, k) && |b'| == |b| && start <= |b|
    requires b'[start..] == [SLASH] + Shown(names[k - 1]) + b[at..]
    ensures Held(b', start, names, k - 1)
  {
    var head, rest := [SLASH] + Shown(names[k - 1]), Slashed(names[k..]);
    CountedStep(names, k);
    assert head + (rest + [0]) == (head + rest) + [0];
  }

  /** Where a name does not fit, the whole path does not. */
  lemma NoRoom(b: Text, at: nat, names: seq<ShortName>, k: nat)
    requires 0 < k && Held(b, at, names, k) && 1 + |Shown(names[k - 1])| > at
    ensures |Slashed(names)| > CountedAll(names)
  {
    CountedStep(names, k);
    SlashedLonger(names, k - 1);
    assert |b[at..]| == |b| - at;
  }

  method Prepend(buffer: array<Byte>, at: nat, name: ShortName, ghost names: seq<ShortName>, ghost k: nat)
    returns (fits: bool, start: nat)
    requires 0 < k && Held(buffer[..], at, names, k) && name == names[k - 1]
    modifies buffer
    ensures fits ==> Held(buffer[..], start, names, k - 1)
    ensures !fits ==> |Slashed(names)| > CountedAll(names)
  {
    ghost var b := buffer[..];
    assert b[at..] == buffer[at..];
    fits, start := WriteBefore(buffer, at, name);
    if fits {
      assert buffer[..][start..] == buffer[start..];
      HeldStep(b, at, buffer[..], start, names, k);
    } else {
      NoRoom(b, at, names, k);
    }
  }

  /** One turn of the loop. */
  method PrintStep(current: DirectoryEntry, buffer: array<Byte>, at: nat, ghost q: Ground, ghost a: Address, ghost k: nat)
    returns (fits: bool, start: nat, up: DirectoryEntry?, top: bool)
    requires Climbing(q, a, k, current) && 0 < k && Held(buffer[..], at, Names(q.t, a), k)
    modifies buffer
    ensures fits ==> Climbing(q, a, k - 1, up) && (top <==> k == 1) && Held(buffer[..], start, Names(q.t, a), k - 1)
    ensures !fits ==> |Slashed(Names(q.t, a))| > CountedAll(Names(q.t, a))
  {
    hide Held, Slashed, CountedAll;
    var name;
    assert allocated(Objects(q.s));
    name, up, top := Climb(current, q, a, k);
    fits, start := Prepend(buffer, at, name, Names(q.t, a), k);
  }

  /**
   lf12_get_entry_path: `inside` tells whether the path stays inside the buffer that was sized by
   _lf12_get_path_length, `unused` how much of it is left before the path.
   */
  method GetEntryPath(entry: DirectoryEntry, ghost q: Ground, ghost a: Address)
    returns (inside: bool, path: Text, unused: nat)
    requires Climbing(q, a, |a|, entry)
    ensures inside <==> |PathText(q.t, a)| <= CountedPath(q.t, a)
    ensures inside ==> path == PathText(q.t, a) && unused == CountedPath(q.t, a) - |path|
  {
    assert allocated(Objects(q.s));
    var length := GetPathLength(entry, q, a);
    assert Climbing(q, a, |a|, entry);
    var buffer := new Byte[length](i => 0);
    TopIsRoot(q, a, entry);
    if entry.parent == null {
      inside, path, unused := PrintRoot(entry.rec.name, buffer);
      return;
    }
    inside, path, unused := PrintBelowRoot(entry, buffer, q, a);
  }

  /** The single turn for the root directory, without a slash. */
  method PrintRoot(name: ShortName, buffer: array<Byte>) returns (inside: bool, path: Text, unused: nat)
    requires buffer.Length == 1 + CountedLength(name)
    modifies buffer
    ensures inside <==> |Shown(name)| <= CountedLength(name)
    ensures inside ==> path == Shown(name) && unused == CountedLength(name) - |path|
  {
    var end := buffer.Length - 1;
    inside, unused := WriteName(buffer, end, name);
    path := [];
    if inside {
      path := buffer[unused..end];
      assert path == buffer[unused..][..end - unused];
    }
  }

  /** The loop for an entry below the root directory. */
  method PrintBelowRoot(entry: DirectoryEntry, buffer: array<Byte>, ghost q: Ground, ghost a: Address)
    returns (inside: bool, path: Text, unused: nat)
    requires Climbing(q, a, |a|, entry) && a != [] && buffer.Length == 1 + CountedAll(Names(q.t, a))
    requires buffer[buffer.Length - 1] == 0
    modifies buffer
    ensures var names := Names(q.t, a);
            && (inside <==> |Slashed(names)| <= CountedAll(names))
            && (inside ==> path == Slashed(names) && unused == CountedAll(names) - |Slashed(names)|)
  {
    inside, path := true, [];
    ghost var names := Names(q.t, a);
    assert allocated(Objects(q.s)) && names[|a|..] == [];
    unused := buffer.Length - 1;
    var current: DirectoryEntry?, top := entry, false;
    ghost var k: nat := |a|;
    while !top
      invariant k <= |a| && Climbing(q, a, k, current) && (top <==> k == 0) && inside
      invariant Held(buffer[..], unused, names, k)
      decreases k
    {
      inside, unused, current, top := PrintStep(current, buffer, unused, q, a, k);
      if !inside {
        return;
      }
      k := k - 1;
    }
    path := HeldPath(buffer, unused, names);
  }

  method HeldPath(buffer: array<Byte>, at: nat, ghost names: seq<ShortName>) returns (path: Text)
    requires Held(buffer[..], at, names, 0)
    ensures path == Slashed(names) && at + |path| == CountedAll(names)
  {
    assert names[0..] == names && buffer[..][at..] == buffer[at..];
    path := buffer[at..buffer.Length - 1];
    assert buffer[at..][..buffer.Length - 1 - at] == path;
  }

  /** The buffer is filled exactly when no canonical name on the way has a space inside; else it is overrun. */
  lemma PathFits(names: seq<ShortName>)
    requires AllCanonical(names)
    ensures |Slashed(names)| <= CountedAll(names) <==> forall i :: 0 <= i < |names| ==> NoInnerSpace(names[i])
    ensures |Slashed(names)| <= CountedAll(names) ==> CountedAll(names) == |Slashed(names)|
  {
    SlashedLength(names);
  }
}
