/** Strings that name entries: splitting, parsing, normalising and printing (src/libfat12/path.c, src/common.c). */
module Paths {
  import opened Bytes
  import opened Options
  import opened Errors
  import opened Trees
  import opened Creation
  import opened ShortNames

  // ----- parts between slashes -----

  predicate NoSlash(s: Text) {
    forall i :: 0 <= i < |s| ==> s[i] != SLASH
  }

  /** A C string has no zero byte before its end. */
  predicate NoZero(s: Text) {
    forall i :: 0 <= i < |s| ==> s[i] != 0
  }

  /** The parts of a string between its slashes, in order. */
  function Parts(s: Text): (r: seq<Text>)
    ensures r != []
  {
    if s == [] then [[]]
    else
      var r := Parts(s[1..]);
      if s[0] == SLASH then [[]] + r else [[s[0]] + r[0]] + r[1..]
  }

  function Join(parts: seq<Text>): Text
    requires parts != []
  {
    if |parts| == 1 then parts[0] else parts[0] + [SLASH] + Join(parts[1..])
  }

  /** Splitting loses nothing: the parts have no slash and make up the string again. */
  lemma {:induction false} PartsJoined(s: Text)
    ensures Join(Parts(s)) == s && forall k :: 0 <= k < |Parts(s)| ==> NoSlash(Parts(s)[k])
  {
    if s != [] {
      PartsJoined(s[1..]);
      var r := Parts(s[1..]);
      if s[0] == SLASH {
        assert ([[]] + r)[1..] == r;
      } else if |r| > 1 {
        assert ([[s[0]] + r[0]] + r[1..])[1..] == r[1..];
      }
    }
  }

  lemma {:induction false} PartsOfJoin(parts: seq<Text>)
    requires parts != [] && forall k :: 0 <= k < |parts| ==> NoSlash(parts[k])
    ensures Parts(Join(parts)) == parts
    decreases |parts|
  {
    assert parts[0] + [] == parts[0] && parts == [parts[0]] + parts[1..];
    if |parts| == 1 {
      PartsPrefix(parts[0], []);
    } else {
      PartsOfJoin(parts[1..]);
      PartsPrefix(parts[0], [SLASH] + Join(parts[1..]));
      assert parts[0] + [SLASH] + Join(parts[1..]) == parts[0] + ([SLASH] + Join(parts[1..]));
      assert ([SLASH] + Join(parts[1..]))[1..] == Join(parts[1..]);
      assert ([[]] + parts[1..])[1..] == parts[1..];
    }
  }

  /** A slashless string in front extends the first part. */
  lemma {:induction false} PartsPrefix(p: Text, s: Text)
    requires NoSlash(p)
    ensures Parts(p + s) == [p + Parts(s)[0]] + Parts(s)[1..]
  {
    if p == [] {
      assert p + s == s && p + Parts(s)[0] == Parts(s)[0];
    } else {
      assert (p + s)[1..] == p[1..] + s;
      PartsPrefix(p[1..], s);
      assert [p[0]] + (p[1..] + Parts(s)[0]) == p + Parts(s)[0];
    }
  }

  // ----- the splitter -----

  /** What is left after one slash at the beginning. */
  function WithoutLeading(input: Text): Text {
    if input != [] && input[0] == SLASH then input[1..] else input
  }

  /** What is left after one slash at the end. */
  function WithoutTrailing(s: Text): Text {
    if s != [] && s[|s| - 1] == SLASH then s[..|s| - 1] else s
  }

  predicate EndsInSlash(s: Text) {
    s != [] && s[|s| - 1] == SLASH
  }

  /**
   What _lf12_split_input makes of a string: no parts, or the parts between the slashes; when a slash is still at
   the end, then the pointer to the last part is not set.
   */
  function SplitParts(input: Text): (r: seq<Option<Text>>) {
    var s := WithoutLeading(input);
    if s == [] then []
    else
      var t := WithoutTrailing(s);
      var parts := Parts(t);
      seq(|parts|, k requires 0 <= k < |parts| =>
        if EndsInSlash(t) && k == |parts| - 1 then None else Some(parts[k]))
  }

  /** The characters before the first slash. */
  function UpToSlash(s: Text): Text {
    if s == [] || s[0] == SLASH then [] else [s[0]] + UpToSlash(s[1..])
  }

  /** The characters before the first zero byte. */
  function UpToZero(s: Text): Text {
    if s == [] || s[0] == 0 then [] else [s[0]] + UpToZero(s[1..])
  }

  /** Where the parts begin that follow a slash at index `i` or later. */
  function Starts(t: Text, i: nat): (r: seq<nat>)
    ensures forall k :: 0 <= k < |r| ==> i < r[k] <= |t|
    decreases |t| - i
  {
    if i >= |t| then []
    else if t[i] == SLASH then [i + 1] + Starts(t, i + 1)
    else Starts(t, i + 1)
  }

  /** The part that begins at an index. */
  function PartAt(t: Text, start: nat): Text
    requires start <= |t|
  {
    UpToSlash(t[start..])
  }

  /** The parts, by where they begin. */
  lemma {:induction false} PartsByStart(t: Text, i: nat)
    requires i <= |t|
    ensures var parts, starts := Parts(t[i..]), Starts(t, i);
            && |parts| == 1 + |starts| && parts[0] == PartAt(t, i)
            && forall k :: 0 <= k < |starts| ==> parts[k + 1] == PartAt(t, starts[k])
    decreases |t| - i
  {
    if i < |t| {
      assert t[i..][1..] == t[i + 1..];
      PartsByStart(t, i + 1);
    }
  }

  /** The buffer with its slashes replaced by string ends. */
  function Cut(t: Text): (r: Text)
    ensures |r| == |t| && forall i :: 0 <= i < |t| ==> r[i] == if t[i] == SLASH then 0 else t[i]
  {
    seq(|t|, i requires 0 <= i < |t| => if t[i] == SLASH then 0 else t[i])
  }

  lemma {:induction false} CutPart(t: Text, raw: Text, start: nat)
    requires NoZero(t) && start <= |t| < |raw| && raw[|t|] == 0 && raw[..|t|] == Cut(t)
    ensures UpToZero(raw[start..]) == PartAt(t, start)
    decreases |t| - start
  {
    assert start < |t| ==> raw[start] == raw[..|t|][start];
    assert raw[start..][1..] == raw[start + 1..];
    if start < |t| && t[start] != SLASH {
      assert t[start..][1..] == t[start + 1..];
      CutPart(t, raw, start + 1);
    }
  }

  /** Counts the parts and replaces the slashes. */
  method CutAtSlashes(raw: array<Byte>, length: nat, ghost t: Text) returns (count: nat)
    requires length == |t| + 1 <= raw.Length && raw[..length] == t + [0]
    modifies raw
    ensures raw[..|t|] == Cut(t) && raw[|t|] == 0 && count == 1 + |Starts(t, 0)|
  {
    count := 1;
    for i := 0 to length
      invariant forall j :: i <= j < length ==> raw[j] == (t + [0])[j]
      invariant forall j :: 0 <= j < i && j < |t| ==> raw[j] == Cut(t)[j]
      invariant i > |t| ==> raw[|t|] == 0
      invariant count + |Starts(t, i)| == 1 + |Starts(t, 0)|
    {
      if raw[i] == SLASH {
        count := count + 1;
        raw[i] := 0;
      }
    }
  }

  /** The starts that the second loop stores; a part after a slash at the very end gets none. */
  function StoredStarts(t: Text): (r: seq<Option<nat>>)
    ensures |r| == 1 + |Starts(t, 0)|
  {
    [Some(0)] + seq(|Starts(t, 0)|, k requires 0 <= k < |Starts(t, 0)| =>
                  if Starts(t, 0)[k] == |t| then None else Some(Starts(t, 0)[k]))
  }

  /** After the last slash but one that ends the string, only the start behind that slash is left. */
  lemma LastStart(t: Text)
    requires t != []
    ensures Starts(t, |t| - 1) == if EndsInSlash(t) then [|t|] else []
  {
    assert Starts(t, |t|) == [];
  }

  /** The state of the second loop: the starts up to index `i` are stored. */
  ghost predicate StartsStored(st: seq<Option<nat>>, t: Text, i: nat, part: nat) {
    var all := Starts(t, 0);
    && i <= |t| && (t != [] ==> i < |t|) && part <= |all| && Starts(t, i) == all[part..]
    && (forall k :: 0 <= k < part ==> all[k] <= i)
    && |st| == 1 + |all| && st[0] == Some(0)
    && forall k :: 1 <= k < |st| ==> st[k] == if k <= part then Some(all[k - 1]) else None
  }

  lemma StoreNone(st: seq<Option<nat>>, t: Text, i: nat, part: nat)
    requires StartsStored(st, t, i, part) && i + 1 < |t| && t[i] != SLASH
    ensures StartsStored(st, t, i + 1, part)
  {
  }

  lemma StoreOne(st: seq<Option<nat>>, t: Text, i: nat, part: nat)
    requires StartsStored(st, t, i, part) && i + 1 < |t| && t[i] == SLASH
    ensures part + 1 < |st| && StartsStored(st[part + 1 := Some(i + 1)], t, i + 1, part + 1)
  {
    var all := Starts(t, 0);
    assert all[part..][0] == all[part] == i + 1 && all[part..][1..] == all[part + 1..];
  }

  lemma StoreEnd(st: seq<Option<nat>>, t: Text, i: nat, part: nat)
    requires StartsStored(st, t, i, part) && i + 1 >= |t|
    ensures st == StoredStarts(t)
  {
    var all := Starts(t, 0);
    if t != [] {
      LastStart(t);
    }
    forall k | part <= k < |all| ensures all[k] == |t| {
      assert all[k] == all[part..][k - part];
    }
  }

  /** Stores where the parts begin. */
  method StoreStarts(raw: array<Byte>, length: nat, starts: array<Option<nat>>, ghost t: Text)
    requires length == |t| + 1 <= raw.Length && raw[..|t|] == Cut(t) && NoZero(t)
    requires starts.Length == 1 + |Starts(t, 0)| && starts[..] == [Some(0)] + seq(starts.Length - 1, k => None)
    modifies starts
    ensures starts[..] == StoredStarts(t)
  {
    var part, i := 0, 0;
    while i < length - 2
      invariant StartsStored(starts[..], t, i, part)
    {
      assert raw[i] == raw[..|t|][i];
      if raw[i] == 0 {
        StoreOne(starts[..], t, i, part);
        ghost var before := starts[..];
        part := part + 1;
        starts[part] := Some(i + 1);
        assert starts[..] == before[part := Some(i + 1)];
      } else {
        StoreNone(starts[..], t, i, part);
      }
      i := i + 1;
    }
    StoreEnd(starts[..], t, i, part);
  }

  /** The string that begins at an index of the buffer. */
  method StringAt(raw: array<Byte>, start: nat) returns (s: Text)
    requires start < raw.Length
    ensures s == UpToZero(raw[start..])
  {
    s := [];
    var i := start;
    while i < raw.Length && raw[i] != 0
      invariant start <= i <= raw.Length && s + UpToZero(raw[i..]) == UpToZero(raw[start..])
    {
      assert raw[i..][1..] == raw[i + 1..];
      s := s + [raw[i]];
      i := i + 1;
    }
  }

  lemma StoredParts(t: Text, raw: Text, k: nat)
    requires NoZero(t) && |t| < |raw| && raw[|t|] == 0 && raw[..|t|] == Cut(t) && k < |StoredStarts(t)|
    ensures |StoredStarts(t)| == |Parts(t)|
    ensures StoredStarts(t)[k] == None <==> EndsInSlash(t) && k == |Parts(t)| - 1
    ensures StoredStarts(t)[k].Some? ==> StoredStarts(t)[k].value < |raw| &&
                                         UpToZero(raw[StoredStarts(t)[k].value..]) == Parts(t)[k]
  {
    assert t[0..] == t;
    PartsByStart(t, 0);
    UnsetStart(t, k);
    if StoredStarts(t)[k].Some? {
      CutPart(t, raw, StoredStarts(t)[k].value);
    }
  }

  lemma UnsetStart(t: Text, k: nat)
    requires k < |StoredStarts(t)|
    ensures StoredStarts(t)[k] == None <==> EndsInSlash(t) && k == |StoredStarts(t)| - 1
  {
    LastOfStarts(t, 0);
    StartsIncrease(t, 0);
  }

  /** A part begins at the end exactly when the string ends in a slash, and it is the last part then. */
  lemma {:induction false} LastOfStarts(t: Text, i: nat)
    requires i <= |t|
    ensures var starts := Starts(t, i);
            i < |t| && EndsInSlash(t) <==> starts != [] && starts[|starts| - 1] == |t|
    decreases |t| - i
  {
    if i < |t| {
      LastOfStarts(t, i + 1);
    }
  }

  lemma {:induction false} StartsIncrease(t: Text, i: nat)
    ensures forall j, k :: 0 <= j < k < |Starts(t, i)| ==> Starts(t, i)[j] < Starts(t, i)[k]
    decreases |t| - i
  {
    if i < |t| {
      StartsIncrease(t, i + 1);
    }
  }

  /** _lf12_split_input; a part whose pointer is not set is None. */
  method SplitInput(input: Text) returns (err: Error, parts: seq<Option<Text>>)
    requires NoZero(input)
    ensures err == (if WithoutLeading(input) == [] then EmptyPath else Success) && parts == SplitParts(input)
  {
    var rest := input;
    if |rest| > 0 && rest[0] == SLASH {
      rest := rest[1..];
    }
    if |rest| == 0 {
      return EmptyPath, [];
    }
    ghost var t := WithoutTrailing(rest);
    var length := |rest| + 1;
    var raw := new Byte[length](i => if 0 <= i < |rest| then rest[i] else 0);
    if raw[length - 2] == SLASH {
      raw[length - 2] := 0;
      length := length - 1;
    }
    assert raw[..length] == t + [0];
    var count := CutAtSlashes(raw, length, t);
    var starts := new Option<nat>[count](i => None);
    starts[0] := Some(0);
    StoreStarts(raw, length, starts, t);
    parts := ReadParts(raw, starts, t);
    err := Success;
    assert parts == SplitParts(input);
  }

  /** The strings that the stored pointers lead to. */
  method ReadParts(raw: array<Byte>, starts: array<Option<nat>>, ghost t: Text) returns (parts: seq<Option<Text>>)
    requires NoZero(t) && |t| < raw.Length && raw[|t|] == 0 && raw[..|t|] == Cut(t) && starts[..] == StoredStarts(t)
    ensures |parts| == |Parts(t)|
    ensures forall k :: 0 <= k < |parts| ==>
              parts[k] == if EndsInSlash(t) && k == |Parts(t)| - 1 then None else Some(Parts(t)[k])
  {
    parts := [];
    StoredParts(t, raw[..], 0);
    for k := 0 to starts.Length
      invariant |parts| == k
      invariant forall j :: 0 <= j < k ==>
                  parts[j] == if EndsInSlash(t) && j == |Parts(t)| - 1 then None else Some(Parts(t)[j])
    {
      StoredParts(t, raw[..], k);
      assert starts[k] == starts[..][k];
      if starts[k].Some? {
        assert raw[..][starts[k].value..] == raw[starts[k].value..];
        var s := StringAt(raw, starts[k].value);
        parts := parts + [Some(s)];
      } else {
        parts := parts + [None];
      }
    }
  }

  predicate EndsInTwoSlashes(s: Text) {
    |s| > 1 && s[|s| - 1] == SLASH && s[|s| - 2] == SLASH
  }

  function Values(parts: seq<Option<Text>>): seq<Text>
    requires forall k :: 0 <= k < |parts| ==> parts[k].Some?
  {
    seq(|parts|, k requires 0 <= k < |parts| => parts[k].value)
  }

  /**
   All parts are set exactly when the input, after one leading slash, does not end in two slashes; then they have
   no slash and make up the input again, without one slash at either end.
   */
  lemma SplitIsExact(input: Text)
    requires WithoutLeading(input) != []
    ensures var parts := SplitParts(input);
            (forall k :: 0 <= k < |parts| ==> parts[k].Some?) <==> !EndsInTwoSlashes(WithoutLeading(input))
    ensures var parts := SplitParts(input);
            (forall k :: 0 <= k < |parts| ==> parts[k].Some?) ==>
              && parts != [] && Join(Values(parts)) == WithoutTrailing(WithoutLeading(input))
              && forall k :: 0 <= k < |parts| ==> NoSlash(parts[k].value)
  {
    var parts, t := SplitParts(input), WithoutTrailing(WithoutLeading(input));
    PartsJoined(t);
    if EndsInSlash(t) {
      assert parts[|parts| - 1].None?;
    } else {
      assert Values(parts) == Parts(t);
    }
  }

  // ----- parsing -----

  /** The outcome of lf12_parse_path; Garbage stands for a use of the pointer that is not set. */
  datatype Parsed = NoPath | Garbage | Components(path: Path)

  function ConvertedAll(parts: seq<Text>): (r: Path)
    ensures |r| == |parts| && forall i :: 0 <= i < |r| ==> r[i] == Converted(parts[i])
  {
    seq(|parts|, i requires 0 <= i < |parts| => Converted(parts[i]))
  }

  /** What a string is parsed to. */
  function ParseOf(input: Text): Parsed {
    ParseRest(WithoutLeading(input))
  }

  function ParseRest(s: Text): Parsed {
    var t := WithoutTrailing(s);
    if s == [] then NoPath
    else if EndsInSlash(t) then Garbage
    else Components(ConvertedAll(Parts(t)))
  }

  /** _lf12_build_path; None if a part is not set. */
  method BuildPath(parts: seq<Option<Text>>) returns (path: Option<Path>)
    requires parts != []
    ensures path.None? <==> exists k :: 0 <= k < |parts| && parts[k].None?
    ensures path.Some? ==> |path.value| == |parts| && forall k :: 0 <= k < |parts| ==> path.value[k] == Converted(parts[k].value)
    decreases |parts|
  {
    if parts[0].None? {
      return None;
    }
    var name := ConvertName(parts[0].value);
    if |parts| == 1 {
      return Some([name]);
    }
    var descendant := BuildPath(parts[1..]);
    assert forall k :: 1 <= k < |parts| ==> parts[k] == parts[1..][k - 1];
    assert forall k :: 0 <= k < |parts| - 1 ==> parts[1..][k] == parts[k + 1];
    if descendant.None? {
      return None;
    }
    path := Some([name] + descendant.value);
  }

  /** lf12_parse_path */
  method ParsePath(input: Text) returns (parsed: Parsed)
    requires NoZero(input)
    ensures parsed == ParseOf(input)
  {
    var err, parts := SplitInput(input);
    if err != Success {
      return NoPath;
    }
    ghost var t := WithoutTrailing(WithoutLeading(input));
    assert |parts| == |Parts(t)|;
    assert parts[|parts| - 1].None? <==> EndsInSlash(t);
    var path := BuildPath(parts);
    if path.None? {
      return Garbage;
    }
    assert path.value == ConvertedAll(Parts(t));
    parsed := Components(path.value);
  }

  /** Every parsed component is a canonical name; so no parsed path can lead to a free slot or a dot entry. */
  lemma ParsedIsPlain(input: Text)
    requires ParseOf(input).Components?
    ensures var path := ParseOf(input).path; path != [] && Plain(path) && forall i :: 0 <= i < |path| ==> Canonical(path[i])
  {
    var parts := Parts(WithoutTrailing(WithoutLeading(input)));
    forall i | 0 <= i < |parts| ensures Canonical(Converted(parts[i])) && PlainName(Converted(parts[i])) {
      ConvertedIsCanonical(parts[i]);
      CanonicalIsPlain(Converted(parts[i]));
    }
  }

  // ----- printed names joined by slashes -----

  predicate AllCanonical(path: Path) {
    forall i :: 0 <= i < |path| ==> Canonical(path[i])
  }

  function PrintedAll(path: Path): (r: seq<Text>)
    ensures |r| == |path| && forall i :: 0 <= i < |r| ==> r[i] == FileName(path[i])
  {
    seq(|path|, i requires 0 <= i < |path| => FileName(path[i]))
  }

  lemma PrintedParts(path: Path)
    requires path != [] && AllCanonical(path)
    ensures Parts(Join(PrintedAll(path))) == PrintedAll(path) && ConvertedAll(PrintedAll(path)) == path
  {
    forall i | 0 <= i < |path| ensures NoSlash(PrintedAll(path)[i]) && Converted(PrintedAll(path)[i]) == path[i] {
      PrintedHasNoSlash(path[i]);
      PrintThenConvert(path[i]);
    }
    PartsOfJoin(PrintedAll(path));
  }

  lemma {:induction false} PartsOfTrailing(t: Text)
    ensures Parts(t + [SLASH]) == Parts(t) + [[]]
  {
    if t == [] {
      assert t + [SLASH] == [SLASH] && [SLASH][1..] == [];
    } else {
      assert (t + [SLASH])[1..] == t[1..] + [SLASH];
      PartsOfTrailing(t[1..]);
    }
  }

  /** A slash at the end is an empty last part. */
  lemma TrailingIsEmptyLast(s: Text)
    ensures var parts, last := Parts(s), Parts(s)[|Parts(s)| - 1];
            && (s == [] <==> parts == [[]])
            && (EndsInSlash(s) <==> |parts| > 1 && last == [])
            && (EndsInSlash(s) ==> |Parts(WithoutTrailing(s))| == |parts| - 1)
  {
    if EndsInSlash(s) {
      assert s == s[..|s| - 1] + [SLASH];
      PartsOfTrailing(s[..|s| - 1]);
    } else if s != [] {
      LastPart(s);
    }
  }

  lemma {:induction false} LastPart(s: Text)
    requires s != [] && !EndsInSlash(s)
    ensures Parts(s)[|Parts(s)| - 1] != []
  {
    if |s| > 1 {
      assert s[1..][|s[1..]| - 1] == s[|s| - 1];
      LastPart(s[1..]);
    }
  }

  /** A string is never parsed to more components than it has parts. */
  lemma ParseLength(s: Text)
    ensures ParseRest(s).Components? ==> |ParseRest(s).path| <= |Parts(s)|
  {
    TrailingIsEmptyLast(s);
  }

  /** The joined printed names are parsed to the names again exactly when the last one is not blank. */
  lemma JoinedParse(path: Path)
    requires path != [] && AllCanonical(path)
    ensures ParseRest(Join(PrintedAll(path))) == Components(path) <==> FileName(path[|path| - 1]) != []
  {
    var s := Join(PrintedAll(path));
    PrintedParts(path);
    TrailingIsEmptyLast(s);
  }

  // ----- normalising the destination of a put -----

  function NonEmpty(parts: seq<Text>): (r: seq<Text>)
    ensures forall k :: 0 <= k < |r| ==> r[k] != [] && r[k] in parts
  {
    if parts == [] then [] else (if parts[0] == [] then [] else [parts[0]]) + NonEmpty(parts[1..])
  }

  /** The string that convert_path makes of a path; None if there is no part. */
  function NormalForm(input: Text): Option<Text> {
    var parts := NonEmpty(Parts(input));
    if parts == [] then None else Some(Join(PrintedAll(ConvertedAll(parts))))
  }

  /**
   convert_path and lf12_parse_path: the normalised string is parsed to the converted non-empty parts of the
   input exactly when neither the first nor the last of them is printed as an empty string.
   */
  lemma NormalFormParses(input: Text)
    requires NonEmpty(Parts(input)) != []
    ensures var path := ConvertedAll(NonEmpty(Parts(input)));
            ParseOf(NormalForm(input).value) == Components(path) <==>
            FileName(path[0]) != [] && FileName(path[|path| - 1]) != []
  {
    var path := ConvertedAll(NonEmpty(Parts(input)));
    forall i | 0 <= i < |path| ensures Canonical(path[i]) {
      ConvertedIsCanonical(NonEmpty(Parts(input))[i]);
    }
    PrintedParse(path);
  }

  lemma PrintedParse(path: Path)
    requires path != [] && AllCanonical(path)
    ensures ParseOf(Join(PrintedAll(path))) == Components(path) <==>
            FileName(path[0]) != [] && FileName(path[|path| - 1]) != []
  {
    if FileName(path[0]) == [] {
      BlankFirstIsLost(path);
    } else {
      JoinedParse(path);
      PrintedHasNoSlash(path[0]);
      assert Join(PrintedAll(path))[0] == FileName(path[0])[0];
    }
  }

  /** A blank first component disappears. */
  lemma BlankFirstIsLost(path: Path)
    requires path != [] && AllCanonical(path) && FileName(path[0]) == []
    ensures ParseOf(Join(PrintedAll(path))) != Components(path)
  {
    if |path| > 1 {
      var rest := Join(PrintedAll(path[1..]));
      assert PrintedAll(path[1..]) == PrintedAll(path)[1..];
      assert Join(PrintedAll(path)) == [SLASH] + rest && ([SLASH] + rest)[1..] == rest;
      PrintedParts(path[1..]);
      ParseLength(rest);
    }
  }

  // ----- the tokens of strtok -----

  lemma {:induction false} UpToSlashFacts(s: Text)
    ensures var t := UpToSlash(s);
            && t <= s && NoSlash(t) && (|t| < |s| ==> s[|t|] == SLASH)
            && Parts(s) == [t] + if |t| == |s| then [] else Parts(s[|t| + 1..])
  {
    if s != [] && s[0] != SLASH {
      UpToSlashFacts(s[1..]);
      assert |UpToSlash(s)| < |s| ==> s[1..][|UpToSlash(s[1..])| + 1..] == s[|UpToSlash(s)| + 1..];
    }
  }

  method SkipSlashes(s: Text, at: nat) returns (i: nat)
    requires at <= |s|
    ensures at <= i <= |s| && NonEmpty(Parts(s[i..])) == NonEmpty(Parts(s[at..])) && (i < |s| ==> s[i] != SLASH)
  {
    i := at;
    while i < |s| && s[i] == SLASH
      invariant at <= i <= |s| && NonEmpty(Parts(s[i..])) == NonEmpty(Parts(s[at..]))
    {
      assert s[i..][1..] == s[i + 1..];
      i := i + 1;
    }
  }

  method PartEnd(s: Text, i: nat) returns (j: nat)
    requires i <= |s|
    ensures i <= j <= |s| && s[i..j] == UpToSlash(s[i..])
  {
    j := i;
    while j < |s| && s[j] != SLASH
      invariant i <= j <= |s| && s[i..j] + UpToSlash(s[j..]) == UpToSlash(s[i..])
    {
      assert s[j..][1..] == s[j + 1..] && s[i..j + 1] == s[i..j] + [s[j]];
      j := j + 1;
    }
  }

  /** The next token of strtok, which skips slashes first, and where to go on. */
  method NextToken(s: Text, at: nat) returns (part: Text, next: nat)
    requires at <= |s|
    ensures at <= next <= |s| && (part != [] ==> at < next)
    ensures NonEmpty(Parts(s[at..])) == if part == [] then [] else [part] + NonEmpty(Parts(s[next..]))
  {
    var i := SkipSlashes(s, at);
    var j := PartEnd(s, i);
    part, next := s[i..j], if j < |s| then j + 1 else j;
    UpToSlashFacts(s[i..]);
    TokenParts(s, i, j, next);
  }

  lemma TokenParts(s: Text, i: nat, j: nat, next: nat)
    requires i <= j <= next <= |s| && next == (if j < |s| then j + 1 else j)
    requires Parts(s[i..]) == [s[i..j]] + if |s[i..j]| == |s[i..]| then [] else Parts(s[i..][|s[i..j]| + 1..])
    requires s[i..j] == [] ==> i == |s|
    ensures NonEmpty(Parts(s[i..])) == if s[i..j] == [] then [] else [s[i..j]] + NonEmpty(Parts(s[next..]))
  {
    var r := Parts(s[i..]);
    assert r[0] == s[i..j];
    if j < |s| {
      assert s[i..][|s[i..j]| + 1..] == s[next..] && r[1..] == Parts(s[next..]);
    } else {
      assert r[1..] == [] && s[next..] == [] && NonEmpty(Parts([])) == [];
    }
  }

  // ----- convert_path -----

  lemma {:induction false} JoinMore(parts: seq<Text>, p: Text)
    requires parts != []
    ensures Join(parts + [p]) == Join(parts) + [SLASH] + p
  {
    if |parts| > 1 {
      JoinMore(parts[1..], p);
      assert (parts + [p])[1..] == parts[1..] + [p];
    } else {
      assert (parts + [p])[1..] == [p];
    }
  }

  /** The path printed from the tokens so far. */
  function FinalPath(tokens: seq<Text>): Option<Text> {
    if tokens == [] then None else Some(Join(PrintedAll(ConvertedAll(tokens))))
  }

  lemma FinalPathMore(tokens: seq<Text>, part: Text)
    ensures var printed := FileName(Converted(part));
            FinalPath(tokens + [part]) ==
            Some(match FinalPath(tokens) case None => printed case Some(s) => s + [SLASH] + printed)
  {
    assert PrintedAll(ConvertedAll(tokens + [part])) == PrintedAll(ConvertedAll(tokens)) + [FileName(Converted(part))];
    if tokens != [] {
      JoinMore(PrintedAll(ConvertedAll(tokens)), FileName(Converted(part)));
    }
  }

  /** Converts and prints a part and appends it. */
  method AppendPart(finalPath: Option<Text>, part: Text, ghost tokens: seq<Text>) returns (longer: Option<Text>)
    requires finalPath == FinalPath(tokens)
    ensures longer == FinalPath(tokens + [part])
  {
    var name := ConvertName(part);
    var printed := GetFileName(name);
    FinalPathMore(tokens, part);
    if finalPath.None? {
      return Some(printed);
    }
    return Some(finalPath.value + [SLASH] + printed);
  }

  lemma TokenMoves<T>(all: seq<T>, tokens: seq<T>, part: T, rest: seq<T>)
    requires all == tokens + ([part] + rest)
    ensures all == (tokens + [part]) + rest
  {
  }

  /** convert_path */
  method ConvertPath(input: Text) returns (finalPath: Option<Text>)
    ensures finalPath == NormalForm(input)
  {
    finalPath := None;
    ghost var tokens: seq<Text>, all := [], NonEmpty(Parts(input));
    assert input[0..] == input;
    var part, at := NextToken(input, 0);
    while part != []
      invariant at <= |input| && finalPath == FinalPath(tokens)
      invariant all == tokens + if part == [] then [] else [part] + NonEmpty(Parts(input[at..]))
      decreases |input| - at, |part|
    {
      TokenMoves(all, tokens, part, NonEmpty(Parts(input[at..])));
      finalPath := AppendPart(finalPath, part, tokens);
      tokens := tokens + [part];
      part, at := NextToken(input, at);
    }
    assert tokens == all;
  }
}
