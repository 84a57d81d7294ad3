/** Short names of directory entries and the strings they are made from and printed as (src/libfat12/name.c). */
module ShortNames {
  import opened Bytes
  import opened Records
  import opened Creation

  /** A C string without its terminator. */
  type Text = seq<Byte>

  const SLASH: Byte := 0x2F
  const UNDERSCORE: Byte := 0x5F

  // ----- one character -----

  /** A-Z, 0-9, the printable marks that a short name may hold, and the space. */
  predicate ValidChar(c: Byte) {
    || 0x41 <= c <= 0x5A || 0x30 <= c <= 0x39 || c == SPACE || c == 0x21
    || 0x23 <= c <= 0x29 || c == 0x40 || c == 0x60 || c == 0x5F || c == 0x2D || c == 0x7B || c == 0x7D || c == 0x7E
  }

  /** _lf12_sanitize_file_name_char */
  function Sanitize(c: Byte): (r: Byte)
    ensures ValidChar(r) && (r == SPACE <==> c == SPACE)
    ensures ValidChar(c) ==> r == c
  {
    if ValidChar(c) then c
    else if 0x60 < c < 0x7B then c - 0x20
    else UNDERSCORE
  }

  predicate AllValid(s: Text) {
    forall i :: 0 <= i < |s| ==> ValidChar(s[i])
  }

  predicate AllSpaces(s: Text) {
    forall i :: 0 <= i < |s| ==> s[i] == SPACE
  }

  // ----- lf12_convert_name -----

  /** The characters that the name loop still stores when `i` are stored. */
  function Stem(s: Text, i: nat): (r: Text)
    requires i <= 8
    ensures i + |r| <= 8 && AllValid(r) && (i == 0 && r != [] ==> r[0] != SPACE)
  {
    if s == [] || s[0] == DOT || i == 8 then []
    else if s[0] == SPACE && i == 0 then Stem(s[1..], i)
    else [Sanitize(s[0])] + Stem(s[1..], i + 1)
  }

  /** The characters that the extension loop still stores when `i` are stored. */
  function Extension(s: Text, i: nat): (r: Text)
    requires i <= 3
    ensures i + |r| <= 3 && AllValid(r) && forall j :: 0 <= j < |r| ==> r[j] != SPACE
  {
    if s == [] || i == 3 then []
    else if s[0] == SPACE then Extension(s[1..], i)
    else [Sanitize(s[0])] + Extension(s[1..], i + 1)
  }

  /** What follows the first dot. */
  function AfterDot(s: Text): Text {
    if s == [] then [] else if s[0] == DOT then s[1..] else AfterDot(s[1..])
  }

  function Spaces(n: nat): (r: Text)
    ensures |r| == n && AllSpaces(r)
  {
    if n == 0 then [] else Spaces(n - 1) + [SPACE]
  }

  function Pad(s: Text, n: nat): (r: Text)
    requires |s| <= n
    ensures |r| == n
  {
    s + Spaces(n - |s|)
  }

  /** The short name of a string. */
  function Converted(s: Text): (n: ShortName) {
    Pad(Stem(s, 0), 8) + Pad(Extension(AfterDot(s), 0), 3)
  }

  // ----- lf12_get_file_name -----

  function TrimRight(s: Text): (r: Text)
    ensures r <= s && (r != [] ==> r[|r| - 1] != SPACE) && AllSpaces(s[|r|..])
  {
    if s == [] || s[|s| - 1] != SPACE then s else TrimRight(s[..|s| - 1])
  }

  /** The beginning of an extension up to a space or a zero byte. */
  function UpToSpace(s: Text): (r: Text)
    ensures r <= s
  {
    if s == [] || s[0] == 0 || s[0] == SPACE then [] else [s[0]] + UpToSpace(s[1..])
  }

  /** The name as it is printed. */
  function FileName(n: ShortName): Text {
    TrimRight(n[..8]) + if n[8] != SPACE then [DOT] + UpToSpace(n[8..]) else []
  }

  // ----- names that conversion can give -----

  /** Valid characters; the name part does not begin with a space unless it is blank; the extension has no space inside. */
  predicate Canonical(n: ShortName) {
    && AllValid(n)
    && (n[0] == SPACE ==> AllSpaces(n[..8]))
    && (n[8] == SPACE ==> n[9] == SPACE) && (n[9] == SPACE ==> n[10] == SPACE)
  }

  lemma PadFacts(s: Text, n: nat)
    requires |s| <= n
    ensures forall i :: 0 <= i < n ==> Pad(s, n)[i] == if i < |s| then s[i] else SPACE
  {
  }

  lemma ConvertedIsCanonical(s: Text)
    ensures Canonical(Converted(s))
  {
    var stem, ext := Stem(s, 0), Extension(AfterDot(s), 0);
    PadFacts(stem, 8);
    PadFacts(ext, 3);
  }

  /** No converted name looks like a free slot or a dot entry, and none contains a slash, a dot or a zero byte. */
  lemma CanonicalIsPlain(n: ShortName)
    requires Canonical(n)
    ensures PlainName(n)
    ensures forall i :: 0 <= i < 11 ==> n[i] != 0 && n[i] != DOT && n[i] != SLASH
  {
  }

  // ----- converting what was printed -----

  lemma {:induction false} StemOfPrinted(t: Text, tail: Text, i: nat)
    requires AllValid(t) && i + |t| <= 8 && (i == 0 && t != [] ==> t[0] != SPACE) && (tail == [] || tail[0] == DOT)
    ensures Stem(t + tail, i) == t
  {
    if t == [] {
      assert t + tail == tail;
    } else {
      assert (t + tail)[1..] == t[1..] + tail;
      StemOfPrinted(t[1..], tail, i + 1);
    }
  }

  lemma {:induction false} AfterDotOfPrinted(t: Text, tail: Text)
    requires AllValid(t) && (tail == [] || tail[0] == DOT)
    ensures AfterDot(t + tail) == if tail == [] then [] else tail[1..]
  {
    if t == [] {
      assert t + tail == tail;
    } else {
      assert (t + tail)[1..] == t[1..] + tail;
      AfterDotOfPrinted(t[1..], tail);
    }
  }

  lemma {:induction false} ExtensionOfPrinted(e: Text, i: nat)
    requires AllValid(e) && i + |e| <= 3 && forall j :: 0 <= j < |e| ==> e[j] != SPACE
    ensures Extension(e, i) == e
  {
    if e != [] {
      ExtensionOfPrinted(e[1..], i + 1);
    }
  }

  /** The printed extension, without the dot. */
  function PrintedExtension(n: ShortName): Text {
    if n[8] != SPACE then UpToSpace(n[8..]) else []
  }

  lemma PrintedExtensionFacts(n: ShortName)
    requires Canonical(n)
    ensures var e := PrintedExtension(n);
            && |e| <= 3 && Pad(e, 3) == n[8..] && AllValid(e) && (forall j :: 0 <= j < |e| ==> e[j] != SPACE)
  {
    var e := PrintedExtension(n);
    assert n[8..][1..] == n[9..] && n[9..][1..] == n[10..] && n[10..][1..] == [];
    assert UpToSpace(n[10..]) == if n[10] == SPACE then [] else [n[10]];
    assert UpToSpace(n[9..]) == if n[9] == SPACE then [] else [n[9]] + UpToSpace(n[10..]);
    PadFacts(e, 3);
  }

  lemma PrintedStemFacts(n: ShortName)
    requires Canonical(n)
    ensures var t := TrimRight(n[..8]);
            |t| <= 8 && Pad(t, 8) == n[..8] && AllValid(t) && (t != [] ==> t[0] != SPACE)
  {
    var t := TrimRight(n[..8]);
    PadFacts(t, 8);
    assert forall i :: |t| <= i < 8 ==> n[..8][i] == n[..8][|t|..][i - |t|];
    assert t != [] ==> t[|t| - 1] == n[..8][|t| - 1];
  }

  /** A canonical name is what its printed form converts to. */
  lemma PrintThenConvert(n: ShortName)
    requires Canonical(n)
    ensures Converted(FileName(n)) == n
  {
    var t, e := TrimRight(n[..8]), PrintedExtension(n);
    var tail := if n[8] != SPACE then [DOT] + e else [];
    PrintedStemFacts(n);
    PrintedExtensionFacts(n);
    StemOfPrinted(t, tail, 0);
    AfterDotOfPrinted(t, tail);
    ExtensionOfPrinted(e, 0);
    assert n == n[..8] + n[8..];
  }

  /** Conversion of names is idempotent, for every string. */
  lemma ConvertIsIdempotent(s: Text)
    ensures Converted(FileName(Converted(s))) == Converted(s)
  {
    ConvertedIsCanonical(s);
    PrintThenConvert(Converted(s));
  }

  /** Exactly the canonical names are the result of a conversion. */
  lemma CanonicalIsConverted(n: ShortName)
    ensures Canonical(n) <==> exists s: Text :: Converted(s) == n
  {
    if Canonical(n) {
      PrintThenConvert(n);
    }
    forall s: Text | Converted(s) == n ensures Canonical(n) {
      ConvertedIsCanonical(s);
    }
  }

  lemma TrimmedBlank(s: Text)
    ensures TrimRight(s) == [] <==> AllSpaces(s)
  {
    var t := TrimRight(s);
    assert t == [] ==> s[0..] == s;
    assert t != [] ==> s[|t| - 1] == t[|t| - 1];
  }

  /** Only the blank name is printed as an empty string. */
  lemma BlankPrintsEmpty(n: ShortName)
    requires Canonical(n)
    ensures FileName(n) == [] <==> AllSpaces(n)
  {
    TrimmedBlank(n[..8]);
    assert AllSpaces(n) <==> AllSpaces(n[..8]) && n[8] == SPACE by {
      assert forall i :: 0 <= i < 8 ==> n[..8][i] == n[i];
    }
  }

  /** A printed canonical name has no slash and no zero byte, so it survives as one part of a path. */
  lemma PrintedHasNoSlash(n: ShortName)
    requires Canonical(n)
    ensures forall i :: 0 <= i < |FileName(n)| ==> FileName(n)[i] != SLASH && FileName(n)[i] != 0
  {
    PrintedStemFacts(n);
    PrintedExtensionFacts(n);
  }

  // ----- the code -----

  lemma {:induction false} SpacesAreUnique(s: Text)
    requires AllSpaces(s)
    ensures s == Spaces(|s|)
  {
    if s != [] {
      SpacesAreUnique(s[..|s| - 1]);
    }
  }

  /** A field of `n` spaces whose first characters were overwritten with `s`. */
  lemma Overwritten(b: Text, s: Text, n: nat)
    requires |s| <= n == |b| && b[..|s|] == s && AllSpaces(b[|s|..])
    ensures b == Pad(s, n)
  {
    SpacesAreUnique(b[|s|..]);
    assert b == b[..|s|] + b[|s|..];
  }

  /** The state of the name loop: `i` characters are stored, and `p` are read. */
  ghost predicate StemSoFar(b: Text, before: Text, name: Text, p: nat, i: nat) {
    && |b| == |before| == 11 && p <= |name| && i <= 8 && b[i..] == before[i..]
    && b[..i] + Stem(name[p..], i) == Stem(name, 0)
  }

  lemma StemSkip(b: Text, before: Text, name: Text, p: nat)
    requires StemSoFar(b, before, name, p, 0) && p < |name| && name[p] == SPACE
    ensures StemSoFar(b, before, name, p + 1, 0)
  {
    assert name[p..][1..] == name[p + 1..];
  }

  lemma StemStore(b: Text, before: Text, name: Text, p: nat, i: nat)
    requires StemSoFar(b, before, name, p, i) && p < |name| && i < 8
    requires name[p] != DOT && !(name[p] == SPACE && i == 0)
    ensures StemSoFar(b[i := Sanitize(name[p])], before, name, p + 1, i + 1)
  {
    var b', c := b[i := Sanitize(name[p])], Sanitize(name[p]);
    assert name[p..][1..] == name[p + 1..];
    assert b'[..i + 1] == b[..i] + [c] && b'[i + 1..] == b[i..][1..] && before[i..][1..] == before[i + 1..];
    assert b[..i] + ([c] + Stem(name[p + 1..], i + 1)) == (b[..i] + [c]) + Stem(name[p + 1..], i + 1);
  }

  lemma LastSpaces(n: nat, i: nat)
    requires i <= n
    ensures Spaces(n)[i..] == Spaces(n - i)
  {
  }

  lemma StemEnd(b: Text, before: Text, name: Text, p: nat, i: nat)
    requires StemSoFar(b, before, name, p, i) && before[..8] == Spaces(8)
    requires p == |name| || name[p] == DOT || i == 8
    ensures b == Pad(Stem(name, 0), 8) + before[8..]
  {
    assert Stem(name[p..], i) == [] && Stem(name, 0) == b[..i];
    LastSpaces(8, i);
    assert before[i..] == before[..8][i..] + before[8..];
    assert b == b[..i] + before[i..];
  }

  /** convert_short_file_name */
  method ConvertShortFileName(name: Text, converted: array<Byte>)
    requires converted.Length == 11 && converted[..8] == Spaces(8)
    modifies converted
    ensures converted[..] == Pad(Stem(name, 0), 8) + old(converted[8..])
  {
    var p, i := 0, 0;
    ghost var before := converted[..];
    assert before[..8] == converted[..8] && before[8..] == converted[8..] && name[0..] == name;
    while p < |name| && name[p] != DOT && i < 8
      invariant StemSoFar(converted[..], before, name, p, i)
    {
      var c := name[p];
      if c == SPACE && i == 0 {
        StemSkip(converted[..], before, name, p);
        p := p + 1;
        continue;
      }
      StemStore(converted[..], before, name, p, i);
      ghost var stored := converted[..];
      converted[i] := Sanitize(c);
      assert converted[..] == stored[i := Sanitize(c)];
      p, i := p + 1, i + 1;
    }
    StemEnd(converted[..], before, name, p, i);
  }

  /** strchr: the index of the first dot, or the length. */
  method FindDot(name: Text) returns (p: nat)
    ensures p <= |name|
    ensures p == |name| ==> AfterDot(name) == []
    ensures p < |name| ==> name[p] == DOT && AfterDot(name) == name[p + 1..]
  {
    p := 0;
    while p < |name| && name[p] != DOT
      invariant p <= |name| && AfterDot(name[p..]) == AfterDot(name)
    {
      assert name[p..][1..] == name[p + 1..];
      p := p + 1;
    }
    assert p < |name| ==> name[p..][1..] == name[p + 1..];
  }

  /** The state of the extension loop: the buffer is filled up to `i`, and `p` characters are read. */
  ghost predicate ExtensionSoFar(b: Text, before: Text, rest: Text, p: nat, i: nat) {
    && |b| == |before| == 11 && p <= |rest| && 8 <= i <= 11 && b[..8] == before[..8] && b[i..] == before[i..]
    && b[8..i] + Extension(rest[p..], i - 8) == Extension(rest, 0)
  }

  lemma ExtensionSkip(b: Text, before: Text, rest: Text, p: nat, i: nat)
    requires ExtensionSoFar(b, before, rest, p, i) && p < |rest| && i < 11 && rest[p] == SPACE
    ensures ExtensionSoFar(b, before, rest, p + 1, i)
  {
    assert rest[p..][1..] == rest[p + 1..];
  }

  lemma ExtensionStore(b: Text, before: Text, rest: Text, p: nat, i: nat)
    requires ExtensionSoFar(b, before, rest, p, i) && p < |rest| && i < 11 && rest[p] != SPACE
    ensures ExtensionSoFar(b[i := Sanitize(rest[p])], before, rest, p + 1, i + 1)
  {
    var b', c := b[i := Sanitize(rest[p])], Sanitize(rest[p]);
    assert rest[p..][1..] == rest[p + 1..];
    assert b'[..8] == b[..8] && b'[8..i + 1] == b[8..i] + [c];
    assert b'[i + 1..] == b[i..][1..] && before[i..][1..] == before[i + 1..];
    assert b[8..i] + ([c] + Extension(rest[p + 1..], i - 7)) == (b[8..i] + [c]) + Extension(rest[p + 1..], i - 7);
  }

  lemma ExtensionEnd(b: Text, before: Text, rest: Text, p: nat, i: nat)
    requires ExtensionSoFar(b, before, rest, p, i) && before[8..] == Spaces(3) && (p == |rest| || i == 11)
    ensures b == before[..8] + Pad(Extension(rest, 0), 3)
  {
    var e := Extension(rest, 0);
    assert Extension(rest[p..], i - 8) == [] && e == b[8..i];
    assert b[8..][..|e|] == e && b[8..][|e|..] == b[i..] == before[i..] == before[8..][i - 8..];
    Overwritten(b[8..], e, 3);
    assert b == b[..8] + b[8..];
  }

  /** The loop of convert_short_file_extension; `rest` is what follows the dot. */
  method StoreConverted(rest: Text, converted: array<Byte>)
    requires converted.Length == 11 && converted[8..] == Spaces(3)
    modifies converted
    ensures converted[..] == old(converted[..8]) + Pad(Extension(rest, 0), 3)
  {
    ghost var before := converted[..];
    assert before[..8] == converted[..8] && before[8..] == converted[8..] && rest[0..] == rest;
    var p, i := 0, 8;
    while p < |rest| && i < 11
      invariant ExtensionSoFar(converted[..], before, rest, p, i)
    {
      var c := rest[p];
      if c == SPACE {
        ExtensionSkip(converted[..], before, rest, p, i);
        p := p + 1;
        continue;
      }
      ExtensionStore(converted[..], before, rest, p, i);
      ghost var stored := converted[..];
      converted[i] := Sanitize(c);
      assert converted[..] == stored[i := Sanitize(c)];
      p, i := p + 1, i + 1;
    }
    ExtensionEnd(converted[..], before, rest, p, i);
  }

  /** convert_short_file_extension */
  method ConvertShortFileExtension(name: Text, converted: array<Byte>)
    requires converted.Length == 11 && converted[8..] == Spaces(3)
    modifies converted
    ensures converted[..] == old(converted[..8]) + Pad(Extension(AfterDot(name), 0), 3)
  {
    var p := FindDot(name);
    if p == |name| {
      assert Extension([], 0) == [] && [] + Spaces(3) == Spaces(3);
      assert converted[..] == converted[..8] + converted[8..];
      return;
    }
    StoreConverted(name[p + 1..], converted);
  }

  /** lf12_convert_name */
  method ConvertName(name: Text) returns (n: ShortName)
    ensures n == Converted(name)
  {
    var converted := new Byte[11](i => SPACE);
    PadFacts([], 8);
    PadFacts([], 3);
    ConvertShortFileName(name, converted);
    ConvertShortFileExtension(name, converted);
    n := converted[..];
  }

  /** The length of the name part without the spaces at its end. */
  method TrimmedLength(buffer: array<Byte>) returns (length: nat)
    requires buffer.Length == 13
    ensures length <= 8 && buffer[..length] == TrimRight(buffer[..8])
  {
    length := 8;
    while length > 0 && buffer[length - 1] == SPACE
      invariant length <= 8 && TrimRight(buffer[..length]) == TrimRight(buffer[..8])
    {
      assert buffer[..length][..length - 1] == buffer[..length - 1];
      length := length - 1;
    }
  }

  /** Stores the dot and the extension. */
  method StoreExtension(buffer: array<Byte>, n: ShortName, at: nat) returns (length: nat)
    requires buffer.Length == 13 && at <= 8
    modifies buffer
    ensures length <= 13 && buffer[..length] == old(buffer[..at]) + [DOT] + UpToSpace(n[8..])
  {
    ghost var stem := buffer[..at];
    buffer[at] := DOT;
    length := at + 1;
    assert buffer[..length] == stem + [DOT];
    var i := 0;
    while i < 3 && n[8 + i] != 0 && n[8 + i] != SPACE
      invariant i <= 3 && length == at + 1 + i
      invariant buffer[..length] + UpToSpace(n[8 + i..]) == stem + [DOT] + UpToSpace(n[8..])
    {
      ghost var stored := buffer[..length];
      assert n[8 + i..][1..] == n[8 + i + 1..];
      buffer[length] := n[8 + i];
      assert buffer[..length + 1] == stored + [n[8 + i]];
      length, i := length + 1, i + 1;
    }
    assert UpToSpace(n[8 + i..]) == [];
  }

  /** lf12_get_file_name: the characters before the zero byte that the code stores behind them. */
  method GetFileName(n: ShortName) returns (s: Text)
    ensures s == FileName(n)
  {
    var buffer := new Byte[13](i => if 0 <= i < 8 then n[i] else 0);
    assert buffer[..8] == n[..8];
    var length := TrimmedLength(buffer);
    if n[8] != SPACE {
      length := StoreExtension(buffer, n, length);
    }
    s := buffer[..length];
  }
}
