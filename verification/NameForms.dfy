/**
 What names become, byte by byte: letters, other characters, long names, and paths as users write them
 (src/libfat12/name.c, src/libfat12/path.c).
 */
module NameForms {
  import opened Bytes
  import opened Records
  import opened ShortNames
  import opened Paths

  // ----- one character -----

  /** A-Z, 0-9, the marks and the space that a short name may hold. */
  predicate InValidChars(c: Byte) {
    (c as char) in
      {'A', 'B', 'C', 'D', 'E', 'F', 'G', 'H', 'I', 'J', 'K', 'L', 'M', 'N', 'O', 'P', 'Q', 'R', 'S', 'T', 'U', 'V', 'W', 'X', 'Y', 'Z',
       '0', '1', '2', '3', '4', '5', '6', '7', '8', '9',
       '!', '#', '$', '%', '&', '\'', '(', ')', '@', '`', '_', '-', '{', '}', '~', ' '}
  }

  /** a-z become A-Z, all other bytes stay. */
  function Upper(c: Byte): Byte {
    if 0x61 <= c <= 0x7A then c - 0x20 else c
  }

  /** Upper case where that is a valid character, an underscore otherwise. */
  function Spelled(c: Byte): Byte {
    if InValidChars(Upper(c)) then Upper(c) else 0x5F
  }

  lemma ValidCharIsListed(c: Byte)
    ensures ValidChar(c) <==> InValidChars(c)
  {
    assert (c as char) as int == c;
  }

  lemma SanitizeSpells(c: Byte)
    ensures Sanitize(c) == Spelled(c)
  {
    ValidCharIsListed(c);
    ValidCharIsListed(Upper(c));
  }

  lemma SpelledUpper(c: Byte)
    ensures Spelled(Upper(c)) == Spelled(c) && (Upper(c) == SPACE <==> c == SPACE)
    ensures (Upper(c) == DOT <==> c == DOT) && (Upper(c) == SLASH <==> c == SLASH)
  {
  }

  // ----- the short name of a string -----

  /** The characters before the first dot. */
  function BeforeDot(s: Text): (r: Text)
    ensures forall i :: 0 <= i < |r| ==> r[i] != 0x2E
  {
    if s == [] || s[0] == 0x2E then [] else [s[0]] + BeforeDot(s[1..])
  }

  /** The two sides of the first dot. */
  lemma {:induction false} AroundDot(s: Text)
    ensures if 0x2E in s then s == BeforeDot(s) + [0x2E] + AfterDot(s) else s == BeforeDot(s) && AfterDot(s) == []
  {
    if s != [] && s[0] != 0x2E {
      AroundDot(s[1..]);
      assert s == [s[0]] + s[1..];
    }
  }

  function SkipSpaces(s: Text): (r: Text)
    ensures |r| <= |s| && r == s[|s| - |r|..] && (r != [] ==> r[0] != 0x20)
    ensures forall i :: 0 <= i < |s| - |r| ==> s[i] == 0x20
  {
    if s != [] && s[0] == 0x20 then SkipSpaces(s[1..]) else s
  }

  function WithoutSpaces(s: Text): (r: Text) {
    if s == [] then [] else (if s[0] == 0x20 then [] else [s[0]]) + WithoutSpaces(s[1..])
  }

  function Least(a: nat, b: nat): nat {
    if a < b then a else b
  }

  lemma {:induction false} StemBytes(s: Text, i: nat)
    requires 0 < i <= 8
    ensures var b := BeforeDot(s);
            && |Stem(s, i)| == Least(|b|, 8 - i)
            && forall j :: 0 <= j < |Stem(s, i)| ==> Stem(s, i)[j] == Spelled(b[j])
  {
    if s != [] && s[0] != DOT && i < 8 {
      SanitizeSpells(s[0]);
      StemBytes(s[1..], i + 1);
    }
  }

  lemma {:induction false} FirstStemBytes(s: Text)
    ensures var b := SkipSpaces(BeforeDot(s));
            && |Stem(s, 0)| == Least(|b|, 8)
            && forall j :: 0 <= j < |Stem(s, 0)| ==> Stem(s, 0)[j] == Spelled(b[j])
  {
    if s != [] && s[0] != DOT {
      assert BeforeDot(s)[1..] == BeforeDot(s[1..]);
      if s[0] == SPACE {
        FirstStemBytes(s[1..]);
      } else {
        SanitizeSpells(s[0]);
        StemBytes(s[1..], 1);
      }
    }
  }

  /** `r` are the first characters of `e`, at most `n`, as they are spelled. */
  predicate SpelledFrom(e: Text, n: nat, r: Text) {
    |r| == Least(|e|, n) && forall j :: 0 <= j < |r| ==> r[j] == Spelled(e[j])
  }

  lemma SpelledMore(c: Byte, e: Text, n: nat, r: Text)
    requires SpelledFrom(e, n, r)
    ensures SpelledFrom([c] + e, n + 1, [Sanitize(c)] + r)
  {
    SanitizeSpells(c);
  }

  lemma {:induction false} ExtensionBytes(s: Text, i: nat)
    requires i <= 3
    ensures SpelledFrom(WithoutSpaces(s), 3 - i, Extension(s, i))
  {
    hide Sanitize, Spelled;
    if s != [] && i < 3 {
      if s[0] == SPACE {
        ExtensionBytes(s[1..], i);
      } else {
        ExtensionBytes(s[1..], i + 1);
        SpelledMore(s[0], WithoutSpaces(s[1..]), 2 - i, Extension(s[1..], i + 1));
      }
    }
  }

  /**
   The short name of a string, byte by byte: the first eight characters before the first dot, without spaces in front,
   and the first three behind it, without any space; both filled up with spaces.
   */
  lemma ConvertedBytes(s: Text, i: nat)
    requires i < 11
    ensures var stem, ext := SkipSpaces(BeforeDot(s)), WithoutSpaces(AfterDot(s));
            Converted(s)[i] ==
            if i < 8 then (if i < |stem| then Spelled(stem[i]) else 0x20)
            else if i - 8 < |ext| then Spelled(ext[i - 8]) else 0x20
  {
    hide Stem, Extension, SkipSpaces, WithoutSpaces, BeforeDot, AfterDot, Spelled, Pad;
    FirstStemBytes(s);
    ExtensionBytes(AfterDot(s), 0);
    PadFacts(Stem(s, 0), 8);
    PadFacts(Extension(AfterDot(s), 0), 3);
  }

  // ----- letter case -----

  function Uppered(s: Text): (r: Text)
    ensures |r| == |s| && forall i :: 0 <= i < |s| ==> r[i] == Upper(s[i])
  {
    seq(|s|, i requires 0 <= i < |s| => Upper(s[i]))
  }

  lemma UpperedRest(s: Text)
    requires s != []
    ensures Uppered(s) != [] && Uppered(s)[0] == Upper(s[0]) && Uppered(s)[1..] == Uppered(s[1..])
  {
  }

  lemma {:induction false} StemIgnoresCase(s: Text, i: nat)
    requires i <= 8
    ensures Stem(Uppered(s), i) == Stem(s, i)
    decreases s
  {
    if s != [] {
      UpperedRest(s);
      SpelledUpper(s[0]);
      SanitizeSpells(s[0]);
      SanitizeSpells(Upper(s[0]));
      if s[0] != DOT && i < 8 {
        StemIgnoresCase(s[1..], if s[0] == SPACE && i == 0 then i else i + 1);
      }
    }
  }

  lemma {:induction false} ExtensionIgnoresCase(s: Text, i: nat)
    requires i <= 3
    ensures Extension(Uppered(s), i) == Extension(s, i)
    decreases s
  {
    if s != [] && i < 3 {
      UpperedRest(s);
      SpelledUpper(s[0]);
      SanitizeSpells(s[0]);
      SanitizeSpells(Upper(s[0]));
      ExtensionIgnoresCase(s[1..], if s[0] == SPACE then i else i + 1);
    }
  }

  lemma {:induction false} AfterDotIgnoresCase(s: Text)
    ensures AfterDot(Uppered(s)) == Uppered(AfterDot(s))
  {
    if s != [] {
      UpperedRest(s);
      SpelledUpper(s[0]);
      AfterDotIgnoresCase(s[1..]);
    }
  }

  /** Letter case does not matter for the short name of a string. */
  lemma ConvertedIgnoresCase(s: Text)
    ensures Converted(Uppered(s)) == Converted(s)
  {
    StemIgnoresCase(s, 0);
    AfterDotIgnoresCase(s);
    ExtensionIgnoresCase(AfterDot(s), 0);
  }

  function UpperedAll(parts: seq<Text>): (r: seq<Text>)
    ensures |r| == |parts| && forall k :: 0 <= k < |parts| ==> r[k] == Uppered(parts[k])
  {
    seq(|parts|, k requires 0 <= k < |parts| => Uppered(parts[k]))
  }

  lemma UpperedFirst(c: Byte, r: seq<Text>)
    requires r != []
    ensures UpperedAll([[]] + r) == [[]] + UpperedAll(r)
    ensures UpperedAll([[c] + r[0]] + r[1..]) == [[Upper(c)] + UpperedAll(r)[0]] + UpperedAll(r)[1..]
  {
    assert Uppered([c] + r[0]) == [Upper(c)] + Uppered(r[0]);
  }

  lemma {:induction false} PartsIgnoreCase(s: Text)
    ensures Parts(Uppered(s)) == UpperedAll(Parts(s))
  {
    hide UpperedAll, Uppered;
    if s == [] {
      assert UpperedAll([[]]) == [[]];
    } else {
      UpperedRest(s);
      SpelledUpper(s[0]);
      PartsIgnoreCase(s[1..]);
      UpperedFirst(s[0], Parts(s[1..]));
    }
  }

  lemma TrimsIgnoreCase(s: Text)
    ensures WithoutLeading(Uppered(s)) == Uppered(WithoutLeading(s))
    ensures WithoutTrailing(Uppered(s)) == Uppered(WithoutTrailing(s)) && (EndsInSlash(Uppered(s)) <==> EndsInSlash(s))
  {
    if s != [] {
      SpelledUpper(s[0]);
      SpelledUpper(s[|s| - 1]);
    }
  }

  lemma ParseUppered(s: Text)
    ensures ParseOf(Uppered(s)) == ParseOf(s)
  {
    var rest := WithoutLeading(s);
    var t := WithoutTrailing(rest);
    TrimsIgnoreCase(s);
    TrimsIgnoreCase(rest);
    TrimsIgnoreCase(t);
    PartsIgnoreCase(t);
    forall k | 0 <= k < |Parts(t)| ensures Converted(Parts(Uppered(t))[k]) == Converted(Parts(t)[k]) {
      ConvertedIgnoresCase(Parts(t)[k]);
    }
    assert ConvertedAll(Parts(Uppered(t))) == ConvertedAll(Parts(t));
  }

  /** Strings that differ in letter case only are parsed to the same path. */
  lemma ParseIgnoresCase(s: Text, t: Text)
    requires Uppered(s) == Uppered(t)
    ensures ParseOf(s) == ParseOf(t)
  {
    ParseUppered(s);
    ParseUppered(t);
  }

  // ----- printed names -----

  /** A printed name: the name part up to its last character that is no space, and the extension behind a dot. */
  lemma PrintedBytes(n: ShortName) returns (k: nat, m: nat)
    requires Canonical(n)
    ensures k <= 8 && m <= 3 && FileName(n) == n[..k] + if m == 0 then [] else [0x2E] + n[8..8 + m]
    ensures (forall i :: k <= i < 8 ==> n[i] == 0x20) && (k > 0 ==> n[k - 1] != 0x20)
    ensures (forall i :: 8 + m <= i < 11 ==> n[i] == 0x20) && (m > 0 ==> n[8 + m - 1] != 0x20)
  {
    var t, e := TrimRight(n[..8]), PrintedExtension(n);
    k, m := |t|, |e|;
    PrintedExtensionFacts(n);
    PadFacts(e, 3);
    assert n[8..][..m] == e && n[..8][..k] == t;
    assert n[8] != SPACE ==> m > 0;
    forall i | k <= i < 8 ensures n[i] == 0x20 {
      assert n[i] == n[..8][k..][i - k];
    }
    forall i | 8 + m <= i < 11 ensures n[i] == 0x20 {
      assert n[i] == n[8..][i - 8];
    }
    assert m > 0 ==> n[8 + m - 1] == e[m - 1];
  }

  // ----- paths as users write them -----

  /** The three outcomes of parsing, by the string alone. */
  lemma ParseOutcome(s: Text)
    ensures ParseOf(s).NoPath? <==> s == [] || s == [0x2F]
    ensures ParseOf(s).Garbage? <==> |s| >= 3 && s[|s| - 1] == 0x2F && s[|s| - 2] == 0x2F
  {
    var rest := WithoutLeading(s);
    if rest == [] {
      assert s == [] || s == [s[0]];
    }
  }

  function Wrapped(s: Text, before: bool, behind: bool): Text {
    (if before then [0x2F] else []) + s + if behind then [0x2F] else []
  }

  lemma WrappedIsTrimmed(s: Text, before: bool, behind: bool)
    requires s != [] && s[0] != 0x2F && s[|s| - 1] != 0x2F
    ensures var rest := WithoutLeading(Wrapped(s, before, behind)); rest != [] && WithoutTrailing(rest) == s
  {
    assert WithoutLeading(Wrapped(s, before, behind)) == s + if behind then [0x2F] else [];
  }

  lemma ParseTrimmed(s: Text, t: Text)
    requires var rest := WithoutLeading(s); rest != [] && WithoutTrailing(rest) == t && !EndsInSlash(t)
    ensures ParseOf(s) == Components(ConvertedAll(Parts(t)))
  {
  }

  /** The parts of a path stand between slashes, with or without one in front and one behind. */
  lemma ParseJoined(parts: seq<Text>, before: bool, behind: bool)
    requires parts != [] && forall k :: 0 <= k < |parts| ==> parts[k] != [] && NoSlash(parts[k])
    ensures ParseOf(Wrapped(Join(parts), before, behind)) == Components(ConvertedAll(parts))
  {
    hide Parts, Join, ConvertedAll, Wrapped, WithoutLeading, WithoutTrailing, ParseOf, ParseRest, NoSlash;
    PartsOfJoin(parts);
    JoinedEnds(parts);
    WrappedIsTrimmed(Join(parts), before, behind);
    ParseTrimmed(Wrapped(Join(parts), before, behind), Join(parts));
  }

  lemma {:induction false} JoinedEnds(parts: seq<Text>)
    requires parts != [] && forall k :: 0 <= k < |parts| ==> parts[k] != [] && NoSlash(parts[k])
    ensures var s := Join(parts); s != [] && s[0] != SLASH && s[|s| - 1] != SLASH
    decreases |parts|
  {
    if |parts| > 1 {
      JoinedEnds(parts[1..]);
    }
  }

  /** Only empty parts are dropped when a path is normalised. */
  lemma {:induction false} NonEmptyMore(parts: seq<Text>, last: Text)
    ensures NonEmpty(parts + [last]) == NonEmpty(parts) + if last == [] then [] else [last]
  {
    if parts == [] {
      assert NonEmpty([]) == [] && [last][1..] == [];
    } else {
      assert (parts + [last])[1..] == parts[1..] + [last];
      NonEmptyMore(parts[1..], last);
    }
  }
}
