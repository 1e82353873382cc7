/**
 The functions of Go's `strings` package that the models use, on byte strings (one `char` per
 byte): `Contains`, `Index`, `ReplaceAll`, `TrimSpace`, `Split`, `Join`.
 */
module GoStrings {
  import opened Common

  // ----- occurrences ----------------------------------------------------------------------

  predicate OccursAt(s: string, w: string, i: nat) {
    i + |w| <= |s| && s[i..i + |w|] == w
  }

  ghost predicate Contains(s: string, w: string) {
    exists i: nat :: OccursAt(s, w, i)
  }

  /** `strings.Index`: the first occurrence. */
  function Index(s: string, w: string): (i: Option<nat>)
    ensures i.Some? ==> OccursAt(s, w, i.value) && forall j: nat :: j < i.value ==> !OccursAt(s, w, j)
    ensures i.None? ==> !Contains(s, w)
  {
    IndexFrom(s, w, 0)
  }

  function IndexFrom(s: string, w: string, from: nat): (i: Option<nat>)
    ensures i.Some? ==> i.value >= from && OccursAt(s, w, i.value)
    ensures i.Some? ==> forall j: nat :: from <= j < i.value ==> !OccursAt(s, w, j)
    ensures i.None? ==> forall j: nat :: from <= j ==> !OccursAt(s, w, j)
    decreases |s| - from
  {
    if from + |w| > |s| then None
    else if OccursAt(s, w, from) then Some(from)
    else IndexFrom(s, w, from + 1)
  }

  lemma OccursInSlice(s: string, lo: nat, hi: nat, w: string, i: nat)
    requires lo <= hi <= |s| && i + |w| <= hi - lo
    ensures OccursAt(s[lo..hi], w, i) <==> OccursAt(s, w, lo + i)
  {
    SliceOfSlice(s, lo, hi, i, i + |w|);
  }

  lemma OccursInEnd(z: string, y: string, w: string, i: nat)
    ensures OccursAt(z + y, w, |z| + i) <==> OccursAt(y, w, i)
  {
    if i + |w| <= |y| {
      assert (z + y)[|z| + i..|z| + i + |w|] == y[i..i + |w|];
    }
  }

  lemma OccursInFront(a: string, y: string, w: string, i: nat)
    requires i + |w| <= |a|
    ensures OccursAt(a + y, w, i) <==> OccursAt(a, w, i)
  {
    assert (a + y)[i..i + |w|] == a[i..i + |w|];
  }

  // ----- UTF-8 ----------------------------------------------------------------------------

  predicate Continuation(c: char) {
    0x80 <= c as int <= 0xBF
  }

  /** Bytes taken by the first rune (`utf8.DecodeRuneInString`); an invalid byte counts as one. */
  function RuneWidth(s: string): (w: nat)
    requires s != ""
    ensures 1 <= w <= |s|
  {
    var b := s[0] as int;
    var next := if |s| > 1 then s[1] as int else 0;
    if 0xC2 <= b <= 0xDF && 0x80 <= next <= 0xBF then 2
    else if |s| > 2 && Continuation(s[2]) && 0xE0 <= b <= 0xEF
         && (if b == 0xE0 then 0xA0 else 0x80) <= next <= (if b == 0xED then 0x9F else 0xBF) then 3
    else if |s| > 3 && Continuation(s[2]) && Continuation(s[3]) && 0xF0 <= b <= 0xF4
         && (if b == 0xF0 then 0x90 else 0x80) <= next <= (if b == 0xF4 then 0x8F else 0xBF) then 4
    else 1
  }

  /** A Unicode scalar value. */
  predicate Scalar(cp: nat) {
    cp < 0xD800 || 0xE000 <= cp < 0x11_0000
  }

  /** The bytes that encode it (section 3 of RFC 3629). */
  function Utf8(cp: nat): (bytes: string)
    requires Scalar(cp)
    ensures bytes != ""
  {
    if cp < 0x80 then [cp as char]
    else if cp < 0x800 then [(0xC0 + cp / 0x40) as char, (0x80 + cp % 0x40) as char]
    else if cp < 0x1_0000 then
      [(0xE0 + cp / 0x1000) as char, (0x80 + cp / 0x40 % 0x40) as char, (0x80 + cp % 0x40) as char]
    else
      [(0xF0 + cp / 0x4_0000) as char, (0x80 + cp / 0x1000 % 0x40) as char, (0x80 + cp / 0x40 % 0x40) as char,
       (0x80 + cp % 0x40) as char]
  }

  /** The first rune takes the bytes of its encoding. */
  lemma RuneWidthEncoded(cp: nat, rest: string)
    requires Scalar(cp)
    ensures RuneWidth(Utf8(cp) + rest) == |Utf8(cp)|
  {
    if cp >= 0x1_0000 {
      EncodedFour(cp, rest);
    } else if cp >= 0x800 {
      EncodedThree(cp, rest);
    }
  }

  lemma EncodedThree(cp: nat, rest: string)
    requires Scalar(cp) && 0x800 <= cp < 0x1_0000
    ensures RuneWidth(Utf8(cp) + rest) == 3
  {
    var s := Utf8(cp) + rest;
    assert s[0] == (0xE0 + cp / 0x1000) as char && s[1] == (0x80 + cp / 0x40 % 0x40) as char;
    assert Continuation(s[2]);
    assert cp < 0x1000 ==> cp / 0x40 % 0x40 >= 0x20;
    assert 0xD000 <= cp < 0xD800 ==> cp / 0x40 % 0x40 < 0x20;
  }

  lemma EncodedFour(cp: nat, rest: string)
    requires Scalar(cp) && 0x1_0000 <= cp
    ensures RuneWidth(Utf8(cp) + rest) == 4
  {
    var s := Utf8(cp) + rest;
    assert s[0] == (0xF0 + cp / 0x4_0000) as char && s[1] == (0x80 + cp / 0x1000 % 0x40) as char;
    assert Continuation(s[2]) && Continuation(s[3]);
    assert cp < 0x4_0000 ==> cp / 0x1000 % 0x40 >= 0x10;
    assert 0x10_0000 <= cp ==> cp / 0x1000 % 0x40 < 0x10;
  }

  /** Whatever takes more than one byte is an encoded rune. */
  lemma RuneWidthDecodes(s: string)
    requires s != "" && RuneWidth(s) > 1
    ensures exists cp: nat :: Scalar(cp) && cp >= 0x80 && Utf8(cp) == s[..RuneWidth(s)]
  {
    var k := RuneWidth(s);
    if k == 2 {
      EncodesTwo(s[0], s[1], (s[0] as int - 0xC0) * 0x40 + (s[1] as int - 0x80));
    } else if k == 3 {
      EncodesThree(s[0], s[1], s[2],
                   (s[0] as int - 0xE0) * 0x1000 + (s[1] as int - 0x80) * 0x40 + (s[2] as int - 0x80));
    } else {
      EncodesFour(s[0], s[1], s[2], s[3],
                  (s[0] as int - 0xF0) * 0x4_0000 + (s[1] as int - 0x80) * 0x1000 + (s[2] as int - 0x80) * 0x40
                  + (s[3] as int - 0x80));
    }
  }

  lemma EncodesTwo(a: char, b: char, cp: nat)
    requires 0xC2 <= a as int <= 0xDF && Continuation(b)
    requires cp == (a as int - 0xC0) * 0x40 + (b as int - 0x80)
    ensures Scalar(cp) && cp >= 0x80 && Utf8(cp) == [a, b]
  {
  }

  lemma EncodesThree(a: char, b: char, c: char, cp: nat)
    requires 0xE0 <= a as int <= 0xEF && Continuation(b) && Continuation(c)
    requires (a as int == 0xE0 ==> b as int >= 0xA0) && (a as int == 0xED ==> b as int <= 0x9F)
    requires cp == (a as int - 0xE0) * 0x1000 + (b as int - 0x80) * 0x40 + (c as int - 0x80)
    ensures Scalar(cp) && cp >= 0x80 && Utf8(cp) == [a, b, c]
  {
    assert cp / 0x1000 == a as int - 0xE0 && cp / 0x40 == (a as int - 0xE0) * 0x40 + (b as int - 0x80);
  }

  lemma EncodesFour(a: char, b: char, c: char, d: char, cp: nat)
    requires 0xF0 <= a as int <= 0xF4 && Continuation(b) && Continuation(c) && Continuation(d)
    requires (a as int == 0xF0 ==> b as int >= 0x90) && (a as int == 0xF4 ==> b as int <= 0x8F)
    requires cp == (a as int - 0xF0) * 0x4_0000 + (b as int - 0x80) * 0x1000 + (c as int - 0x80) * 0x40
                   + (d as int - 0x80)
    ensures Scalar(cp) && cp >= 0x80 && Utf8(cp) == [a, b, c, d]
  {
    assert cp / 0x4_0000 == a as int - 0xF0 && cp / 0x1000 == (a as int - 0xF0) * 0x40 + (b as int - 0x80);
    assert cp / 0x40 == (a as int - 0xF0) * 0x1000 + (b as int - 0x80) * 0x40 + (c as int - 0x80);
  }

  // ----- TrimSpace ------------------------------------------------------------------------

  predicate AsciiSpace(c: char) {
    c == ' ' || 9 <= c as int <= 13
  }

  /** Whether these bytes encode one of the longer runes that `unicode.IsSpace` accepts. */
  predicate SpaceRune2(a: char, b: char) {
    a as int == 0xC2 && b as int in {0x85, 0xA0}
  }

  predicate SpaceRune3(a: char, b: char, c: char) {
    || (a as int == 0xE1 && b as int == 0x9A && c as int == 0x80)
    || (a as int == 0xE2 && b as int == 0x80 && (0x80 <= c as int <= 0x8A || c as int in {0xA8, 0xA9, 0xAF}))
    || (a as int == 0xE2 && b as int == 0x81 && c as int == 0x9F)
    || (a as int == 0xE3 && b as int == 0x80 && c as int == 0x80)
  }

  /** Whether a space rune of `n` bytes stands at `i`. */
  predicate SpaceAt(s: string, i: nat, n: nat) {
    && 0 < n && i + n <= |s|
    && ((n == 1 && AsciiSpace(s[i]))
        || (n == 2 && SpaceRune2(s[i], s[i + 1]))
        || (n == 3 && SpaceRune3(s[i], s[i + 1], s[i + 2])))
  }

  /** The first position from `i` on where no space rune stands. */
  function SkipSpace(s: string, i: nat): (j: nat)
    requires i <= |s|
    ensures i <= j <= |s|
    ensures !SpaceAt(s, j, 1) && !SpaceAt(s, j, 2) && !SpaceAt(s, j, 3)
    decreases |s| - i
  {
    if SpaceAt(s, i, 1) then SkipSpace(s, i + 1)
    else if SpaceAt(s, i, 2) then SkipSpace(s, i + 2)
    else if SpaceAt(s, i, 3) then SkipSpace(s, i + 3)
    else i
  }

  predicate SpaceBefore(s: string, lo: nat, j: nat, n: nat) {
    lo + n <= j && SpaceAt(s, j - n, n)
  }

  /** The last position up to `j` where no space rune from `lo` on ends. */
  function SkipSpaceBack(s: string, lo: nat, j: nat): (k: nat)
    requires lo <= j <= |s|
    ensures lo <= k <= j
    ensures !SpaceBefore(s, lo, k, 1) && !SpaceBefore(s, lo, k, 2) && !SpaceBefore(s, lo, k, 3)
  {
    if SpaceBefore(s, lo, j, 1) then SkipSpaceBack(s, lo, j - 1)
    else if SpaceBefore(s, lo, j, 2) then SkipSpaceBack(s, lo, j - 2)
    else if SpaceBefore(s, lo, j, 3) then SkipSpaceBack(s, lo, j - 3)
    else j
  }

  /** `strings.TrimSpace`. */
  function TrimSpace(s: string): string {
    var lo := SkipSpace(s, 0);
    s[lo..SkipSpaceBack(s, lo, |s|)]
  }

  /** No space rune at either end. */
  predicate Trimmed(s: string) {
    && !SpaceAt(s, 0, 1) && !SpaceAt(s, 0, 2) && !SpaceAt(s, 0, 3)
    && !SpaceBefore(s, 0, |s|, 1) && !SpaceBefore(s, 0, |s|, 2) && !SpaceBefore(s, 0, |s|, 3)
  }

  /** Trimming takes a part of the text. */
  lemma TrimSpacePart(s: string) returns (lo: nat)
    ensures lo + |TrimSpace(s)| <= |s| && TrimSpace(s) == s[lo..lo + |TrimSpace(s)|]
  {
    lo := SkipSpace(s, 0);
  }

  /** What trimming leaves alone is exactly the trimmed texts, and its results are trimmed. */
  lemma TrimSpaceTrims(s: string)
    ensures Trimmed(TrimSpace(s))
    ensures Trimmed(s) <==> TrimSpace(s) == s
  {
    var lo := SkipSpace(s, 0);
    var hi := SkipSpaceBack(s, lo, |s|);
    var t := s[lo..hi];
    assert forall i: nat, n: nat :: i + n <= hi - lo ==> (SpaceAt(t, i, n) <==> SpaceAt(s, lo + i, n));
    assert Trimmed(s) ==> t == s;
  }

  /** The white space of Unicode. */
  predicate WhiteSpace(cp: nat) {
    || 9 <= cp <= 13 || cp == 0x20 || cp == 0x85 || cp == 0xA0 || cp == 0x1680 || 0x2000 <= cp <= 0x200A
    || cp == 0x2028 || cp == 0x2029 || cp == 0x202F || cp == 0x205F || cp == 0x3000
  }

  /** The space runes are the encodings of white space. */
  lemma SpaceIff(cp: nat)
    requires Scalar(cp)
    ensures SpaceAt(Utf8(cp), 0, |Utf8(cp)|) <==> WhiteSpace(cp)
  {
    if 0x800 <= cp < 0x1_0000 {
      SpaceOfThree(cp, cp / 0x1000, cp / 0x40 % 0x40, cp % 0x40);
    }
  }

  lemma SpaceOfThree(cp: nat, a: nat, b: nat, c: nat)
    requires 0x800 <= cp < 0x1_0000 && cp == a * 0x1000 + b * 0x40 + c && a < 0x10 && b < 0x40 && c < 0x40
    ensures SpaceRune3((0xE0 + a) as char, (0x80 + b) as char, (0x80 + c) as char) <==> WhiteSpace(cp)
  {
  }

  lemma SpaceDecodes(s: string, i: nat, n: nat)
    requires SpaceAt(s, i, n)
    ensures exists cp: nat :: Scalar(cp) && WhiteSpace(cp) && Utf8(cp) == s[i..i + n]
  {
    if n == 1 {
      assert Utf8(s[i] as int) == s[i..i + 1];
    } else if n == 2 {
      EncodesTwo(s[i], s[i + 1], (s[i] as int - 0xC0) * 0x40 + (s[i + 1] as int - 0x80));
    } else {
      EncodesThree(s[i], s[i + 1], s[i + 2],
                   (s[i] as int - 0xE0) * 0x1000 + (s[i + 1] as int - 0x80) * 0x40 + (s[i + 2] as int - 0x80));
    }
  }

  /** Nothing but space runes. */
  ghost predicate Blank(t: string)
    decreases |t|
  {
    t == "" || exists n: nat :: SpaceAt(t, 0, n) && Blank(t[n..])
  }

  lemma {:induction false} BlankOneMore(t: string, r: string)
    requires Blank(t) && SpaceAt(r, 0, |r|)
    ensures Blank(t + r)
    decreases |t|
  {
    if t == "" {
      assert t + r == r && r[|r|..] == "";
    } else {
      var n: nat :| SpaceAt(t, 0, n) && Blank(t[n..]);
      BlankOneMore(t[n..], r);
      SpaceBeforeMore(t, r, n);
    }
  }

  lemma SpaceBeforeMore(t: string, r: string, n: nat)
    requires SpaceAt(t, 0, n)
    ensures SpaceAt(t + r, 0, n) && (t + r)[n..] == t[n..] + r
  {
  }

  lemma SpaceAlone(s: string, i: nat, n: nat)
    requires SpaceAt(s, i, n)
    ensures SpaceAt(s[i..i + n], 0, n)
  {
  }

  lemma SliceCut(s: string, k: nat, m: nat, j: nat)
    requires k <= m <= j <= |s|
    ensures s[k..j] == s[k..m] + s[m..j]
  {
  }

  lemma {:induction false} SkippedIsBlank(s: string, i: nat)
    requires i <= |s|
    ensures Blank(s[i..SkipSpace(s, i)])
    decreases |s| - i
  {
    var j := SkipSpace(s, i);
    if j > i {
      var n := if SpaceAt(s, i, 1) then 1 else if SpaceAt(s, i, 2) then 2 else 3;
      SkippedIsBlank(s, i + n);
      assert s[i..j][n..] == s[i + n..j];
      assert SpaceAt(s[i..j], 0, n);
    }
  }

  lemma {:induction false} SkippedBackIsBlank(s: string, lo: nat, j: nat)
    requires lo <= j <= |s|
    ensures Blank(s[SkipSpaceBack(s, lo, j)..j])
    decreases j
  {
    var k := SkipSpaceBack(s, lo, j);
    if k < j {
      var n := if SpaceBefore(s, lo, j, 1) then 1 else if SpaceBefore(s, lo, j, 2) then 2 else 3;
      SkippedBackIsBlank(s, lo, j - n);
      BlankOneBack(s, k, j, n);
    }
  }

  lemma BlankOneBack(s: string, k: nat, j: nat, n: nat)
    requires k <= j - n && j <= |s| && SpaceAt(s, j - n, n) && Blank(s[k..j - n])
    ensures Blank(s[k..j])
  {
    SpaceAlone(s, j - n, n);
    BlankOneMore(s[k..j - n], s[j - n..j]);
    SliceCut(s, k, j - n, j);
  }

  /** Trimming cuts off nothing but space runes. */
  lemma OnlySpaceGoes(s: string) returns (before: string, after: string)
    ensures s == before + TrimSpace(s) + after && Blank(before) && Blank(after)
  {
    var lo := SkipSpace(s, 0);
    var hi := SkipSpaceBack(s, lo, |s|);
    before, after := s[0..lo], s[hi..|s|];
    SkippedIsBlank(s, 0);
    SkippedBackIsBlank(s, lo, |s|);
    SliceCut(s, 0, lo, hi);
    SliceCut(s, 0, hi, |s|);
  }

  /** A text that begins and ends with visible ASCII is trimmed. */
  lemma VisibleEndsTrimmed(s: string)
    requires s != "" && ' ' < s[0] < '\U{7F}' && ' ' < s[|s| - 1] < '\U{7F}'
    ensures TrimSpace(s) == s
  {
    assert Trimmed(s);
    TrimSpaceTrims(s);
  }

  /** A value that a line can carry: no newline, no space at either end. */
  ghost predicate Plain(v: string) {
    '\n' !in v && Trimmed(v)
  }

  // ----- ReplaceAll -----------------------------------------------------------------------

  /** `strings.ReplaceAll`: leftmost matches, left to right; an empty pattern matches before every
      rune and at the end. */
  function ReplaceAll(s: string, pat: string, sub: string): string {
    if pat == "" then AroundRunes(s, sub) else ReplaceMatches(s, pat, sub)
  }

  function ReplaceMatches(s: string, pat: string, sub: string): string
    requires pat != ""
    decreases |s|
  {
    match Index(s, pat)
    case None => s
    case Some(i) => s[..i] + (sub + ReplaceMatches(s[i + |pat|..], pat, sub))
  }

  function AroundRunes(s: string, sub: string): string
    decreases |s|
  {
    if s == "" then sub
    else
      var k := RuneWidth(s);
      sub + (s[..k] + AroundRunes(s[k..], sub))
  }

  function JoinWith(parts: seq<string>, sep: string): string {
    if parts == [] then ""
    else if |parts| == 1 then parts[0]
    else parts[0] + (sep + JoinWith(parts[1..], sep))
  }

  /** The text is these parts with the pattern between them, each time at its first place. */
  ghost predicate CutAt(s: string, pat: string, parts: seq<string>)
    decreases |parts|
  {
    if |parts| <= 1 then parts == [s] && !Contains(s, pat)
    else
      var rest := JoinWith(parts[1..], pat);
      && s == parts[0] + (pat + rest) && Index(parts[0] + pat, pat) == Some(|parts[0]|)
      && CutAt(rest, pat, parts[1..])
  }

  lemma FirstPlace(part: string, pat: string, rest: string)
    requires pat != "" && Index(part + pat, pat) == Some(|part|)
    ensures Index(part + (pat + rest), pat) == Some(|part|)
  {
    var s := part + (pat + rest);
    assert s == (part + pat) + rest;
    forall j: nat | j <= |part|
      ensures OccursAt(s, pat, j) <==> OccursAt(part + pat, pat, j)
    {
      OccursInFront(part + pat, rest, pat, j);
    }
  }

  lemma ReplaceFirst(part: string, pat: string, sub: string, rest: string, s: string)
    requires pat != "" && s == part + (pat + rest) && Index(s, pat) == Some(|part|)
    ensures ReplaceMatches(s, pat, sub) == part + (sub + ReplaceMatches(rest, pat, sub))
  {
    assert s[..|part|] == part && s[|part| + |pat|..] == rest;
  }

  /** Replacing puts the other text between the same parts. */
  lemma {:induction false} ReplaceAllIs(s: string, pat: string, sub: string, parts: seq<string>)
    requires pat != "" && CutAt(s, pat, parts)
    ensures ReplaceMatches(s, pat, sub) == JoinWith(parts, sub) == ReplaceAll(s, pat, sub)
    decreases |parts|
  {
    if |parts| > 1 {
      var rest := JoinWith(parts[1..], pat);
      FirstPlace(parts[0], pat, rest);
      ReplaceFirst(parts[0], pat, sub, rest, s);
      ReplaceAllIs(rest, pat, sub, parts[1..]);
    }
  }

  lemma UpToFirst(s: string, pat: string, i: nat)
    requires pat != "" && Index(s, pat) == Some(i)
    ensures s == s[..i] + (pat + s[i + |pat|..]) && Index(s[..i] + pat, pat) == Some(i)
  {
    var t := s[..i] + pat;
    assert s == t + s[i + |pat|..];
    forall j: nat | j <= i
      ensures OccursAt(s, pat, j) <==> OccursAt(t, pat, j)
    {
      OccursInFront(t, s[i + |pat|..], pat, j);
    }
  }

  /** Every text can be cut so. */
  lemma {:induction false} CutExists(s: string, pat: string) returns (parts: seq<string>)
    requires pat != ""
    ensures CutAt(s, pat, parts)
    decreases |s|
  {
    if Index(s, pat).None? {
      parts := [s];
    } else {
      var i := Index(s, pat).value;
      UpToFirst(s, pat, i);
      var rest := CutExists(s[i + |pat|..], pat);
      CutIsJoined(s[i + |pat|..], pat, rest);
      parts := [s[..i]] + rest;
      assert parts[1..] == rest;
    }
  }

  lemma CutIsJoined(s: string, pat: string, parts: seq<string>)
    requires CutAt(s, pat, parts)
    ensures s == JoinWith(parts, pat) && parts != []
  {
  }

  /** The text that these runes make. */
  function Text(runes: seq<nat>): string
    requires forall i :: 0 <= i < |runes| ==> Scalar(runes[i])
  {
    if runes == [] then "" else Utf8(runes[0]) + Text(runes[1..])
  }

  /** The empty pattern puts the other text before every rune and at the end. */
  lemma {:induction false} ReplaceNothing(runes: seq<nat>, sub: string)
    requires forall i :: 0 <= i < |runes| ==> Scalar(runes[i])
    ensures ReplaceAll("", "", sub) == sub
    ensures runes != [] ==>
              ReplaceAll(Text(runes), "", sub) == sub + (Utf8(runes[0]) + ReplaceAll(Text(runes[1..]), "", sub))
  {
    if runes != [] {
      var first, rest := Utf8(runes[0]), Text(runes[1..]);
      RuneWidthEncoded(runes[0], rest);
      assert (first + rest)[..|first|] == first && (first + rest)[|first|..] == rest;
    }
  }

  // ----- Split and Join -------------------------------------------------------------------

  /** `strings.Split` with a one-byte separator. */
  function Split(s: string, c: char): (parts: seq<string>)
    ensures parts != []
  {
    if s == "" then [""]
    else
      var rest := Split(s[1..], c);
      if s[0] == c then [""] + rest else [[s[0]] + rest[0]] + rest[1..]
  }

  /** `strings.Join` with a one-byte separator. */
  function Join(parts: seq<string>, c: char): string {
    if parts == [] then ""
    else if |parts| == 1 then parts[0]
    else parts[0] + ([c] + Join(parts[1..], c))
  }

  /** Splitting cuts at the first separator. */
  lemma {:induction false} SplitFirst(p: string, c: char, rest: string)
    requires c !in p
    ensures Split(p + ([c] + rest), c) == [p] + Split(rest, c)
    ensures Split(p, c) == [p]
  {
    if p == "" {
      assert "" + ([c] + rest) == [c] + rest;
    } else {
      var t := p[1..];
      SplitFirst(t, c, rest);
      assert p == [p[0]] + t;
      assert (p + ([c] + rest))[1..] == t + ([c] + rest);
    }
  }

  /** Splitting undoes joining, for separator-free parts. */
  lemma {:induction false} SplitJoin(parts: seq<string>, c: char)
    requires parts != [] && forall i :: 0 <= i < |parts| ==> c !in parts[i]
    ensures Split(Join(parts, c), c) == parts
  {
    if |parts| == 1 {
      SplitFirst(parts[0], c, "");
    } else {
      SplitJoin(parts[1..], c);
      SplitFirst(parts[0], c, Join(parts[1..], c));
    }
  }

  /** Joining undoes splitting, and the parts are separator-free. */
  lemma {:induction false} JoinSplit(s: string, c: char)
    ensures Join(Split(s, c), c) == s
    ensures forall i :: 0 <= i < |Split(s, c)| ==> c !in Split(s, c)[i]
  {
    if s != "" {
      JoinSplit(s[1..], c);
      var rest := Split(s[1..], c);
      assert s == [s[0]] + s[1..];
      if s[0] == c {
        assert Split(s, c)[1..] == rest;
      } else {
        assert Split(s, c)[1..] == rest[1..];
        if |rest| > 1 {
          assert [s[0]] + (rest[0] + ([c] + Join(rest[1..], c))) == ([s[0]] + rest[0]) + ([c] + Join(rest[1..], c));
        }
      }
    }
  }

  // ----- bufio.Scanner --------------------------------------------------------------------

  /** The longest line a `bufio.Scanner` with its default buffer delivers. */
  const MAX_LINE := 65535

  function DropCR(s: string): string {
    if s != "" && s[|s| - 1] == '\r' then s[..|s| - 1] else s
  }

  function FirstNewline(s: string): (i: nat)
    ensures i <= |s|
  {
    if s == "" || s[0] == '\n' then 0 else 1 + FirstNewline(s[1..])
  }

  /** The lines a scanner delivers; it gives up at the first line that is too long. */
  function ScanLines(data: string): seq<string> {
    if data == "" then []
    else
      var i := FirstNewline(data);
      if i > MAX_LINE then []
      else [DropCR(data[..i])] + if i < |data| then ScanLines(data[i + 1..]) else []
  }

  function Unlines(lines: seq<string>): string {
    if lines == [] then "" else lines[0] + ("\n" + Unlines(lines[1..]))
  }

  lemma {:induction false} UnlinesOneMore(lines: seq<string>, line: string)
    ensures Unlines(lines + [line]) == Unlines(lines) + (line + "\n")
  {
    if lines == [] {
      assert [] + [line] == [line] && [line][1..] == [];
      assert Unlines([line]) == line + ("\n" + "");
    } else {
      assert (lines + [line])[1..] == lines[1..] + [line];
      UnlinesOneMore(lines[1..], line);
    }
  }

  ghost predicate PlainLine(line: string) {
    '\n' !in line && (line != "" ==> line[|line| - 1] != '\r')
  }

  lemma {:induction false} FirstNewlineAt(line: string, rest: string)
    requires '\n' !in line
    ensures FirstNewline(line + ("\n" + rest)) == |line|
  {
    if line == "" {
      assert "" + ("\n" + rest) == "\n" + rest;
    } else {
      FirstNewlineAt(line[1..], rest);
      assert (line + ("\n" + rest))[1..] == line[1..] + ("\n" + rest);
    }
  }

  /** The text up to the first newline has none. */
  lemma {:induction false} NoEarlierNewline(s: string)
    ensures '\n' !in s[..FirstNewline(s)]
  {
    if s != "" && s[0] != '\n' {
      NoEarlierNewline(s[1..]);
      assert s[..FirstNewline(s)] == [s[0]] + s[1..][..FirstNewline(s[1..])];
    }
  }

  lemma ScanAt(data: string, line: string, rest: string)
    requires data != "" && FirstNewline(data) < |data|
    requires data[..FirstNewline(data)] == line && data[FirstNewline(data) + 1..] == rest
    requires DropCR(line) == line
    ensures ScanLines(data) == if |line| > MAX_LINE then [] else [line] + ScanLines(rest)
  {
  }

  lemma ScanOne(line: string, rest: string)
    requires PlainLine(line)
    ensures ScanLines(line + ("\n" + rest)) == if |line| > MAX_LINE then [] else [line] + ScanLines(rest)
  {
    var data := line + ("\n" + rest);
    FirstNewlineAt(line, rest);
    ScanAt(data, line, rest);
  }

  /** The lines before the first that is too long. */
  function Fitting(lines: seq<string>): seq<string> {
    if lines == [] || |lines[0]| > MAX_LINE then [] else [lines[0]] + Fitting(lines[1..])
  }

  /** Scanning undoes printing lines, up to the first line that is too long. */
  lemma {:induction false} ScanUnlines(lines: seq<string>)
    requires forall i :: 0 <= i < |lines| ==> PlainLine(lines[i])
    ensures ScanLines(Unlines(lines)) == Fitting(lines)
  {
    if lines != [] {
      ScanOne(lines[0], Unlines(lines[1..]));
      ScanUnlines(lines[1..]);
    }
  }

  lemma {:induction false} FittingAll(lines: seq<string>)
    ensures Fitting(lines) == lines <==> forall i :: 0 <= i < |lines| ==> |lines[i]| <= MAX_LINE
    ensures |Fitting(lines)| <= |lines|
  {
    if lines != [] {
      var rest := lines[1..];
      FittingAll(rest);
      assert lines == [lines[0]] + rest;
      assert forall i :: 1 <= i < |lines| ==> lines[i] == rest[i - 1];
      if |lines[0]| <= MAX_LINE && (forall i :: 0 <= i < |rest| ==> |rest[i]| <= MAX_LINE) {
        forall i | 0 <= i < |lines|
          ensures |lines[i]| <= MAX_LINE
        {
          assert i > 0 ==> |rest[i - 1]| <= MAX_LINE;
        }
      }
    }
  }
}
