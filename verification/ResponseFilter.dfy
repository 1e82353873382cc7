/**
 The response filter of internal/engine/response_pipeline.go: sensitive words are starred out one
 after another, the text is cut to 4096 bytes, and trimmed. The main results say for which words
 this works, whatever the other words and the text are.
 */
module ResponseFilter {
  import opened Common
  import opened GoStrings

  const MAX_RESPONSE_LEN := 4096
  const STARS := "***"
  const DOTS := "..."

  // ----- specification --------------------------------------------------------------------

  function Redact(words: seq<string>, s: string): string {
    if words == [] then s else Redact(words[1..], ReplaceAll(s, words[0], STARS))
  }

  function Cut(s: string): string {
    if |s| > MAX_RESPONSE_LEN then s[..MAX_RESPONSE_LEN] + DOTS else s
  }

  function Filtered(words: seq<string>, s: string): string {
    TrimSpace(Cut(Redact(words, s)))
  }

  /** No inserted `***` can complete the word. */
  ghost predicate StarProof(w: string) {
    && w != ""
    && w[0] != '*' && w[|w| - 1] != '*'
    && !Contains(w, STARS)
  }

  /** Neither an inserted `***` nor the `...` after a cut can complete the word. */
  ghost predicate LeakProof(w: string) {
    StarProof(w) && w[|w| - 1] != '.'
  }

  /** The text does not begin with a space. */
  predicate NoSpaceFirst(w: string) {
    !SpaceAt(w, 0, 1) && !SpaceAt(w, 0, 2) && !SpaceAt(w, 0, 3)
  }

  /** The word can stand in the first `room` bytes of a reply; alone there it must not begin with a space. */
  predicate Fits(w: string, room: nat) {
    |w| < room || (|w| == room && NoSpaceFirst(w))
  }

  /** A `***` can complete the word in a reply: inside it, at its end, or before it. */
  ghost predicate StarsComplete(w: string) {
    || w == ""
    || ((Contains(w, STARS) || w[|w| - 1] == '*') && Fits(w, MAX_RESPONSE_LEN))
    || (w[0] == '*' && |w| <= MAX_RESPONSE_LEN - 2)
    || (|w| >= 2 && w[..2] == STARS[..2] && |w| <= MAX_RESPONSE_LEN - 1)
  }

  predicate EndsWithDots(w: string, k: nat) {
    1 <= k <= 3 && k <= |w| && w[|w| - k..] == DOTS[..k]
  }

  /** The dots after a cut can complete the word. */
  ghost predicate DotsComplete(w: string) {
    exists k :: EndsWithDots(w, k) && Fits(w, MAX_RESPONSE_LEN + k)
  }

  ghost predicate CanLeak(w: string) {
    StarsComplete(w) || DotsComplete(w)
  }

  // ----- redaction ------------------------------------------------------------------------

  lemma StarsAt(s: string, n: nat)
    ensures OccursAt(s, STARS, n) <==> n + 3 <= |s| && s[n] == s[n + 1] == s[n + 2] == '*'
  {
  }

  /** The word at `i` meets the stars at `n`. */
  predicate Meets(s: string, w: string, i: nat, n: nat) {
    OccursAt(s, STARS, n) && i < n + 3 && n < i + |w|
  }

  ghost predicate TouchedAt(s: string, w: string, i: nat) {
    exists n: nat :: Meets(s, w, i, n)
  }

  /** Each occurrence of the word meets a `***` of the text. */
  ghost predicate Touched(s: string, w: string) {
    forall i: nat :: OccursAt(s, w, i) ==> TouchedAt(s, w, i)
  }

  /** What a word looks like that meets a `***`. */
  lemma TouchedShape(s: string, w: string, i: nat)
    requires w != "" && OccursAt(s, w, i) && TouchedAt(s, w, i)
    ensures || Contains(w, STARS) || w[|w| - 1] == '*' || (w[0] == '*' && i >= 2)
            || (|w| >= 2 && w[..2] == STARS[..2] && i >= 1)
  {
    var n: nat :| Meets(s, w, i, n);
    StarsAt(s, n);
    if n >= i && n + 3 <= i + |w| {
      OccursInSlice(s, i, i + |w|, STARS, n - i);
    } else {
      MeetingShape(s, w, i, n);
    }
  }

  lemma MeetingShape(s: string, w: string, i: nat, n: nat)
    requires w != "" && i + |w| <= |s| && w == s[i..i + |w|] && i < n + 3 && n < i + |w|
    requires n + 3 <= |s| && s[n] == s[n + 1] == s[n + 2] == '*' && (n < i || n + 3 > i + |w|)
    ensures || w[|w| - 1] == '*' || (w[0] == '*' && i >= 2)
            || (|w| >= 2 && w[..2] == STARS[..2] && i >= 1)
  {
    assert w[0] == s[i] && w[|w| - 1] == s[i + |w| - 1];
    if |w| >= 2 {
      assert w[1] == s[i + 1];
    }
  }

  /** What stands before the end of a text may as well be a `***`. */
  lemma EndTouched(z: string, y: string, w: string)
    requires w != "" && Touched(z + y, w)
    ensures Touched(STARS + y, w)
  {
    var t := STARS + y;
    forall i: nat | OccursAt(t, w, i)
      ensures TouchedAt(t, w, i)
    {
      if i < 3 {
        StarsAt(t, 0);
        assert Meets(t, w, i, 0);
      } else {
        OccursInEnd(STARS, y, w, i - 3);
        OccursInEnd(z, y, w, i - 3);
        var n: nat :| Meets(z + y, w, |z| + i - 3, n);
        var m := if n >= |z| then n - |z| + 3 else n + 3 - |z|;
        StarsInEnd(z, y, n);
        assert Meets(t, w, i, m);
      }
    }
  }

  lemma StarsInEnd(z: string, y: string, n: nat)
    requires OccursAt(z + y, STARS, n) && |z| < n + 3
    ensures OccursAt(STARS + y, STARS, if n >= |z| then n - |z| + 3 else n + 3 - |z|)
  {
    StarsAt(z + y, n);
    if n >= |z| {
      StarsAt(STARS + y, n - |z| + 3);
    } else {
      StarsAt(STARS + y, n + 3 - |z|);
    }
  }

  /** A `***` in front of which a text is cut off still touches what it touched. */
  lemma FrontTouched(a: string, y: string, b: string, w: string, i: nat)
    requires i + |w| <= |a| && TouchedAt(a + y, w, i)
    ensures TouchedAt(a + (STARS + b), w, i)
  {
    var n: nat :| Meets(a + y, w, i, n);
    StarsAt(a + y, n);
    StarsAt(a + (STARS + b), n);
    assert Meets(a + (STARS + b), w, i, n);
  }

  /** A word lies before an inserted `***`, behind its first byte, or meets it. */
  lemma JoinTouched(a: string, b: string, w: string)
    requires w != "" && Touched(STARS + b, w)
    requires forall i: nat :: OccursAt(a, w, i) ==> TouchedAt(a + (STARS + b), w, i)
    ensures Touched(a + (STARS + b), w)
  {
    var y := STARS + b;
    var t := a + y;
    forall i: nat | OccursAt(t, w, i)
      ensures TouchedAt(t, w, i)
    {
      if i + |w| <= |a| {
        OccursInFront(a, y, w, i);
      } else if i >= |a| {
        OccursInEnd(a, y, w, i - |a|);
        var n: nat :| Meets(y, w, i - |a|, n);
        OccursInEnd(a, y, STARS, n);
        assert Meets(t, w, i, n + |a|);
      } else {
        StarsAt(t, |a|);
        assert Meets(t, w, i, |a|);
      }
    }
  }

  /** A text that the word does not occur in. */
  lemma AbsentTouched(pre: string, q: string, w: string)
    requires w != "" && !Contains(q, w) && (pre == "" || pre == STARS)
    ensures Touched(pre + q, w)
  {
    assert "" + q == q;
    assert Touched("" + q, w);
    EndTouched("", q, w);
  }

  /** One replacement pass leaves a word only where it meets a `***`, if it is the pattern or was so before. */
  lemma {:induction false} PassTouches(pre: string, q: string, pat: string, w: string)
    requires w != "" && pat != "" && (pre == "" || pre == STARS)
    requires pat == w || Touched(pre + q, w)
    ensures Touched(pre + ReplaceAll(q, pat, STARS), w)
    decreases |q|
  {
    if Index(q, pat).None? {
      if pat == w {
        AbsentTouched(pre, q, w);
      }
    } else {
      var k := Index(q, pat).value;
      var gap, rest := q[..k], q[k + |pat|..];
      var tail := ReplaceAll(rest, pat, STARS);
      if pat != w {
        assert pre + q == pre + q[..k + |pat|] + rest;
        EndTouched(pre + q[..k + |pat|], rest, w);
      }
      PassTouches(STARS, rest, pat, w);
      GapTouched(pre, q, pat, w, tail);
      JoinTouched(pre + gap, tail, w);
      assert pre + (gap + (STARS + tail)) == (pre + gap) + (STARS + tail);
    }
  }

  lemma GapTouched(pre: string, q: string, pat: string, w: string, tail: string)
    requires w != "" && pat != "" && Index(q, pat).Some? && (pre == "" || pre == STARS)
    requires pat == w || Touched(pre + q, w)
    ensures
      var a := pre + q[..Index(q, pat).value];
      forall i: nat :: OccursAt(a, w, i) ==> TouchedAt(a + (STARS + tail), w, i)
  {
    var k := Index(q, pat).value;
    var a := pre + q[..k];
    forall i: nat | OccursAt(a, w, i)
      ensures TouchedAt(a + (STARS + tail), w, i)
    {
      assert q == q[..k] + q[k..] && pre + q == a + q[k..];
      OccursInFront(a, q[k..], w, i);
      if i < |pre| {
        StarsAt(a + (STARS + tail), 0);
        assert Meets(a + (STARS + tail), w, i, 0);
      } else if pat == w {
        OccursInEnd(pre, q, w, i - |pre|);
      } else {
        FrontTouched(a, q[k..], tail, w, i);
      }
    }
  }

  /** So does a pass with the empty pattern, which puts a `***` around every rune. */
  lemma {:induction false} RunesTouched(q: string, w: string)
    requires w != "" && Touched(STARS + q, w)
    ensures Touched(ReplaceAll(q, "", STARS), w)
    decreases |q|
  {
    if q == "" {
      assert STARS + q == STARS;
    } else {
      var k := RuneWidth(q);
      var rune, rest := q[..k], q[k..];
      var tail := ReplaceAll(rest, "", STARS);
      var after := if rest == "" then ""
                   else rest[..RuneWidth(rest)] + ReplaceAll(rest[RuneWidth(rest)..], "", STARS);
      assert tail == STARS + after;
      assert STARS + q == STARS + rune + rest;
      EndTouched(STARS + rune, rest, w);
      RunesTouched(rest, w);
      RuneTouched(q, after, w);
      JoinTouched(STARS + rune, after, w);
      assert STARS + (rune + tail) == (STARS + rune) + (STARS + after);
    }
  }

  lemma RuneTouched(q: string, after: string, w: string)
    requires w != "" && q != "" && Touched(STARS + q, w)
    ensures
      var a := STARS + q[..RuneWidth(q)];
      forall i: nat :: OccursAt(a, w, i) ==> TouchedAt(a + (STARS + after), w, i)
  {
    var k := RuneWidth(q);
    var a := STARS + q[..k];
    forall i: nat | OccursAt(a, w, i)
      ensures TouchedAt(a + (STARS + after), w, i)
    {
      assert STARS + q == a + q[k..];
      OccursInFront(a, q[k..], w, i);
      if i < 3 {
        StarsAt(a + (STARS + after), 0);
        assert Meets(a + (STARS + after), w, i, 0);
      } else {
        var n: nat :| Meets(STARS + q, w, i, n);
        StarsAt(STARS + q, n);
        StarIsRune(q, (if n < i then i else n) - 3);
        StarsAt(a + (STARS + after), 3);
        assert Meets(a + (STARS + after), w, i, 3);
      }
    }
  }

  /** A star is a rune of its own. */
  lemma StarIsRune(q: string, m: nat)
    requires m < |q| && q[m] == '*' && m < RuneWidth(q)
    ensures m == 0 && RuneWidth(q) == 1
  {
  }

  /** All passes: a listed word is left only where it meets a `***`, and later passes keep it so. */
  lemma {:induction false} RedactTouches(words: seq<string>, s: string, w: string)
    requires w != "" && (w in words || Touched(s, w))
    ensures Touched(Redact(words, s), w)
  {
    if words != [] {
      var r := ReplaceAll(s, words[0], STARS);
      assert "" + s == s && "" + r == r;
      if words[0] == w || Touched(s, w) {
        if words[0] == "" {
          EndTouched("", s, w);
          RunesTouched(s, w);
        } else {
          PassTouches("", s, words[0], w);
        }
      }
      RedactTouches(words[1..], r, w);
    }
  }

  /** So a star-proof word of the list is gone, and later passes do not bring it back. */
  lemma RedactRemoves(words: seq<string>, s: string, w: string)
    requires StarProof(w)
    requires w in words || !Contains(s, w)
    ensures !Contains(Redact(words, s), w)
  {
    RedactTouches(words, s, w);
    forall i: nat
      ensures !OccursAt(Redact(words, s), w, i)
    {
      if OccursAt(Redact(words, s), w, i) {
        TouchedShape(Redact(words, s), w, i);
      }
    }
  }

  // ----- the cut and the trim -------------------------------------------------------------

  /** A word that begins a trimmed text does not begin with a space. */
  lemma FirstInTrimmed(t: string, w: string, i: nat)
    requires SkipSpace(t, 0) <= i && OccursAt(t, w, i)
    ensures i == 0 ==> NoSpaceFirst(w)
  {
    assert w == t[i..i + |w|];
  }

  /** A listed word that occurs in the redacted part of a reply. */
  lemma LeftByRedaction(words: seq<string>, s: string, t: string, w: string, i: nat)
    requires w in words && w != "" && OccursAt(Redact(words, s), w, i) && i + |w| <= MAX_RESPONSE_LEN
    requires SkipSpace(t, 0) <= i && OccursAt(t, w, i)
    ensures StarsComplete(w)
  {
    RedactTouches(words, s, w);
    TouchedShape(Redact(words, s), w, i);
    FirstInTrimmed(t, w, i);
  }

  /** A word that reaches into the dots after a cut. */
  lemma ReachesDots(r: string, w: string, i: nat)
    requires |r| > MAX_RESPONSE_LEN && w != "" && SkipSpace(Cut(r), 0) <= i
    requires OccursAt(Cut(r), w, i) && i + |w| > MAX_RESPONSE_LEN
    ensures DotsComplete(w)
  {
    var t := Cut(r);
    var over := i + |w| - MAX_RESPONSE_LEN;
    var k := if over <= |w| then over else |w|;
    FirstInTrimmed(t, w, i);
    DotsAtEnd(t, w, i, over, k);
    assert EndsWithDots(w, k);
  }

  lemma DotsAtEnd(t: string, w: string, i: nat, over: nat, k: nat)
    requires |t| == MAX_RESPONSE_LEN + 3 && t[MAX_RESPONSE_LEN..] == DOTS && OccursAt(t, w, i)
    requires i + |w| == MAX_RESPONSE_LEN + over && 0 < k <= over && k <= |w|
    ensures EndsWithDots(w, k)
  {
    var end := w[|w| - k..];
    assert end == t[i + |w| - k..i + |w|];
    forall j | 0 <= j < k
      ensures end[j] == DOTS[j]
    {
      assert end[j] == t[i + |w| - k + j] == t[MAX_RESPONSE_LEN..][over - k + j];
    }
  }

  /** Where a listed word is left in a reply, stars or dots can complete it. */
  lemma LeakHasCause(words: seq<string>, s: string, w: string)
    requires w in words && Contains(Filtered(words, s), w)
    ensures CanLeak(w)
  {
    var r := Redact(words, s);
    var t := Cut(r);
    var j: nat :| OccursAt(TrimSpace(t), w, j);
    var i := BeforeTrim(t, w, j);
    if w != "" {
      if i + |w| <= MAX_RESPONSE_LEN {
        BeforeCut(r, w, i);
        LeftByRedaction(words, s, t, w, i);
      } else {
        ReachesDots(r, w, i);
      }
    }
  }

  lemma BeforeTrim(t: string, w: string, j: nat) returns (i: nat)
    requires OccursAt(TrimSpace(t), w, j)
    ensures SkipSpace(t, 0) <= i && OccursAt(t, w, i)
  {
    var lo := SkipSpace(t, 0);
    OccursInSlice(t, lo, lo + |TrimSpace(t)|, w, j);
    i := lo + j;
  }

  lemma BeforeCut(r: string, w: string, i: nat)
    requires OccursAt(Cut(r), w, i) && i + |w| <= MAX_RESPONSE_LEN
    ensures OccursAt(r, w, i)
  {
    assert r[i..i + |w|] == Cut(r)[i..i + |w|];
  }

  lemma LeakProofCannotLeak(w: string)
    ensures LeakProof(w) ==> !CanLeak(w)
    ensures |w| <= MAX_RESPONSE_LEN - 2 ==> (LeakProof(w) <==> !CanLeak(w))
  {
    if k :| EndsWithDots(w, k) && Fits(w, MAX_RESPONSE_LEN + k) {
      assert w[|w| - 1] == w[|w| - k..][k - 1] == '.';
    }
    if w != "" && w[|w| - 1] == '.' {
      assert EndsWithDots(w, 1);
    }
  }

  /** The filter is complete for a leak-proof word, whatever else is on the list. */
  lemma FilterComplete(words: seq<string>, s: string, w: string)
    requires LeakProof(w) && w in words
    ensures !Contains(Filtered(words, s), w)
  {
    LeakProofCannotLeak(w);
    if Contains(Filtered(words, s), w) {
      LeakHasCause(words, s, w);
    }
  }

  lemma FilteredLength(words: seq<string>, s: string)
    ensures |Filtered(words, s)| <= MAX_RESPONSE_LEN + 3
  {
    var lo := TrimSpacePart(Cut(Redact(words, s)));
  }

  /** The simple rule for writing a list: non-empty words without `*` and without `.`. */
  lemma PlainWordsAreFiltered(words: seq<string>, s: string)
    requires forall w :: w in words ==> w != "" && '*' !in w && '.' !in w
    ensures forall w :: w in words ==> !Contains(Filtered(words, s), w)
  {
    forall w | w in words
      ensures !Contains(Filtered(words, s), w)
    {
      assert !Contains(w, STARS) by {
        forall i: nat
          ensures !OccursAt(w, STARS, i)
        {
          assert i + 3 <= |w| ==> w[i] in w && w[i..i + 3][0] == w[i];
        }
      }
      FilterComplete(words, s, w);
    }
  }

  // ----- the other words leak -------------------------------------------------------------

  /** A visible byte other than `*` and the given one. */
  function Filler(c: char): (f: char)
    ensures f != c && f in "xy"
  {
    if c == 'x' then 'y' else 'x'
  }

  /** What may stand before a leaking word: nothing, or one visible byte that does not begin the word. */
  predicate Front(front: string, w: string) {
    front == "" || (w != "" && front == [Filler(w[0])])
  }

  /** What a pass over `pre + w + post` gives when the match after `pre` is the first and last. */
  lemma OneMatch(pre: string, w: string, post: string)
    requires w != ""
    requires forall i: nat :: i < |pre| ==> !OccursAt(pre + w + post, w, i)
    requires !Contains(post, w)
    ensures Redact([w], pre + w + post) == pre + STARS + post
  {
    var s := pre + w + post;
    assert s[|pre|..|pre| + |w|] == w;
    assert OccursAt(s, w, |pre|);
    assert Index(s, w).value == |pre|;
    assert s[..|pre|] == pre && s[|pre| + |w|..] == post;
    assert Index(post, w).None?;
    assert ReplaceAll(post, w, STARS) == post;
    assert ReplaceAll(s, w, STARS) == pre + (STARS + post);
    assert pre + (STARS + post) == pre + STARS + post;
    assert [w][1..] == [];
  }

  /** `s` is redacted to `r`, which has the word at `i`, does not begin with a space, and ends visibly. */
  ghost predicate Leaks(words: seq<string>, s: string, r: string, w: string, i: nat) {
    && w in words && Redact(words, s) == r && OccursAt(r, w, i)
    && NoSpaceFirst(r) && r != "" && ' ' < r[|r| - 1] < '\U{7F}'
  }

  /** A word that begins with `m` stars is completed by the stars put before its own tail. */
  lemma LeadingStarsLeak(w: string, m: nat) returns (s: string, r: string)
    requires w != "" && 1 <= m <= 2 && m <= |w| && w[..m] == STARS[..m]
    ensures Leaks([w], s, r, w, 3 - m)
  {
    var f := Filler(w[|w| - 1]);
    var post := w[m..] + [f];
    s, r := "" + w + post, "" + STARS + post;
    TailHoldsNoMatch(w, m, f);
    OneMatch("", w, post);
    LeadingInPlace(w, m, [f]);
    InPlace(STARS[..3 - m], w, [f], r);
    VisibleBetween(w[m..], f, r);
  }

  lemma VisibleBetween(mid: string, f: char, r: string)
    requires r == "" + STARS + (mid + [f]) && f in "xy"
    ensures NoSpaceFirst(r) && r != "" && r[|r| - 1] == f
  {
    assert r[0] == '*';
  }

  lemma TailHoldsNoMatch(w: string, m: nat, f: char)
    requires 1 <= m <= |w| && f != w[|w| - 1]
    ensures !Contains(w[m..] + [f], w)
  {
    var post := w[m..] + [f];
    forall i: nat
      ensures !OccursAt(post, w, i)
    {
      assert i == 0 && m == 1 ==> post[0..|w|][|w| - 1] == f;
    }
  }

  lemma LeadingInPlace(w: string, m: nat, end: string)
    requires 1 <= m <= 2 && m <= |w| && w[..m] == STARS[..m]
    ensures "" + STARS + (w[m..] + end) == STARS[..3 - m] + w + end
  {
    assert w == STARS[..m] + w[m..];
    assert STARS == STARS[..3 - m] + STARS[..m];
  }

  lemma InPlace(front: string, w: string, end: string, r: string)
    requires r == front + w + end
    ensures OccursAt(r, w, |front|)
  {
  }

  /** A word that ends with `*` is completed by the stars put for another word, here the longest of its length
      that a filler makes. */
  lemma TrailingStarLeaks(w: string, front: string) returns (words: seq<string>, s: string, r: string)
    requires |w| >= 2 && w[|w| - 1] == '*' && Front(front, w) && (front == "" ==> NoSpaceFirst(w) && |w| >= 3)
    ensures Leaks(words, s, r, w, |front|) && r == front + w + "**"
  {
    var n, f := |w|, Filler(w[|w| - 2]);
    var other := seq(n, i => f);
    var pre := front + w[..n - 1];
    words, s, r := [w, other], pre + other + "", pre + STARS + "";
    TrailingNoMatch(w, front, other, f);
    OtherReplaced(w, other, pre, s);
    assert w == w[..n - 1] + "*";
    assert r == front + w + "**";
    InPlace(front, w, "**", r);
    NoSpaceInFront(front, w, "**");
  }

  lemma OtherReplaced(w: string, other: string, pre: string, s: string)
    requires w != "" && other != "" && s == pre + other + "" && !Contains(s, w)
    requires forall i: nat :: i < |pre| ==> !OccursAt(s, other, i)
    ensures Redact([w, other], s) == pre + STARS + ""
  {
    assert Index(s, w).None?;
    assert ReplaceAll(s, w, STARS) == s;
    OneMatch(pre, other, "");
    assert [w, other][1..] == [other];
  }

  lemma NoSpaceInFront(front: string, w: string, end: string)
    requires Front(front, w) && (front == "" ==> NoSpaceFirst(w) && |w| >= 3)
    ensures NoSpaceFirst(front + w + end)
  {
    assert front == "" ==> forall k :: 1 <= k <= 3 && SpaceAt(front + w + end, 0, k) ==> SpaceAt(w, 0, k);
  }

  lemma TrailingNoMatch(w: string, front: string, other: string, f: char)
    requires |w| >= 2 && w[|w| - 1] == '*' && Front(front, w)
    requires f == Filler(w[|w| - 2]) && |other| == |w| && forall i :: 0 <= i < |w| ==> other[i] == f
    ensures
      var pre := front + w[..|w| - 1];
      && !Contains(pre + other + "", w)
      && forall i: nat :: i < |pre| ==> !OccursAt(pre + other + "", other, i)
  {
    var n, pre := |w|, front + w[..|w| - 1];
    var s := pre + other + "";
    forall i: nat
      ensures !OccursAt(s, w, i)
    {
      if i + n <= |s| {
        assert s[i..i + n][0] == s[i] && s[i..i + n][n - 1] == s[i + n - 1];
        assert i + n - 1 < |pre| ==> i == 0 && front != "" && s[0] == Filler(w[0]);
      }
    }
    forall i: nat | i < |pre|
      ensures !OccursAt(s, other, i)
    {
      var last := |pre| - 1;
      assert s[last] == w[n - 2];
      assert i + n <= |s| ==> s[i..i + n][last - i] == s[last];
    }
  }

  /** A word around `***` is completed by the stars put between its own head and tail. */
  lemma InnerStarsLeak(w: string, front: string) returns (s: string, r: string)
    requires Contains(w, STARS) && Front(front, w) && (front == "" ==> NoSpaceFirst(w))
    ensures Leaks([w], s, r, w, |front|) && r == front + w + "x"
  {
    var p := Index(w, STARS).value;
    var pre, post := front + w[..p], w[p + 3..] + "x";
    s, r := pre + w + post, pre + STARS + post;
    InPlace(pre, w, post, s);
    assert s[..|front|] == front;
    NoMatchBeforeFirstStars(s, w, front);
    OneMatch(pre, w, post);
    StarsInPlace(w, p, front);
    InPlace(front, w, "x", r);
    NoSpaceInFront(front, w, "x");
  }

  lemma StarsInPlace(w: string, p: nat, front: string)
    requires OccursAt(w, STARS, p)
    ensures front + w[..p] + STARS + (w[p + 3..] + "x") == front + w + "x"
  {
    assert w == w[..p] + w[p..p + 3] + w[p + 3..];
  }

  lemma NoMatchBeforeFirstStars(s: string, w: string, front: string)
    requires Index(w, STARS).Some? && Front(front, w)
    requires |s| >= |front| && s[..|front|] == front && OccursAt(s, w, |front| + Index(w, STARS).value)
    ensures forall i: nat :: i < |front| + Index(w, STARS).value ==> !OccursAt(s, w, i)
  {
    var n, p, k := |w|, Index(w, STARS).value, |front|;
    forall i: nat | i < k + p
      ensures !OccursAt(s, w, i)
    {
      if i < k {
        assert s[i] == s[..k][i] == Filler(w[0]);
        assert i + n <= |s| ==> s[i..i + n][0] == s[i];
      } else {
        assert i + n <= |s|;
        SliceOfSlice(s, i, i + n, p, p + 3);
        SliceOfSlice(s, k + p, k + p + n, i - k, i - k + 3);
        assert !OccursAt(w, STARS, i - k);
      }
    }
  }

  /** A leak of redaction is one of the whole filter where the word lies before the cut. */
  lemma LeaksThrough(words: seq<string>, s: string, r: string, w: string, i: nat)
    requires Leaks(words, s, r, w, i) && i + |w| <= MAX_RESPONSE_LEN
    ensures Contains(Filtered(words, s), w)
  {
    var t := Cut(r);
    assert forall n :: 1 <= n <= 3 && SpaceAt(t, 0, n) ==> SpaceAt(r, 0, n);
    EndsTrimmed(t);
    assert t[i..i + |w|] == r[i..i + |w|];
    assert OccursAt(t, w, i);
  }

  lemma EndsTrimmed(t: string)
    requires NoSpaceFirst(t) && t != "" && ' ' < t[|t| - 1] < '\U{7F}'
    ensures TrimSpace(t) == t
  {
    assert Trimmed(t);
    TrimSpaceTrims(t);
  }

  /** A word that ends with dots is completed by the dots put after the cut. */
  lemma DotsLeak(w: string, k: nat) returns (s: string)
    requires EndsWithDots(w, k) && Fits(w, MAX_RESPONSE_LEN + k)
    ensures Contains(Filtered([w], s), w)
  {
    var n, f := |w|, Filler(w[0]);
    var m := MAX_RESPONSE_LEN + k - n;
    var fill := seq(m, i => f);
    s := fill + w[..n - k] + "x";
    forall i: nat
      ensures !OccursAt(s, w, i)
    {
      if i + n <= |s| {
        assert s[i..i + n][0] == s[i] && s[i..i + n][n - 1] == s[i + n - 1];
        assert w[n - 1] == w[n - k..][k - 1] == '.';
        assert i < m ==> s[i] == f;
      }
    }
    assert Index(s, w).None?;
    assert ReplaceAll(s, w, STARS) == s;
    assert [w][1..] == [];
    assert Redact([w], s) == s;
    DotsInPlace(w, k, fill, s);
  }

  lemma DotsInPlace(w: string, k: nat, fill: string, s: string)
    requires EndsWithDots(w, k) && Fits(w, MAX_RESPONSE_LEN + k) && |fill| == MAX_RESPONSE_LEN + k - |w|
    requires s == fill + w[..|w| - k] + "x" && (fill != "" ==> ' ' < fill[0] < '\U{7F}')
    ensures Contains(TrimSpace(Cut(s)), w)
  {
    var n, m, t := |w|, |fill|, Cut(s);
    assert w == w[..n - k] + DOTS[..k];
    assert t[m..m + n] == w;
    assert OccursAt(t, w, m);
    assert m == 0 ==> forall j :: 1 <= j <= 3 && SpaceAt(t, 0, j) ==> SpaceAt(w, 0, j);
    assert m > 0 ==> t[0] == fill[0];
    EndsTrimmed(t);
  }

  /** Where stars or dots can complete a word, some list and some text show it. */
  lemma LeakExists(w: string) returns (words: seq<string>, s: string)
    requires CanLeak(w)
    ensures w in words && Contains(Filtered(words, s), w)
  {
    words := [w];
    var r;
    if w == "" {
      s := "";
      assert OccursAt(Filtered(words, s), w, 0);
    } else if w[0] == '*' && |w| <= MAX_RESPONSE_LEN - 2 {
      s, r := LeadingStarsLeak(w, 1);
      LeaksThrough(words, s, r, w, 2);
    } else if |w| >= 2 && w[..2] == STARS[..2] && |w| <= MAX_RESPONSE_LEN - 1 {
      s, r := LeadingStarsLeak(w, 2);
      LeaksThrough(words, s, r, w, 1);
    } else if StarsComplete(w) {
      var front := if |w| < MAX_RESPONSE_LEN then [Filler(w[0])] else "";
      if Contains(w, STARS) {
        s, r := InnerStarsLeak(w, front);
      } else {
        words, s, r := TrailingStarLeaks(w, front);
      }
      LeaksThrough(words, s, r, w, |front|);
    } else {
      var k :| EndsWithDots(w, k) && Fits(w, MAX_RESPONSE_LEN + k);
      s := DotsLeak(w, k);
    }
  }

  lemma StarLeak(w: string) returns (words: seq<string>, s: string)
    requires !StarProof(w)
    ensures w in words && Contains(Redact(words, s), w)
  {
    words := [w];
    var r;
    if w == "" {
      s := "";
      assert OccursAt(Redact(words, s), w, 0);
    } else if w[0] == '*' {
      s, r := LeadingStarsLeak(w, 1);
    } else if Contains(w, STARS) {
      s, r := InnerStarsLeak(w, [Filler(w[0])]);
    } else {
      words, s, r := TrailingStarLeaks(w, [Filler(w[0])]);
    }
  }

  /** Whatever else is listed and whatever the text, redaction leaves no `w`. */
  ghost predicate AlwaysRedacted(w: string) {
    forall words, s :: w in words ==> RedactedFrom(words, s, w)
  }

  ghost predicate RedactedFrom(words: seq<string>, s: string, w: string) {
    !Contains(Redact(words, s), w)
  }

  /** Whatever else is listed and whatever the text, the filter leaves no `w`. */
  ghost predicate AlwaysFiltered(w: string) {
    forall words, s :: w in words ==> FilteredFrom(words, s, w)
  }

  ghost predicate FilteredFrom(words: seq<string>, s: string, w: string) {
    !Contains(Filtered(words, s), w)
  }

  /** Redaction works for a word exactly when the word is star-proof. */
  lemma RedactionWorksIffStarProof(w: string)
    ensures AlwaysRedacted(w) <==> StarProof(w)
  {
    if StarProof(w) {
      forall words, s | w in words
        ensures RedactedFrom(words, s, w)
      {
        RedactRemoves(words, s, w);
      }
    } else {
      var words, s := StarLeak(w);
      assert w in words && !RedactedFrom(words, s, w);
    }
  }

  /** The whole filter works for a word exactly when neither stars nor dots can complete it in a reply. */
  lemma FilterWorksIff(w: string)
    ensures AlwaysFiltered(w) <==> !CanLeak(w)
  {
    if CanLeak(w) {
      var words, s := LeakExists(w);
      assert w in words && !FilteredFrom(words, s, w);
    } else {
      forall words, s | w in words
        ensures FilteredFrom(words, s, w)
      {
        if Contains(Filtered(words, s), w) {
          LeakHasCause(words, s, w);
        }
      }
    }
  }

  /** For a word of up to 4094 bytes that is: exactly when it is leak-proof. */
  lemma FilterWorksIffLeakProof(w: string)
    requires |w| <= MAX_RESPONSE_LEN - 2
    ensures AlwaysFiltered(w) <==> LeakProof(w)
  {
    FilterWorksIff(w);
    LeakProofCannotLeak(w);
  }

  // ----- the pipeline ---------------------------------------------------------------------

  datatype Intent = ChatIntent | SearchIntent | SkillIntent | MemoryIntent | SystemIntent

  datatype Turn = User(text: string) | Assistant(text: string)

  datatype Reply = Content(text: string) | Streaming

  /** What the collaborators answer: the recogniser, the skill router and executor, and the
      language model (`None` for an error). */
  datatype Surroundings = Surroundings(
    intent: Intent,
    routes: Option<seq<string>>,
    execute: Skills,
    model: Option<Model>)

  datatype Model = Model(answer: Option<string>, canStream: bool)

  /** Free of every listed word for which the filter works. */
  ghost predicate Clean(words: seq<string>, text: string) {
    forall w :: w in words && !CanLeak(w) ==> !Contains(text, w)
  }

  lemma FilteredIsClean(words: seq<string>, raw: string)
    ensures Clean(words, Filtered(words, raw))
  {
    forall w | w in words && !CanLeak(w)
      ensures !Contains(Filtered(words, raw), w)
    {
      if Contains(Filtered(words, raw), w) {
        LeakHasCause(words, raw, w);
      }
    }
  }

  /** The turns kept after a run: the user's text and, if the reply is `kept`, the reply itself. */
  ghost predicate Kept(before: seq<Turn>, after: seq<Turn>, text: string, reply: Reply, kept: bool) {
    if kept then reply.Content? && after == before + [User(text), Assistant(reply.text)]
    else after == before + [User(text)]
  }

  /** What a model says, the fallback if it fails. */
  function Said(model: Model, fallback: string): string {
    match model.answer
    case Some(answer) => answer
    case None => fallback
  }

  /** The skills answer. */
  predicate BySkills(env: Surroundings) {
    env.intent.SkillIntent? && env.routes.Some? && env.routes.value != []
  }

  /** Neither skills nor a fixed text answer, and the reply does not stream. */
  predicate ByModel(env: Surroundings, stream: bool) {
    !BySkills(env) && !env.intent.SystemIntent? && (env.intent.MemoryIntent? || !stream || env.model.None?)
  }

  /** An answer that needs no change: no listed word, not too long, no space at either end. */
  ghost predicate Unobjectionable(words: seq<string>, s: string) {
    (forall w :: w in words ==> !Contains(s, w)) && |s| <= MAX_RESPONSE_LEN && Trimmed(s)
  }

  lemma {:induction false} NothingToRedact(words: seq<string>, s: string)
    requires forall w :: w in words ==> !Contains(s, w)
    ensures Redact(words, s) == s
  {
    if words != [] {
      assert words[0] in words;
      assert words[0] == "" ==> OccursAt(s, words[0], 0);
      assert ReplaceAll(s, words[0], STARS) == s;
      NothingToRedact(words[1..], s);
    }
  }

  /** The filter leaves it as it is. */
  lemma UnobjectionableStays(words: seq<string>, s: string)
    requires Unobjectionable(words, s)
    ensures Filtered(words, s) == s
  {
    NothingToRedact(words, s);
    TrimSpaceTrims(s);
  }

  class ResponsePipeline {
    var sensitive: seq<string>
    var context: seq<Turn>
    const fallback: string
    const systemReply: string

    constructor (sensitive: seq<string>, fallback: string, systemReply: string)
      ensures this.sensitive == sensitive && context == []
      ensures this.fallback == fallback && this.systemReply == systemReply
    {
      this.sensitive, this.context := sensitive, [];
      this.fallback, this.systemReply := fallback, systemReply;
    }

    method PostProcess(input: string) returns (s: string)
      ensures s == Filtered(sensitive, input)
      ensures |s| <= MAX_RESPONSE_LEN + 3
    {
      s := input;
      var words := sensitive;
      for i := 0 to |words|
        invariant Redact(words[i..], s) == Redact(words, input)
      {
        s := ReplaceAll(s, words[i], STARS);
        assert words[i..][1..] == words[i + 1..];
      }
      if |s| > MAX_RESPONSE_LEN {
        s := s[..MAX_RESPONSE_LEN] + DOTS;
      }
      s := TrimSpace(s);
      FilteredLength(sensitive, input);
    }

    /** The text may leave the pipeline: it is a fixed reply, or clean. */
    ghost predicate Presentable(text: string)
      reads `sensitive
    {
      text == fallback || text == systemReply || Clean(sensitive, text)
    }

    /** What the skills answer: their last output, filtered, or the fallback. */
    ghost predicate SkillReply(env: Surroundings, text: string, reply: Reply)
      requires env.routes.Some?
      reads `sensitive
    {
      var ids := env.routes.value;
      exists out ::
        && IsLastOutput(env.execute, ids, text, |ids|, out)
        && reply == Content(if out == "" then fallback else Filtered(sensitive, out))
    }

    /** `Run`: whatever the skills and the model say, a non-streamed reply is presentable. It is the filtered output
        of the skills, the fixed text, or the model's filtered answer, and the fallback where these fail. The turns
        kept for later prompts are the user's text and the reply, unless it streams, is the fixed text, or there
        is no model or it cannot stream. */
    method Run(text: string, stream: bool, env: Surroundings) returns (reply: Reply)
      modifies this`context
      ensures reply.Content? ==> Presentable(reply.text)
      ensures BySkills(env) ==> SkillReply(env, text, reply)
      ensures env.intent.SystemIntent? ==> reply == Content(systemReply)
      ensures ByModel(env, stream) && env.model.Some? ==>
                reply == Content(Filtered(sensitive, Said(env.model.value, fallback)))
      ensures ByModel(env, stream) && env.model.None? ==> reply == Content(fallback)
      ensures ByModel(env, stream) && env.model.Some? && env.model.value.answer.Some?
              && Unobjectionable(sensitive, env.model.value.answer.value) ==>
                reply == Content(env.model.value.answer.value)
      ensures reply.Streaming? <==>
                && stream && !BySkills(env) && env.intent !in {MemoryIntent, SystemIntent}
                && env.model.Some? && env.model.value.canStream
      ensures reply.Content? && !BySkills(env) && !env.intent.SystemIntent? && !ByModel(env, stream) ==>
                reply == Content(fallback)
      ensures Kept(old(context), context, text, reply, BySkills(env) || (ByModel(env, stream) && env.model.Some?))
    {
      context := context + [User(text)];
      if env.intent.SkillIntent? && env.routes.Some? && |env.routes.value| > 0 {
        var content := RunSkillIntent(env.routes.value, text, env.execute);
        assert context == old(context) + [User(text), Assistant(content)];
        return Content(content);
      }
      if env.intent.MemoryIntent? && env.model.None? {
        return Content(fallback);
      }
      if env.intent.SystemIntent? {
        return Content(systemReply);
      }
      if !env.intent.MemoryIntent? && stream && env.model.Some? {
        return if env.model.value.canStream then Streaming else Content(fallback);
      }
      if env.model.None? {
        return Content(fallback);
      }
      var out := env.model.value.answer;
      var content := Answer(if out.None? then fallback else out.value);
      if out.Some? && Unobjectionable(sensitive, out.value) {
        UnobjectionableStays(sensitive, out.value);
      }
      assert context == old(context) + [User(text), Assistant(content)];
      return Content(content);
    }

    /** The skill chain's answer: its last output, filtered; the fallback where every skill fails or the last
        that does not gives nothing. */
    method RunSkillIntent(ids: seq<string>, text: string, execute: Skills) returns (content: string)
      modifies this`context
      ensures Presentable(content) && context == old(context) + [Assistant(content)]
      ensures exists out ::
                && IsLastOutput(execute, ids, text, |ids|, out)
                && content == if out == "" then fallback else Filtered(sensitive, out)
    {
      var lastOut := RunSkills(ids, text, execute);
      if lastOut != "" {
        content := Answer(lastOut);
      } else {
        content := fallback;
        context := context + [Assistant(fallback)];
      }
    }

    /** Filters a text and records it as the assistant's turn. */
    method Answer(raw: string) returns (s: string)
      modifies this`context
      ensures s == Filtered(sensitive, raw) && Clean(sensitive, s)
      ensures context == old(context) + [Assistant(s)]
    {
      FilteredIsClean(sensitive, raw);
      s := PostProcess(raw);
      context := context + [Assistant(s)];
    }

    /** The skill chain: the answer is the output of the last skill that does not fail. */
    method RunSkills(ids: seq<string>, text: string, execute: Skills) returns (lastOut: string)
      ensures IsLastOutput(execute, ids, text, |ids|, lastOut)
    {
      var input := text;
      lastOut := "";
      for i := 0 to |ids|
        invariant input == Fed(execute, ids, text, i) && IsLastOutput(execute, ids, text, i, lastOut)
      {
        var out := execute(ids[i], input);
        OneMoreSkill(execute, ids, text, i, lastOut, if out.Some? then out.value else lastOut);
        if out.Some? {
          lastOut := out.value;
          if out.value != "" {
            input := out.value;
          }
        }
      }
    }
  }

  /** The executor of skills; `None` stands for an error. */
  type Skills = (string, string) -> Option<string>

  /** What skill number `k` of a chain is fed: the last text before it that is not empty. */
  function Fed(execute: Skills, ids: seq<string>, text: string, k: nat): string
    requires k <= |ids|
  {
    if k == 0 then text
    else
      var input := Fed(execute, ids, text, k - 1);
      match execute(ids[k - 1], input)
      case Some(out) => if out == "" then input else out
      case None => input
  }

  function OutputOf(execute: Skills, ids: seq<string>, text: string, k: nat): Option<string>
    requires k < |ids|
  {
    execute(ids[k], Fed(execute, ids, text, k))
  }

  ghost predicate AllFail(execute: Skills, ids: seq<string>, text: string, from: nat, to: nat)
    requires to <= |ids|
  {
    forall k: nat :: from <= k < to ==> OutputOf(execute, ids, text, k).None?
  }

  /** Skill number `k` is the last of the first `n` that does not fail. */
  ghost predicate LastAt(execute: Skills, ids: seq<string>, text: string, n: nat, k: nat)
    requires n <= |ids|
  {
    k < n && OutputOf(execute, ids, text, k).Some? && AllFail(execute, ids, text, k + 1, n)
  }

  /** `out` is what the last of the first `n` skills that does not fail gives, nothing if all fail. */
  ghost predicate IsLastOutput(execute: Skills, ids: seq<string>, text: string, n: nat, out: string)
    requires n <= |ids|
  {
    if AllFail(execute, ids, text, 0, n) then out == ""
    else exists k :: LastAt(execute, ids, text, n, k) && OutputOf(execute, ids, text, k) == Some(out)
  }

  lemma OneMoreSkill(execute: Skills, ids: seq<string>, text: string, n: nat, out: string, more: string)
    requires n < |ids| && IsLastOutput(execute, ids, text, n, out)
    requires more == match OutputOf(execute, ids, text, n) case Some(o) => o case None => out
    ensures IsLastOutput(execute, ids, text, n + 1, more)
  {
    if OutputOf(execute, ids, text, n).Some? {
      assert LastAt(execute, ids, text, n + 1, n);
    } else if !AllFail(execute, ids, text, 0, n) {
      var k :| LastAt(execute, ids, text, n, k) && OutputOf(execute, ids, text, k) == Some(out);
      assert LastAt(execute, ids, text, n + 1, k);
    }
  }

  /** So a chain has one answer. */
  lemma OneLastOutput(execute: Skills, ids: seq<string>, text: string, n: nat, a: string, b: string)
    requires n <= |ids| && IsLastOutput(execute, ids, text, n, a) && IsLastOutput(execute, ids, text, n, b)
    ensures a == b
  {
    if !AllFail(execute, ids, text, 0, n) {
      var k :| LastAt(execute, ids, text, n, k) && OutputOf(execute, ids, text, k) == Some(a);
      var l :| LastAt(execute, ids, text, n, l) && OutputOf(execute, ids, text, l) == Some(b);
      assert k == l;
    }
  }

  /** Leaving out a skill that fails changes nothing for the rest of the chain. */
  lemma {:induction false} FailingSkillIsSkipped(execute: Skills, ids: seq<string>, text: string, k: nat, n: nat)
    requires k < n <= |ids| && OutputOf(execute, ids, text, k).None?
    ensures Fed(execute, ids[..k] + ids[k + 1..], text, n - 1) == Fed(execute, ids, text, n)
  {
    var rest := ids[..k] + ids[k + 1..];
    if n == k + 1 {
      SameFed(execute, ids, rest, text, k);
    } else {
      FailingSkillIsSkipped(execute, ids, text, k, n - 1);
      assert rest[n - 2] == ids[n - 1];
    }
  }

  lemma {:induction false} SameFed(execute: Skills, ids: seq<string>, others: seq<string>, text: string, k: nat)
    requires k <= |ids| && k <= |others| && ids[..k] == others[..k]
    ensures Fed(execute, ids, text, k) == Fed(execute, others, text, k)
  {
    if k > 0 {
      assert ids[k - 1] == ids[..k][k - 1] == others[..k][k - 1] == others[k - 1];
      assert ids[..k - 1] == ids[..k][..k - 1] == others[..k - 1];
      SameFed(execute, ids, others, text, k - 1);
    }
  }
}
