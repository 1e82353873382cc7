/**
 The segmenter of viking/segment.go: forward maximum match for Chinese, whole words with a stemmer
 for the rest. Here a `char` is one rune. The Unicode classes and the lower case of a rune are
 parameters.
 */
module Segmenter {
  import opened Stemmer

  datatype Runes = Runes(isSpace: char -> bool, isLetter: char -> bool, isNumber: char -> bool, lower: char -> char)

  predicate Cjk(c: char) {
    '\U{4e00}' <= c <= '\U{9fff}'
  }

  predicate WordRune(u: Runes, c: char) {
    (u.isLetter(c) || u.isNumber(c)) && !Cjk(c)
  }

  /** A rune that no segmentation may lose. */
  predicate Indexable(u: Runes, c: char) {
    !u.isSpace(c) && (Cjk(c) || WordRune(u, c))
  }

  /** These are the runes from U+4E00 to U+9FFF and the letters and numbers, without white space. */
  lemma IndexableIff(u: Runes, c: char)
    ensures Indexable(u, c) <==> !u.isSpace(c) && (0x4E00 <= c as int < 0xA000 || u.isLetter(c) || u.isNumber(c))
    ensures WordRune(u, c) ==> !Cjk(c)
  {
  }

  function ToLower(u: Runes, s: string): (r: string)
    ensures |r| == |s|
  {
    seq(|s|, i requires 0 <= i < |s| => u.lower(s[i]))
  }

  // ----- what a segmentation is -----------------------------------------------------------

  /** A token's place in the text. */
  datatype Span = Span(start: nat, len: nat) {
    function End(): nat {
      start + len
    }
  }

  predicate WordAt(dict: set<string>, text: string, i: nat, n: nat) {
    i + n <= |text| && text[i..i + n] in dict
  }

  /** The longest dictionary word at a place, however long; one rune where there is none. */
  ghost predicate LongestMatch(dict: set<string>, text: string, i: nat, n: nat) {
    && 1 <= n && i + n <= |text|
    && (WordAt(dict, text, i, n) || n == 1)
    && forall m :: n < m ==> !WordAt(dict, text, i, m)
  }

  /** A run of letters and numbers that cannot be extended to the right. */
  ghost predicate MaximalRun(u: Runes, text: string, i: nat, n: nat) {
    && 1 <= n && i + n <= |text|
    && (forall p :: i <= p < i + n ==> WordRune(u, text[p]))
    && (i + n < |text| ==> !WordRune(u, text[i + n]))
  }

  ghost predicate IsToken(u: Runes, dict: set<string>, text: string, s: Span) {
    && s.End() <= |text| && 1 <= s.len && !u.isSpace(text[s.start])
    && if Cjk(text[s.start]) then LongestMatch(dict, text, s.start, s.len) else MaximalRun(u, text, s.start, s.len)
  }

  ghost predicate Covered(spans: seq<Span>, p: nat) {
    exists k :: 0 <= k < |spans| && spans[k].start <= p < spans[k].End()
  }

  ghost predicate Ordered(spans: seq<Span>) {
    forall k, l :: 0 <= k < l < |spans| ==> spans[k].End() <= spans[l].start
  }

  /** The text is cut into tokens that are in order, do not overlap and lose no rune that matters. */
  ghost predicate Segmentation(u: Runes, dict: set<string>, text: string, spans: seq<Span>) {
    && (forall k :: 0 <= k < |spans| ==> IsToken(u, dict, text, spans[k]))
    && Ordered(spans)
    && (forall p {:trigger Covered(spans, p)} :: 0 <= p < |text| && Indexable(u, text[p]) ==> Covered(spans, p))
  }

  // ----- what the code computes -----------------------------------------------------------

  /** The longest of the dictionary words of at most `w` runes at a place; 0 where there is none. */
  function MatchLen(dict: set<string>, text: string, i: nat, w: nat): (n: nat)
    requires i + w <= |text|
    ensures n <= w
    ensures n > 0 ==> WordAt(dict, text, i, n)
    decreases w
  {
    if w == 0 then 0 else if WordAt(dict, text, i, w) then w else MatchLen(dict, text, i, w - 1)
  }

  lemma {:induction false} NoLongerMatch(dict: set<string>, text: string, i: nat, w: nat, m: nat)
    requires i + w <= |text| && MatchLen(dict, text, i, w) < m <= w
    ensures !WordAt(dict, text, i, m)
    decreases w
  {
    if m < w {
      NoLongerMatch(dict, text, i, w - 1, m);
    }
  }

  lemma MatchLenIsLongest(dict: set<string>, text: string, i: nat, n: nat)
    requires i < |text| && n >= 1
    ensures
      var m := MatchLen(dict, text, i, |text| - i);
      LongestMatch(dict, text, i, n) <==> n == if m > 0 then m else 1
  {
    var m := MatchLen(dict, text, i, |text| - i);
    forall k | m < k
      ensures !WordAt(dict, text, i, k)
    {
      if k <= |text| - i {
        NoLongerMatch(dict, text, i, |text| - i, k);
      }
    }
  }

  function RunLen(u: Runes, text: string, i: nat): (n: nat)
    requires i <= |text|
    ensures i + n <= |text|
    decreases |text| - i
  {
    if i < |text| && WordRune(u, text[i]) then 1 + RunLen(u, text, i + 1) else 0
  }

  lemma {:induction false} RunLenIsMaximal(u: Runes, text: string, i: nat)
    requires i <= |text|
    ensures
      var n := RunLen(u, text, i);
      (forall p :: i <= p < i + n ==> WordRune(u, text[p])) && (i + n < |text| ==> !WordRune(u, text[i + n]))
    decreases |text| - i
  {
    if i < |text| && WordRune(u, text[i]) {
      RunLenIsMaximal(u, text, i + 1);
    }
  }

  /** Length of the token that starts at a place; 0 where none does. */
  function TokenLen(u: Runes, dict: set<string>, text: string, i: nat): (n: nat)
    requires i < |text|
    ensures i + n <= |text|
  {
    if u.isSpace(text[i]) then 0
    else if Cjk(text[i]) then
      var n := MatchLen(dict, text, i, |text| - i);
      if n > 0 then n else 1
    else RunLen(u, text, i)
  }

  function TokenLens(u: Runes, dict: set<string>, text: string): (lens: seq<nat>)
    ensures |lens| == |text|
  {
    seq(|text|, i requires 0 <= i < |text| => TokenLen(u, dict, text, i))
  }

  /** The pass from left to right, given the length of the token at each place. */
  function Spans(lens: seq<nat>, i: nat): seq<Span>
    decreases |lens| - i
  {
    if i >= |lens| then []
    else if lens[i] == 0 then Spans(lens, i + 1)
    else [Span(i, lens[i])] + Spans(lens, i + lens[i])
  }

  /** The text of a token: a dictionary word as it is, any other word as the stem of its lower case. */
  function TokenOf(stem: string -> string, u: Runes, text: string, s: Span): string
    requires s.End() <= |text| && s.len > 0
  {
    var word := text[s.start..s.End()];
    if Cjk(text[s.start]) then word else stem(ToLower(u, word))
  }

  ghost predicate EmitsOne(stem: string -> string, u: Runes, text: string, s: Span, token: string) {
    s.End() <= |text| && s.len > 0 && token == TokenOf(stem, u, text, s) && token != ""
  }

  /** The tokens of a segmentation, in order. */
  ghost predicate Emits(stem: string -> string, u: Runes, text: string, spans: seq<Span>, out: seq<string>) {
    if spans == [] || out == [] then spans == [] && out == []
    else
      var n, m := |spans| - 1, |out| - 1;
      EmitsOne(stem, u, text, spans[n], out[m]) && Emits(stem, u, text, spans[..n], out[..m])
  }

  lemma EmitMore(stem: string -> string, u: Runes, text: string, spans: seq<Span>, out: seq<string>, s: Span,
                 token: string)
    requires Emits(stem, u, text, spans, out) && EmitsOne(stem, u, text, s, token)
    ensures Emits(stem, u, text, spans + [s], out + [token])
  {
    assert (spans + [s])[..|spans|] == spans && (out + [token])[..|out|] == out;
  }

  // ----- the two agree --------------------------------------------------------------------

  lemma TokenLenIsToken(u: Runes, dict: set<string>, text: string, i: nat)
    requires i < |text|
    ensures TokenLen(u, dict, text, i) > 0 <==> Indexable(u, text[i])
    ensures TokenLen(u, dict, text, i) > 0 ==> IsToken(u, dict, text, Span(i, TokenLen(u, dict, text, i)))
  {
    var n := TokenLen(u, dict, text, i);
    if n > 0 {
      if Cjk(text[i]) {
        MatchLenIsLongest(dict, text, i, n);
      } else {
        RunLenIsMaximal(u, text, i);
      }
    }
  }

  lemma TokenHasLen(u: Runes, dict: set<string>, text: string, s: Span)
    requires IsToken(u, dict, text, s)
    ensures TokenLen(u, dict, text, s.start) == s.len
  {
    if Cjk(text[s.start]) {
      MatchLenIsLongest(dict, text, s.start, s.len);
    } else {
      RunLenIsMaximal(u, text, s.start);
    }
  }

  /** `Segmentation` in terms of the length of the token at each place, from `i` on. */
  ghost predicate Cut(lens: seq<nat>, i: nat, spans: seq<Span>) {
    && (forall k :: 0 <= k < |spans| ==>
          i <= spans[k].start < |lens| && spans[k].len == lens[spans[k].start] > 0)
    && Ordered(spans)
    && (forall p {:trigger Covered(spans, p)} :: i <= p < |lens| && lens[p] > 0 ==> Covered(spans, p))
  }

  lemma {:induction false} SpansCut(lens: seq<nat>, i: nat)
    ensures Cut(lens, i, Spans(lens, i))
    decreases |lens| - i
  {
    if i < |lens| {
      if lens[i] == 0 {
        SpansCut(lens, i + 1);
      } else {
        SpansCut(lens, i + lens[i]);
        OneMoreToken(lens, i, Spans(lens, i + lens[i]));
      }
    }
  }

  lemma CoveredBehind(s: Span, rest: seq<Span>, p: nat)
    ensures s.start <= p < s.End() ==> Covered([s] + rest, p)
    ensures Covered(rest, p) ==> Covered([s] + rest, p)
  {
    var spans := [s] + rest;
    assert spans[0] == s;
    if Covered(rest, p) {
      var k :| 0 <= k < |rest| && rest[k].start <= p < rest[k].End();
      assert spans[k + 1] == rest[k];
    }
  }

  lemma OneMoreToken(lens: seq<nat>, i: nat, rest: seq<Span>)
    requires i < |lens| && lens[i] > 0 && Cut(lens, i + lens[i], rest)
    ensures Cut(lens, i, [Span(i, lens[i])] + rest)
  {
    var s := Span(i, lens[i]);
    var spans := [s] + rest;
    forall p {:trigger Covered(spans, p)} | i <= p < |lens| && lens[p] > 0
      ensures Covered(spans, p)
    {
      CoveredBehind(s, rest, p);
      assert p >= i + lens[i] ==> Covered(rest, p);
    }
  }

  lemma {:induction false} SkipGap(lens: seq<nat>, i: nat, j: nat)
    requires i <= j <= |lens| && forall p :: i <= p < j ==> lens[p] == 0
    ensures Spans(lens, i) == Spans(lens, j)
    decreases j - i
  {
    if i < j {
      SkipGap(lens, i + 1, j);
    }
  }

  lemma NothingBeforeFirst(lens: seq<nat>, i: nat, spans: seq<Span>, j: nat)
    requires i <= |lens| && Cut(lens, i, spans)
    requires j == if spans == [] then |lens| else spans[0].start
    ensures forall p :: i <= p < j ==> lens[p] == 0
  {
    forall p | i <= p < j
      ensures lens[p] == 0
    {
      assert !Covered(spans, p) by {
        assert forall k :: 0 < k < |spans| ==> spans[0].End() <= spans[k].start;
      }
    }
  }

  lemma CoveredAfter(spans: seq<Span>, p: nat)
    requires spans != [] && p >= spans[0].End() && Covered(spans, p)
    ensures Covered(spans[1..], p)
  {
    var k :| 0 <= k < |spans| && spans[k].start <= p < spans[k].End();
    assert spans[1..][k - 1] == spans[k];
  }

  lemma WithoutFirstToken(lens: seq<nat>, i: nat, spans: seq<Span>)
    requires spans != [] && Cut(lens, i, spans)
    ensures Cut(lens, spans[0].End(), spans[1..])
  {
    var rest := spans[1..];
    forall p {:trigger Covered(rest, p)} | spans[0].End() <= p < |lens| && lens[p] > 0
      ensures Covered(rest, p)
    {
      assert Covered(spans, p);
      CoveredAfter(spans, p);
    }
  }

  lemma {:induction false} CutIsSpans(lens: seq<nat>, i: nat, spans: seq<Span>)
    requires Cut(lens, i, spans)
    ensures spans == Spans(lens, i)
    decreases |spans|
  {
    if spans != [] {
      var s := spans[0];
      NothingBeforeFirst(lens, i, spans, s.start);
      SkipGap(lens, i, s.start);
      WithoutFirstToken(lens, i, spans);
      CutIsSpans(lens, s.End(), spans[1..]);
      assert spans == [s] + spans[1..];
    } else if i <= |lens| {
      NothingBeforeFirst(lens, i, spans, |lens|);
      SkipGap(lens, i, |lens|);
    }
  }

  lemma CutIsSegmentation(u: Runes, dict: set<string>, text: string, spans: seq<Span>)
    ensures Cut(TokenLens(u, dict, text), 0, spans) <==> Segmentation(u, dict, text, spans)
  {
    var lens := TokenLens(u, dict, text);
    forall i | 0 <= i < |text|
      ensures lens[i] > 0 <==> Indexable(u, text[i])
    {
      TokenLenIsToken(u, dict, text, i);
    }
    forall k | 0 <= k < |spans|
      ensures IsToken(u, dict, text, spans[k])
              <==> (spans[k].start < |lens| && spans[k].len == lens[spans[k].start] > 0)
    {
      TokenIffLen(u, dict, text, spans[k]);
    }
  }

  lemma TokenIffLen(u: Runes, dict: set<string>, text: string, s: Span)
    ensures IsToken(u, dict, text, s) <==> (s.start < |text| && s.len == TokenLen(u, dict, text, s.start) > 0)
  {
    if IsToken(u, dict, text, s) {
      TokenHasLen(u, dict, text, s);
    } else if s.start < |text| {
      TokenLenIsToken(u, dict, text, s.start);
    }
  }

  /** There is exactly one segmentation of a text, and the pass from left to right computes it. */
  lemma TheOnlySegmentation(u: Runes, dict: set<string>, text: string, spans: seq<Span>)
    ensures Segmentation(u, dict, text, spans) <==> spans == Spans(TokenLens(u, dict, text), 0)
  {
    var lens := TokenLens(u, dict, text);
    CutIsSegmentation(u, dict, text, spans);
    SpansCut(lens, 0);
    if Cut(lens, 0, spans) {
      CutIsSpans(lens, 0, spans);
    }
  }

  /** Words longer than every dictionary word need not be looked up. */
  lemma {:induction false} BoundedLookup(dict: set<string>, text: string, i: nat, w: nat, bound: nat)
    requires i + w <= |text| && bound <= w
    requires forall m :: bound < m <= w ==> !WordAt(dict, text, i, m)
    ensures MatchLen(dict, text, i, w) == MatchLen(dict, text, i, bound)
    decreases w
  {
    if bound < w {
      BoundedLookup(dict, text, i, w - 1, bound);
    }
  }

  ghost predicate NeverEmpty(stem: string -> string) {
    forall w :: w != "" ==> stem(w) != ""
  }

  // ----- the segmenter --------------------------------------------------------------------

  /** The words that the lines of a dictionary file give. */
  function Words(trim: string -> string, lines: seq<string>): set<string> {
    set i | 0 <= i < |lines| && trim(lines[i]) != "" && trim(lines[i])[0] != '#' :: trim(lines[i])
  }

  class Segmenter {
    var dict: set<string>
    var max: nat

    /** No dictionary word is longer than `max`. */
    ghost predicate Valid()
      reads this
    {
      forall w :: w in dict ==> |w| <= max
    }

    /** `NewSegmenter`; `lines` are those of the file, none where it cannot be opened. */
    constructor (trim: string -> string, lines: seq<string>, defaults: set<string>)
      ensures Valid()
      ensures dict == if Words(trim, lines) == {} then defaults else Words(trim, lines)
    {
      dict, max := {}, 4;
      new;
      LoadDict(trim, lines);
      if dict == {} {
        dict := defaults;
      }
      var rest := dict;
      while rest != {}
        invariant rest <= dict
        invariant forall w :: w in dict && w !in rest ==> |w| <= max
        invariant dict == if Words(trim, lines) == {} then defaults else Words(trim, lines)
        decreases rest
      {
        var w :| w in rest;
        if |w| > max {
          max := |w|;
        }
        rest := rest - {w};
      }
    }

    /** `loadDict`. */
    method LoadDict(trim: string -> string, lines: seq<string>)
      requires dict == {}
      modifies this
      ensures dict == Words(trim, lines) && Valid()
    {
      for i := 0 to |lines|
        invariant dict == Words(trim, lines[..i]) && Valid()
      {
        var w := trim(lines[i]);
        WordsOneMore(trim, lines, i);
        if w != "" && w[0] != '#' {
          dict := dict + {w};
          if |w| > max {
            max := |w|;
          }
        }
      }
      assert lines[..|lines|] == lines;
    }

    /** `Segment`: its tokens are those of the one segmentation, none of them empty. */
    method Segment(u: Runes, text: string) returns (out: seq<string>)
      requires Valid()
      ensures exists spans :: Segmentation(u, dict, text, spans) && Emits(PorterStem, u, text, spans, out)
    {
      forall w | w != ""
        ensures PorterStem(w) != ""
      {
        StemIsStem(w);
      }
      out := Pass(PorterStem, u, text);
      TheOnlySegmentation(u, dict, text, Spans(TokenLens(u, dict, text), 0));
    }

    /** The loop over the runes; `stem` is the stemmer. */
    method Pass(stem: string -> string, u: Runes, text: string) returns (out: seq<string>)
      requires Valid() && NeverEmpty(stem)
      ensures Emits(stem, u, text, Spans(TokenLens(u, dict, text), 0), out)
    {
      ghost var lens := TokenLens(u, dict, text);
      ghost var spans := [];
      out := [];
      var i := 0;
      while i < |text|
        invariant i <= |text| && Reached(lens, i, spans) && Emits(stem, u, text, spans, out)
      {
        var n, token := NextToken(stem, u, text, i);
        OneStep(lens, i, n, spans);
        if n > 0 {
          EmitMore(stem, u, text, spans, out, Span(i, n), token);
          spans := spans + [Span(i, n)];
          out := out + [token];
          i := i + n;
        } else {
          i := i + 1;
        }
      }
      assert spans + [] == spans;
    }

    /** The body of the loop: the token at a place and how many runes it takes, or 0. The check for an
        empty stem never finds one. */
    method NextToken(stem: string -> string, u: Runes, text: string, i: nat) returns (n: nat, token: string)
      requires Valid() && i < |text| && NeverEmpty(stem)
      ensures n == TokenLens(u, dict, text)[i]
      ensures n > 0 ==> EmitsOne(stem, u, text, Span(i, n), token)
    {
      var r := text[i];
      n, token := 0, "";
      if u.isSpace(r) {
        return;
      }
      if Cjk(r) {
        n := LookUp(text, i);
        token := text[i..i + n];
      } else if WordRune(u, r) {
        var j := EndOfRun(u, text, i);
        token := stem(ToLower(u, text[i..j]));
        if token != "" {
          n := j - i;
        }
      }
    }

    /** The loop over `w`, longest first. */
    method LookUp(text: string, i: nat) returns (n: nat)
      requires Valid() && i < |text|
      ensures n == (var m := MatchLen(dict, text, i, |text| - i); if m > 0 then m else 1)
    {
      var w: nat := if max < |text| - i then max else |text| - i;
      forall m | w < m <= |text| - i
        ensures !WordAt(dict, text, i, m)
      {
        assert |text[i..i + m]| == m;
      }
      BoundedLookup(dict, text, i, |text| - i, w);
      while w >= 1
        invariant i + w <= |text|
        invariant MatchLen(dict, text, i, |text| - i) == MatchLen(dict, text, i, w)
      {
        if WordAt(dict, text, i, w) {
          return w;
        }
        w := w - 1;
      }
      n := 1;
    }

    /** The loop over `j`. */
    method EndOfRun(u: Runes, text: string, i: nat) returns (j: nat)
      requires i <= |text|
      ensures j == i + RunLen(u, text, i)
    {
      j := i;
      while j < |text| && WordRune(u, text[j])
        invariant i <= j <= |text|
        invariant i + RunLen(u, text, i) == j + RunLen(u, text, j)
      {
        j := j + 1;
      }
    }
  }

  lemma WordsOneMore(trim: string -> string, lines: seq<string>, i: nat)
    requires i < |lines|
    ensures Words(trim, lines[..i + 1]) ==
            Words(trim, lines[..i])
            + (if trim(lines[i]) != "" && trim(lines[i])[0] != '#' then {trim(lines[i])} else {})
  {
    var more, less := lines[..i + 1], lines[..i];
    assert forall k :: 0 <= k < i ==> more[k] == less[k];
    forall w | w in Words(trim, less)
      ensures w in Words(trim, more)
    {
      var k :| 0 <= k < i && trim(less[k]) == w && w != "" && w[0] != '#';
      assert trim(more[k]) == w;
    }
    assert more[i] == lines[i];
  }

  /** The pass has come to `i` with these tokens. */
  ghost predicate Reached(lens: seq<nat>, i: nat, spans: seq<Span>) {
    spans + Spans(lens, i) == Spans(lens, 0)
  }

  lemma OneStep(lens: seq<nat>, i: nat, n: nat, spans: seq<Span>)
    requires i < |lens| && n == lens[i] && Reached(lens, i, spans)
    ensures if n == 0 then Reached(lens, i + 1, spans) else Reached(lens, i + n, spans + [Span(i, n)])
  {
    if n > 0 {
      assert spans + [Span(i, n)] + Spans(lens, i + n) == spans + ([Span(i, n)] + Spans(lens, i + n));
    }
  }
}
