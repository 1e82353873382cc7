/**
 The simplified Porter stemmer of viking/segment.go. Here a `char` is one rune; lengths are counted in bytes of
 UTF-8, as the source does.
 */
module Stemmer {
  import opened GoStrings

  // ----- stemming -------------------------------------------------------------------------

  /** Go's `len`: the number of bytes in UTF-8. */
  function ByteLen(s: string): (n: nat) {
    if s == "" then 0 else RuneLen(s[0]) + ByteLen(s[1..])
  }

  function RuneLen(c: char): (n: nat) {
    if c < '\U{80}' then 1 else if c < '\U{800}' then 2 else if c < '\U{10000}' then 3 else 4
  }

  lemma RuneLenIs(c: char)
    requires Scalar(c as int)
    ensures RuneLen(c) == |Utf8(c as int)|
  {
  }

  predicate HasSuffix(s: string, suffix: string) {
    |suffix| <= |s| && s[|s| - |suffix|..] == suffix
  }

  function Front(s: string, k: nat): string
    requires k <= |s|
  {
    s[..|s| - k]
  }

  /** `porterStem`. */
  function PorterStem(word: string): string {
    if ByteLen(word) < 3 then word
    else if HasSuffix(word, "sses") then Front(word, 2)
    else if HasSuffix(word, "ies") then Front(word, 3) + "i"
    else if HasSuffix(word, "ss") then word
    else if HasSuffix(word, "s") && ByteLen(word) > 3 then Front(word, 1)
    else StemVerb(word)
  }

  /** Its steps 1b and 2. */
  function StemVerb(word: string): string {
    if HasSuffix(word, "eed") then Front(word, 1)
    else if HasSuffix(word, "ed") && ByteLen(word) > 4 then Front(word, 2)
    else if HasSuffix(word, "ing") && ByteLen(word) > 5 then Front(word, 3)
    else if HasSuffix(word, "ational") then Front(word, 5) + "e"
    else if HasSuffix(word, "tion") then Front(word, 1)
    else word
  }

  lemma {:induction false} ByteLenConcat(a: string, b: string)
    ensures ByteLen(a + b) == ByteLen(a) + ByteLen(b)
  {
    if a == "" {
      assert a + b == b;
    } else {
      assert (a + b)[1..] == a[1..] + b;
      ByteLenConcat(a[1..], b);
    }
  }

  lemma {:induction false} AsciiLen(s: string)
    requires forall i :: 0 <= i < |s| ==> s[i] < '\U{80}'
    ensures ByteLen(s) == |s|
  {
    if s != "" {
      AsciiLen(s[1..]);
    }
  }

  /** What is left before an ASCII suffix: nothing only if the word is the suffix. */
  lemma BeforeSuffix(word: string, suffix: string)
    requires HasSuffix(word, suffix) && forall i :: 0 <= i < |suffix| ==> suffix[i] < '\U{80}'
    ensures word == Front(word, |suffix|) + suffix
    ensures ByteLen(word) == ByteLen(Front(word, |suffix|)) + |suffix|
  {
    AsciiLen(suffix);
    ByteLenConcat(Front(word, |suffix|), suffix);
    assert word == Front(word, |suffix|) + suffix;
  }

  /** A stem is a word's beginning but for its last rune, which may be an added "e"; it is not longer
      than the word in runes or in bytes. */
  ghost predicate Stems(stem: string, word: string) {
    && 0 < |stem| <= |word| && ByteLen(stem) <= ByteLen(word)
    && (forall i :: 0 <= i < |stem| - 1 ==> stem[i] == word[i])
    && (stem[|stem| - 1] == word[|stem| - 1] || stem[|stem| - 1] == 'e')
  }

  lemma FrontStems(word: string, suffix: string, k: nat)
    requires HasSuffix(word, suffix) && forall i :: 0 <= i < |suffix| ==> suffix[i] < '\U{80}'
    requires k <= |suffix| && (k < |suffix| || ByteLen(word) > k)
    ensures Stems(Front(word, k), word)
  {
    BeforeSuffix(word, suffix);
    ByteLenConcat(Front(word, k), word[|word| - k..]);
    assert word == Front(word, k) + word[|word| - k..];
  }

  lemma ReplacedStems(word: string, suffix: string, k: nat, c: char)
    requires HasSuffix(word, suffix) && forall i :: 0 <= i < |suffix| ==> suffix[i] < '\U{80}'
    requires 0 < k <= |suffix| && c < '\U{80}' && (c == suffix[|suffix| - k] || c == 'e')
    ensures Stems(Front(word, k) + [c], word)
  {
    var front := Front(word, k);
    var rest := word[|word| - k..];
    assert word == front + rest;
    assert rest[0] == word[|word| - k] == word[|word| - |suffix|..][|suffix| - k];
    ByteLenConcat(front, rest);
    ByteLenConcat(front, [c]);
    AsciiLen([c]);
    assert ByteLen(rest) >= 1;
  }

  lemma StemVerbStems(word: string)
    requires word != ""
    ensures Stems(StemVerb(word), word)
  {
    if HasSuffix(word, "eed") {
      FrontStems(word, "eed", 1);
    } else if HasSuffix(word, "ed") && ByteLen(word) > 4 {
      FrontStems(word, "ed", 2);
    } else if HasSuffix(word, "ing") && ByteLen(word) > 5 {
      FrontStems(word, "ing", 3);
    } else if HasSuffix(word, "ational") {
      ReplacedStems(word, "ational", 5, 'e');
    } else if HasSuffix(word, "tion") {
      FrontStems(word, "tion", 1);
    }
  }

  /** Stemming a word gives a stem of it; in particular it never gives the empty token. */
  lemma StemIsStem(word: string)
    requires word != ""
    ensures Stems(PorterStem(word), word)
  {
    if ByteLen(word) >= 3 {
      if HasSuffix(word, "sses") {
        FrontStems(word, "sses", 2);
      } else if HasSuffix(word, "ies") {
        ReplacedStems(word, "ies", 3, 'i');
      } else if HasSuffix(word, "ss") {
      } else if HasSuffix(word, "s") && ByteLen(word) > 3 {
        FrontStems(word, "s", 1);
      } else {
        StemVerbStems(word);
      }
    }
  }

  // ----- what stemming does ---------------------------------------------------------------

  /** The word is some front followed by this end. */
  ghost predicate EndsIn(word: string, end: string) {
    exists front :: word == front + end
  }

  lemma SuffixIff(word: string, end: string)
    ensures HasSuffix(word, end) <==> EndsIn(word, end)
    ensures HasSuffix(word, end) ==> word == Front(word, |end|) + end
  {
    if HasSuffix(word, end) {
      assert word == Front(word, |end|) + end;
    }
    if front :| word == front + end {
      assert word[|word| - |end|..] == end;
    }
  }

  /** What is left of `front + whole` when a part of the end goes. */
  lemma FrontOf(front: string, end: string, more: string, whole: string)
    requires whole == end + more
    ensures Front(front + whole, |more|) == front + end && HasSuffix(front + whole, whole)
  {
    Regroup(front, end, more);
  }

  lemma Regroup(a: string, b: string, c: string)
    ensures a + (b + c) == a + b + c
  {
  }

  /** The last runes of a word. */
  lemma LastRunes(front: string, end: string, k: nat)
    requires 0 < k <= |end|
    ensures (front + end)[|front + end| - k] == end[|end| - k]
  {
  }

  lemma SuffixRune(word: string, end: string, k: nat)
    requires 0 < k <= |end| && k <= |word|
    ensures HasSuffix(word, end) ==> word[|word| - k] == end[|end| - k]
  {
    if HasSuffix(word, end) {
      assert word[|word| - |end|..][|end| - k] == end[|end| - k];
    }
  }

  lemma LenOf(front: string, end: string)
    requires forall i :: 0 <= i < |end| ==> end[i] < '\U{80}'
    ensures ByteLen(front + end) == ByteLen(front) + |end|
  {
    ByteLenConcat(front, end);
    AsciiLen(end);
  }

  /** No suffix of the plural steps fits a word that does not end in "s". */
  lemma NotPlural(word: string)
    requires word != "" && word[|word| - 1] != 's'
    ensures PorterStem(word) == if ByteLen(word) < 3 then word else StemVerb(word)
  {
    SuffixRune(word, "sses", 1);
    SuffixRune(word, "ies", 1);
    SuffixRune(word, "ss", 1);
    SuffixRune(word, "s", 1);
  }

  /** The plural endings. */
  lemma PluralStems(f: string)
    ensures PorterStem(f + "sses") == f + "ss" && PorterStem(f + "ies") == f + "i"
    ensures PorterStem(f + "ss") == f + "ss"
  {
    SsesStem(f);
    IesStem(f);
    SsStays(f);
  }

  lemma SsesStem(f: string)
    ensures PorterStem(f + "sses") == f + "ss"
  {
    SsesParts(f);
  }

  lemma SsesParts(f: string)
    ensures var w := f + "sses"; ByteLen(w) >= 3 && HasSuffix(w, "sses") && Front(w, 2) == f + "ss"
  {
    LenOf(f, "sses");
    FrontOf(f, "ss", "es", "sses");
  }

  lemma IesStem(f: string)
    ensures PorterStem(f + "ies") == f + "i"
  {
    var w := f + "ies";
    LenOf(f, "ies");
    SuffixRune(w, "sses", 3);
    assert HasSuffix(w, "ies") && Front(w, 3) == f;
  }

  lemma SsStays(f: string)
    ensures PorterStem(f + "ss") == f + "ss"
  {
    var w := f + "ss";
    SuffixRune(w, "sses", 2);
    SuffixRune(w, "ies", 2);
    assert HasSuffix(w, "ss");
  }

  /** A plural "s" goes where at least three bytes are left that neither end in "s" nor make one of the other
      endings with it. So such a plural and its singular give one token, if the singular stays as it is. */
  lemma PluralS(f: string)
    requires ByteLen(f) >= 3 && !EndsIn(f, "s") && !EndsIn(f, "sse") && !EndsIn(f, "ie")
    ensures PorterStem(f + "s") == f
  {
    var w := f + "s";
    LenOf(f, "s");
    EndBefore(f, "sse", "s", "sses");
    EndBefore(f, "ie", "s", "ies");
    EndBefore(f, "s", "s", "ss");
    assert HasSuffix(w, "s") && Front(w, 1) == f;
  }

  lemma EndBefore(f: string, end: string, last: string, whole: string)
    requires whole == end + last
    ensures HasSuffix(f + last, whole) ==> EndsIn(f, end)
  {
    if HasSuffix(f + last, whole) {
      SuffixIff(f + last, whole);
      var front := Front(f + last, |whole|);
      assert f + last == (front + end) + last;
      assert f == (f + last)[..|f|] == front + end;
    }
  }

  /** The endings of verbs. */
  lemma VerbStems(f: string)
    ensures PorterStem(f + "eed") == f + "ee"
    ensures ByteLen(f) >= 3 && !EndsIn(f, "e") ==> PorterStem(f + "ed") == f
    ensures PorterStem(f + "ing") == if ByteLen(f) >= 3 then f else f + "ing"
  {
    EedStem(f);
    EdStem(f);
    IngStem(f);
  }

  lemma EedStem(f: string)
    ensures PorterStem(f + "eed") == f + "ee"
  {
    LenOf(f, "eed");
    NotPlural(f + "eed");
    FrontOf(f, "ee", "d", "eed");
  }

  lemma EdStem(f: string)
    ensures ByteLen(f) >= 3 && !EndsIn(f, "e") ==> PorterStem(f + "ed") == f
  {
    LenOf(f, "ed");
    NotPlural(f + "ed");
    EndBefore(f, "e", "ed", "eed");
    assert HasSuffix(f + "ed", "ed") && Front(f + "ed", 2) == f;
  }

  lemma IngStem(f: string)
    ensures PorterStem(f + "ing") == if ByteLen(f) >= 3 then f else f + "ing"
  {
    var w := f + "ing";
    LenOf(f, "ing");
    NotPlural(w);
    LastRunes(f, "ing", 1);
    SuffixRune(w, "eed", 1);
    SuffixRune(w, "ed", 1);
    SuffixRune(w, "ational", 1);
    SuffixRune(w, "tion", 1);
    assert HasSuffix(w, "ing") && Front(w, 3) == f;
  }

  /** The endings of nouns. */
  lemma NounStems(f: string)
    ensures PorterStem(f + "ational") == f + "ate" && PorterStem(f + "tion") == f + "tio"
  {
    AtionalStem(f);
    TionStem(f);
  }

  lemma AtionalStem(f: string)
    ensures PorterStem(f + "ational") == f + "ate"
  {
    var w := f + "ational";
    AtionalParts(f);
    NotPlural(w);
    NotVerb(w);
  }

  lemma AtionalParts(f: string)
    ensures
      var w := f + "ational";
      && |w| >= 2 && ByteLen(w) >= 3 && w[|w| - 1] == 'l'
      && HasSuffix(w, "ational") && Front(w, 5) + "e" == f + "ate"
  {
    LenOf(f, "ational");
    LastRunes(f, "ational", 1);
    FrontOf(f, "at", "ional", "ational");
    Regroup(f, "at", "e");
    assert "at" + "e" == "ate";
  }

  lemma TionStem(f: string)
    ensures PorterStem(f + "tion") == f + "tio"
  {
    var w := f + "tion";
    TionParts(f);
    NotPlural(w);
    NotVerb(w);
    SuffixRune(w, "ational", 1);
  }

  lemma TionParts(f: string)
    ensures
      var w := f + "tion";
      && |w| >= 2 && ByteLen(w) >= 3 && w[|w| - 1] == 'n'
      && HasSuffix(w, "tion") && Front(w, 1) == f + "tio"
  {
    LenOf(f, "tion");
    LastRunes(f, "tion", 1);
    FrontOf(f, "tio", "n", "tion");
  }

  lemma NotVerb(w: string)
    requires w != "" && w[|w| - 1] in "ln"
    ensures !HasSuffix(w, "eed") && !HasSuffix(w, "ed") && !HasSuffix(w, "ing")
  {
    SuffixRune(w, "eed", 1);
    SuffixRune(w, "ed", 1);
    SuffixRune(w, "ing", 1);
  }

  /** The word is a front of at least three bytes followed by this end. */
  ghost predicate LongBefore(word: string, end: string) {
    exists front :: word == front + end && ByteLen(front) >= 3
  }

  lemma LongBeforeIff(word: string, end: string)
    requires forall i :: 0 <= i < |end| ==> end[i] < '\U{80}'
    ensures LongBefore(word, end) <==> HasSuffix(word, end) && ByteLen(word) >= 3 + |end|
  {
    if HasSuffix(word, end) {
      BeforeSuffix(word, end);
    }
    if front :| word == front + end && ByteLen(front) >= 3 {
      LenOf(front, end);
      assert word[|word| - |end|..] == end;
    }
  }

  /** The words that stemming changes. */
  ghost predicate Stemmed(word: string) {
    || EndsIn(word, "sses") || EndsIn(word, "ies") || EndsIn(word, "eed")
    || EndsIn(word, "ational") || EndsIn(word, "tion")
    || (LongBefore(word, "s") && !EndsIn(word, "ss"))
    || LongBefore(word, "ed") || LongBefore(word, "ing")
  }

  /** Which suffixes exclude each other. */
  lemma LastRunesDecide(word: string)
    requires |word| >= 2
    ensures HasSuffix(word, "s") || HasSuffix(word, "ss") || HasSuffix(word, "ies") || HasSuffix(word, "sses") ==>
              word[|word| - 1] == 's'
    ensures HasSuffix(word, "ss") ==> word[|word| - 2] == 's'
    ensures HasSuffix(word, "ies") || HasSuffix(word, "sses") ==> word[|word| - 2] == 'e'
    ensures HasSuffix(word, "ed") || HasSuffix(word, "eed") ==> word[|word| - 1] == 'd'
    ensures HasSuffix(word, "ing") ==> word[|word| - 1] == 'g'
    ensures HasSuffix(word, "ational") ==> word[|word| - 1] == 'l'
    ensures HasSuffix(word, "tion") ==> word[|word| - 1] == 'n'
  {
    SuffixRune(word, "s", 1);
    SuffixRune(word, "ss", 1);
    SuffixRune(word, "ss", 2);
    SuffixRune(word, "ies", 1);
    SuffixRune(word, "ies", 2);
    SuffixRune(word, "sses", 1);
    SuffixRune(word, "sses", 2);
    SuffixRune(word, "ed", 1);
    SuffixRune(word, "eed", 1);
    SuffixRune(word, "ing", 1);
    SuffixRune(word, "ational", 1);
    SuffixRune(word, "tion", 1);
  }

  /** `Stemmed` by the suffixes that a word has. */
  ghost predicate StemmedHere(word: string) {
    || HasSuffix(word, "sses") || HasSuffix(word, "ies") || HasSuffix(word, "eed")
    || HasSuffix(word, "ational") || HasSuffix(word, "tion")
    || (HasSuffix(word, "s") && ByteLen(word) >= 4 && !HasSuffix(word, "ss"))
    || (HasSuffix(word, "ed") && ByteLen(word) >= 5) || (HasSuffix(word, "ing") && ByteLen(word) >= 6)
  }

  lemma StemmedIff(word: string)
    ensures Stemmed(word) <==> StemmedHere(word)
  {
    SuffixIff(word, "sses");
    SuffixIff(word, "ies");
    SuffixIff(word, "eed");
    SuffixIff(word, "ational");
    SuffixIff(word, "tion");
    SuffixIff(word, "ss");
    LongBeforeIff(word, "s");
    LongBeforeIff(word, "ed");
    LongBeforeIff(word, "ing");
  }

  /** A word stays as it is exactly where it is none of these; otherwise it gets shorter. */
  lemma StaysIff(word: string)
    ensures PorterStem(word) == word <==> !Stemmed(word)
    ensures Stemmed(word) ==> |PorterStem(word)| < |word|
  {
    StemmedIff(word);
    if ByteLen(word) < 3 {
      ShortIsNotStemmed(word);
    } else if |word| >= 2 {
      LastRunesDecide(word);
    }
  }

  lemma ShortIsNotStemmed(word: string)
    requires ByteLen(word) < 3
    ensures !StemmedHere(word)
  {
    BytesOf(word);
  }

  lemma {:induction false} BytesOf(s: string)
    ensures |s| <= ByteLen(s)
  {
    if s != "" {
      BytesOf(s[1..]);
    }
  }

  /** So a plural and its singular give one token exactly where the singular stays as it is. */
  lemma PluralAndSingular(f: string)
    requires ByteLen(f) >= 3 && !EndsIn(f, "s") && !EndsIn(f, "sse") && !EndsIn(f, "ie")
    ensures PorterStem(f + "s") == PorterStem(f) <==> !Stemmed(f)
  {
    PluralS(f);
    StaysIff(f);
  }
}
