/**
 Ranked search of viking/bm25.go: the incrementally updated statistics and the top-k search over
 them. Scores are reals, the segmenter is a parameter, and of the logarithm only its sign above 1
 is assumed.
 */
module Bm25 {
  import opened Common
  import opened GoStrings
  import opened JsonLines
  import opened Postings

  const K1 := 1.2
  const B := 0.75

  type Tokenizer = string -> seq<string>

  /** `lastAccessed` is `None` for Go's zero time, which lies before every real one. */
  datatype Doc = Doc(content: string, importance: int, lastAccessed: Option<int>)

  // ----- statistics -----------------------------------------------------------------------

  /** The average of the document lengths, 1 without documents. */
  ghost function Average(lens: map<string, nat>): real {
    if |lens| == 0 then 1.0 else Sum(lens) as real / |lens| as real
  }

  lemma QuotientNotNegative(n: nat, d: nat)
    requires d > 0
    ensures n as real / d as real >= 0.0
    ensures n as real / d as real == 0.0 <==> n == 0
  {
    var q := n as real / d as real;
    assert q * d as real == n as real;
  }

  lemma AverageNotNegative(lens: map<string, nat>)
    ensures Average(lens) >= 0.0
    ensures Average(lens) == 0.0 <==> |lens| > 0 && Sum(lens) == 0
  {
    if |lens| > 0 {
      QuotientNotNegative(Sum(lens), |lens|);
    }
  }

  function TokensOf(seg: Tokenizer, docs: map<string, Doc>): Tokens {
    map d | d in docs :: seg(docs[d].content)
  }

  function Lengths(seg: Tokenizer, docs: map<string, Doc>): map<string, nat> {
    map d | d in docs :: |seg(docs[d].content)|
  }

  lemma StatisticsOfOneMore(seg: Tokenizer, docs: map<string, Doc>, id: string, doc: Doc)
    ensures TokensOf(seg, docs[id := doc]) == TokensOf(seg, docs)[id := seg(doc.content)]
    ensures Lengths(seg, docs[id := doc]) == Lengths(seg, docs)[id := |seg(doc.content)|]
    ensures |Lengths(seg, docs[id := doc])| == |docs[id := doc]|
  {
    SameSize(seg, docs[id := doc]);
  }

  lemma SameSize(seg: Tokenizer, docs: map<string, Doc>)
    ensures Lengths(seg, docs).Keys == docs.Keys && |Lengths(seg, docs)| == |docs|
  {
    assert Lengths(seg, docs).Keys == docs.Keys;
    assert |Lengths(seg, docs).Keys| == |docs.Keys|;
  }

  /** `Index`'s reading of the importance given in the metadata. */
  function ImportanceFrom(meta: Option<string>): (imp: int)
    ensures 1 <= imp <= 5
  {
    if meta.Some? && meta.value != "" && '1' <= meta.value[0] <= '5' then meta.value[0] as int - '0' as int else 3
  }

  /** A first character from 1 to 5 is the importance, anything else counts as 3. */
  lemma ImportanceRead(meta: Option<string>, k: nat)
    requires 1 <= k <= 5
    ensures meta.Some? && meta.value != "" && meta.value[0] == "012345"[k] ==> ImportanceFrom(meta) == k
    ensures meta.None? || meta.value == "" || meta.value[0] !in "12345" ==> ImportanceFrom(meta) == 3
  {
  }

  /** A line of the persisted index; the last access is not persisted. */
  datatype Stored = Stored(id: string, content: string, importance: int)

  /** The documents after loading: a later line of a name wins. */
  function DocsOf(docs: map<string, Doc>, ds: seq<Stored>): map<string, Doc> {
    if ds == [] then docs
    else
      var d := ds[|ds| - 1];
      DocsOf(docs, ds[..|ds| - 1])[d.id := Doc(d.content, d.importance, None)]
  }

  lemma OneMoreLine(docs: map<string, Doc>, ds: seq<Stored>, i: nat)
    requires i < |ds|
    ensures DocsOf(docs, ds[..i + 1])
            == DocsOf(docs, ds[..i])[ds[i].id := Doc(ds[i].content, ds[i].importance, None)]
  {
    assert ds[..i + 1][..i] == ds[..i];
  }

  function Records(seg: Tokenizer, ds: seq<Stored>): (recs: seq<Record>)
    ensures |recs| == |ds|
  {
    seq(|ds|, i requires 0 <= i < |ds| => Record(ds[i].id, seg(ds[i].content)))
  }

  lemma {:induction false} LoadedTokens(seg: Tokenizer, docs: map<string, Doc>, ds: seq<Stored>)
    ensures LoadedOn(TokensOf(seg, docs), Records(seg, ds)) == TokensOf(seg, DocsOf(docs, ds))
  {
    if ds != [] {
      var n := |ds| - 1;
      LoadedTokens(seg, docs, ds[..n]);
      assert Records(seg, ds)[..n] == Records(seg, ds[..n]);
    }
  }

  // ----- scores ---------------------------------------------------------------------------

  /** What a search reads. */
  datatype Stats = Stats(ix: Index, lens: map<string, nat>, docs: map<string, Doc>, avg: real, total: nat)

  /** The natural logarithm, as far as the scores depend on it. */
  ghost predicate LogLike(ln: real -> real) {
    forall x :: x > 1.0 ==> ln(x) > 0.0
  }

  predicate Posted(s: Stats, t: string, d: string) {
    t in s.ix && d in s.ix[t]
  }

  /** Whatever is posted belongs to a document. */
  ghost predicate Sane(s: Stats) {
    && s.avg >= 0.0
    && (forall t, d :: Posted(s, t, d) ==> d in s.docs && d in s.lens && s.ix[t][d] > 0)
    && (forall t :: t in s.ix ==> |s.ix[t]| <= s.total)
  }

  /** The average length is positive whenever a search divides by it. */
  ghost predicate NeverDividesByZero(s: Stats) {
    forall t, d :: Posted(s, t, d) ==> s.avg > 0.0
  }

  /** All statistics are those of the documents as they are now. Before the first document the average
      is not meaningful. */
  ghost predicate Consistent(s: Stats, seg: Tokenizer) {
    && Exact(s.ix, TokensOf(seg, s.docs))
    && s.lens == Lengths(seg, s.docs)
    && s.total == |s.docs|
    && s.avg >= 0.0 && (s.docs != map[] ==> s.avg == Average(s.lens))
  }

  /** A posted document has a token, so the average length is positive whenever it is used. */
  lemma ConsistentIsSane(s: Stats, seg: Tokenizer)
    requires Consistent(s, seg)
    ensures Sane(s) && NeverDividesByZero(s)
  {
    forall t, d | Posted(s, t, d)
      ensures d in s.docs && d in s.lens && s.ix[t][d] > 0 && s.avg > 0.0
    {
      PostedHasLength(s, seg, t, d);
      PositiveAverage(s.lens, d);
    }
    forall t | t in s.ix
      ensures |s.ix[t]| <= s.total
    {
      PostingsFit(s, t);
    }
  }

  /** A token is posted for no more documents than there are. */
  lemma PostingsFit(s: Stats, t: string)
    requires t in s.ix && forall d :: Posted(s, t, d) ==> d in s.docs
    ensures |s.ix[t]| <= |s.docs|
  {
    forall d | d in s.ix[t].Keys
      ensures d in s.docs.Keys
    {
      assert Posted(s, t, d);
    }
    SubsetSize(s.ix[t].Keys, s.docs.Keys);
    assert |s.ix[t]| == |s.ix[t].Keys| && |s.docs| == |s.docs.Keys|;
  }

  lemma PositiveAverage(lens: map<string, nat>, d: string)
    requires d in lens && lens[d] > 0
    ensures |lens| > 0 && Average(lens) > 0.0
  {
    SumWithout(lens, d);
    AverageNotNegative(lens);
    assert d in lens.Keys;
  }

  lemma PostedHasLength(s: Stats, seg: Tokenizer, t: string, d: string)
    requires Consistent(s, seg) && Posted(s, t, d)
    ensures d in s.docs && t in seg(s.docs[d].content) && s.lens[d] >= 1 && |s.lens| >= 1
    ensures s.ix[t][d] > 0 && s.docs != map[]
  {
    assert Count(s.ix, t, d) == Multiplicity(TokensOf(seg, s.docs), t, d);
    assert t in multiset(seg(s.docs[d].content));
    assert d in s.lens.Keys && |s.lens.Keys - {d}| == |s.lens.Keys| - 1;
  }

  function Idf(ln: real -> real, total: nat, n: nat): real {
    ln((total as real - n as real + 0.5) / (n as real + 0.5) + 1.0)
  }

  /** The length norm; there is no division by zero when the average is positive. */
  function Norm(len: nat, avg: real): (r: real)
    requires avg > 0.0
    ensures r > 0.0
  {
    var l := if len < 1 then 1.0 else len as real;
    QuotientPositive(l, avg);
    K1 * (1.0 - B + B * (l / avg))
  }

  lemma QuotientPositive(x: real, y: real)
    requires x > 0.0 && y > 0.0
    ensures x / y > 0.0
  {
  }

  function TermFactor(freq: nat, norm: real): (r: real)
    requires freq > 0 && norm > 0.0
    ensures r > 0.0
  {
    QuotientPositive(freq as real * (K1 + 1.0), freq as real + norm);
    freq as real * (K1 + 1.0) / (freq as real + norm)
  }

  function Decay(doc: Doc, cutoff: int): (r: real)
    ensures r > 0.0
  {
    if doc.lastAccessed.None? || doc.lastAccessed.value < cutoff then 0.5 else 1.0
  }

  function ImportanceFactor(doc: Doc): (r: real)
    ensures r > 0.0
  {
    var imp := doc.importance as real / 5.0;
    if imp < 0.2 then 0.2 else imp
  }

  function Combined(idf: real, term: real, decay: real, imp: real): real {
    idf * term * decay * imp
  }

  /** What one occurrence of `t` in the query adds to the score of `d`. An average of 0 makes the length
      norm infinite, and then it adds nothing. */
  ghost function Weight(s: Stats, ln: real -> real, cutoff: int, t: string, d: string): real
    requires Sane(s)
  {
    if !Posted(s, t, d) || s.avg == 0.0 then 0.0
    else
      Combined(Idf(ln, s.total, |s.ix[t]|), TermFactor(s.ix[t][d], Norm(s.lens[d], s.avg)),
               Decay(s.docs[d], cutoff), ImportanceFactor(s.docs[d]))
  }

  ghost function Score(s: Stats, ln: real -> real, cutoff: int, query: seq<string>, d: string): real
    requires Sane(s)
  {
    if query == [] then 0.0
    else Score(s, ln, cutoff, query[..|query| - 1], d) + Weight(s, ln, cutoff, query[|query| - 1], d)
  }

  lemma IdfPositive(ln: real -> real, total: nat, n: nat)
    requires LogLike(ln) && n <= total
    ensures Idf(ln, total, n) > 0.0
  {
    QuotientPositive(total as real - n as real + 0.5, n as real + 0.5);
  }

  lemma CombinedPositive(a: real, b: real, c: real, d: real)
    requires a > 0.0 && b > 0.0 && c > 0.0 && d > 0.0
    ensures Combined(a, b, c, d) > 0.0
  {
    assert a * b > 0.0;
    assert a * b * c > 0.0;
  }

  lemma WeightPositiveIff(s: Stats, ln: real -> real, cutoff: int, t: string, d: string)
    requires Sane(s) && LogLike(ln)
    ensures Weight(s, ln, cutoff, t, d) >= 0.0
    ensures Weight(s, ln, cutoff, t, d) > 0.0 <==> Posted(s, t, d) && s.avg > 0.0
  {
    if Posted(s, t, d) && s.avg > 0.0 {
      IdfPositive(ln, s.total, |s.ix[t]|);
      CombinedPositive(Idf(ln, s.total, |s.ix[t]|), TermFactor(s.ix[t][d], Norm(s.lens[d], s.avg)),
                       Decay(s.docs[d], cutoff), ImportanceFactor(s.docs[d]));
    }
  }

  /** A document scores above zero exactly when a query token is posted for it and the average length is
      not 0. */
  lemma {:induction false} ScorePositiveIff(s: Stats, ln: real -> real, cutoff: int, query: seq<string>, d: string)
    requires Sane(s) && LogLike(ln)
    ensures Score(s, ln, cutoff, query, d) >= 0.0
    ensures Score(s, ln, cutoff, query, d) > 0.0 <==> s.avg > 0.0 && exists t :: t in query && Posted(s, t, d)
  {
    if query != [] {
      var n := |query| - 1;
      assert query == query[..n] + [query[n]];
      ScorePositiveIff(s, ln, cutoff, query[..n], d);
      WeightPositiveIff(s, ln, cutoff, query[n], d);
    }
  }

  // ----- what a weight depends on ---------------------------------------------------------

  lemma QuotientTimes(x: real, y: real)
    requires y != 0.0
    ensures x / y * y == x
  {
  }

  /** The length that counts: at least one token. */
  function CountedLen(len: nat): real {
    if len < 1 then 1.0 else len as real
  }

  /** The length norm, without its division. */
  lemma NormIs(len: nat, avg: real)
    requires avg > 0.0
    ensures Norm(len, avg) * avg == 0.3 * avg + 0.9 * CountedLen(len)
  {
    QuotientTimes(CountedLen(len), avg);
    NormTimes(CountedLen(len) / avg, avg);
  }

  lemma NormTimes(x: real, avg: real)
    ensures K1 * (1.0 - B + B * x) * avg == 0.3 * avg + 0.9 * (x * avg)
  {
    assert K1 * (1.0 - B + B * x) == 0.3 + 0.9 * x;
  }

  lemma TermFactorIs(freq: nat, norm: real)
    requires freq > 0 && norm > 0.0
    ensures TermFactor(freq, norm) * (freq as real + norm) == 2.2 * freq as real
    ensures (2.2 - TermFactor(freq, norm)) * (freq as real + norm) == 2.2 * norm
    ensures TermFactor(freq, norm) < 2.2
  {
    var f, t := freq as real, TermFactor(freq, norm);
    QuotientTimes(f * (K1 + 1.0), f + norm);
    Distribute(t, f + norm);
    FactorPositive(2.2 - t, f + norm);
  }

  lemma Distribute(t: real, d: real)
    ensures (2.2 - t) * d == 2.2 * d - t * d
  {
  }

  lemma FactorPositive(x: real, d: real)
    requires d > 0.0 && x * d > 0.0
    ensures x > 0.0
  {
    if x <= 0.0 {
      TimesLess(x, 0.0, d);
    }
  }

  lemma TimesLess(x: real, y: real, d: real)
    requires x <= y && d >= 0.0
    ensures x * d <= y * d
  {
  }

  /** `x` times the larger factor is the smaller product: then `x` is less. */
  lemma LessBy(x: real, y: real, d: real, e: real)
    requires 0.0 < d <= e && y > 0.0 && x * e <= y * d && (d < e || x * e < y * d)
    ensures x < y
  {
    if y <= x {
      TimesLess(y, x, e);
      if d < e {
        StrictTimes(y, d, e);
      }
    }
  }

  lemma StrictTimes(y: real, d: real, e: real)
    requires y > 0.0 && d < e
    ensures y * d < y * e
  {
  }

  lemma TermFalls(freq: nat, norm: real, more: real)
    requires freq > 0 && 0.0 < norm < more
    ensures TermFactor(freq, more) < TermFactor(freq, norm)
  {
    TermFactorIs(freq, norm);
    TermFactorIs(freq, more);
    LessBy(TermFactor(freq, more), TermFactor(freq, norm), freq as real + norm, freq as real + more);
  }

  lemma TermRises(freq: nat, more: nat, norm: real)
    requires 0 < freq < more && norm > 0.0
    ensures TermFactor(freq, norm) < TermFactor(more, norm)
  {
    TermFactorIs(freq, norm);
    TermFactorIs(more, norm);
    LessBy(2.2 - TermFactor(more, norm), 2.2 - TermFactor(freq, norm), freq as real + norm, more as real + norm);
  }

  /** At the average length the term factor is 2.2 f / (f + 1.2); in general, without its divisions: */
  lemma TermFactorAt(freq: nat, len: nat, avg: real)
    requires freq > 0 && avg > 0.0
    ensures
      var f, t := freq as real, TermFactor(freq, Norm(len, avg));
      && t * (f * avg + 0.3 * avg + 0.9 * CountedLen(len)) == 2.2 * f * avg
      && (CountedLen(len) == avg ==> t * (f + 1.2) == 2.2 * f)
  {
    var f, t := freq as real, TermFactor(freq, Norm(len, avg));
    NormIs(len, avg);
    TermFactorIs(freq, Norm(len, avg));
    TimesAverage(t, f, Norm(len, avg), avg);
    if CountedLen(len) == avg {
      SameFactor(Norm(len, avg), 1.2, avg);
    }
  }

  lemma TimesAverage(t: real, f: real, norm: real, avg: real)
    requires t * (f + norm) == 2.2 * f
    ensures t * (f * avg + norm * avg) == 2.2 * f * avg
  {
    assert t * (f * avg + norm * avg) == t * (f + norm) * avg;
  }

  lemma NormRises(len: nat, more: nat, avg: real)
    requires avg > 0.0 && len < more && more > 1
    ensures Norm(len, avg) < Norm(more, avg)
  {
    NormIs(len, avg);
    NormIs(more, avg);
    LessBy(Norm(len, avg), Norm(more, avg), avg, avg);
  }

  lemma CombinedRises(a: real, b: real, b': real, c: real, d: real)
    requires a > 0.0 && b < b' && c > 0.0 && d > 0.0
    ensures Combined(a, b, c, d) < Combined(a, b', c, d)
  {
    StrictTimes(a, b, b');
    StrictTimes(c, a * b, a * b');
    StrictTimes(d, a * b * c, a * b' * c);
  }

  /** All else equal, the same statistics with another length of the document. */
  function WithLength(s: Stats, d: string, len: nat): Stats {
    s.(lens := s.lens[d := len])
  }

  /** A document that is longer weighs less. */
  lemma LongerWeighsLess(s: Stats, ln: real -> real, cutoff: int, t: string, d: string, len: nat)
    requires Sane(s) && LogLike(ln) && Posted(s, t, d) && s.avg > 0.0 && s.lens[d] < len && len > 1
    ensures Sane(WithLength(s, d, len))
    ensures Weight(WithLength(s, d, len), ln, cutoff, t, d) < Weight(s, ln, cutoff, t, d)
  {
    var n := |s.ix[t]|;
    NormRises(s.lens[d], len, s.avg);
    TermFalls(s.ix[t][d], Norm(s.lens[d], s.avg), Norm(len, s.avg));
    IdfPositive(ln, s.total, n);
    CombinedRises(Idf(ln, s.total, n), TermFactor(s.ix[t][d], Norm(len, s.avg)),
                  TermFactor(s.ix[t][d], Norm(s.lens[d], s.avg)), Decay(s.docs[d], cutoff),
                  ImportanceFactor(s.docs[d]));
  }

  function WithFrequency(s: Stats, t: string, d: string, freq: nat): Stats
    requires t in s.ix
  {
    var postings: map<string, nat> := s.ix[t][d := freq];
    s.(ix := s.ix[t := postings])
  }

  lemma FrequencyKeepsSane(s: Stats, t: string, d: string, freq: nat)
    requires Sane(s) && Posted(s, t, d) && freq > 0
    ensures Sane(WithFrequency(s, t, d, freq)) && |WithFrequency(s, t, d, freq).ix[t]| == |s.ix[t]|
  {
    var u := WithFrequency(s, t, d, freq);
    assert u.ix[t].Keys == s.ix[t].Keys;
    assert |u.ix[t].Keys| == |u.ix[t]| && |s.ix[t].Keys| == |s.ix[t]|;
    forall t', d' | Posted(u, t', d')
      ensures d' in u.docs && d' in u.lens && u.ix[t'][d'] > 0
    {
      assert Posted(s, t', d');
    }
  }

  /** One that has the token more often weighs more, but never 2.2 times the rest of its weight. */
  lemma OftenerWeighsMore(s: Stats, ln: real -> real, cutoff: int, t: string, d: string, freq: nat)
    requires Sane(s) && LogLike(ln) && Posted(s, t, d) && s.avg > 0.0 && s.ix[t][d] < freq
    ensures Sane(WithFrequency(s, t, d, freq))
    ensures Weight(s, ln, cutoff, t, d) < Weight(WithFrequency(s, t, d, freq), ln, cutoff, t, d)
    ensures Weight(s, ln, cutoff, t, d)
            < Combined(Idf(ln, s.total, |s.ix[t]|), 2.2, Decay(s.docs[d], cutoff), ImportanceFactor(s.docs[d]))
  {
    var norm := Norm(s.lens[d], s.avg);
    FrequencyKeepsSane(s, t, d, freq);
    IdfPositive(ln, s.total, |s.ix[t]|);
    TermRises(s.ix[t][d], freq, norm);
    TermFactorIs(s.ix[t][d], norm);
    CombinedRises(Idf(ln, s.total, |s.ix[t]|), TermFactor(s.ix[t][d], norm), TermFactor(freq, norm),
                  Decay(s.docs[d], cutoff), ImportanceFactor(s.docs[d]));
    CombinedRises(Idf(ln, s.total, |s.ix[t]|), TermFactor(s.ix[t][d], norm), 2.2,
                  Decay(s.docs[d], cutoff), ImportanceFactor(s.docs[d]));
  }

  /** The weight of a token depends on how many documents there are for each that has it. */
  lemma IdfIs(ln: real -> real, total: nat, n: nat)
    ensures Idf(ln, total, n) == ln((total as real + 1.0) / (n as real + 0.5))
  {
    var y := n as real + 0.5;
    QuotientSum(total as real - n as real + 0.5, y);
  }

  lemma QuotientSum(x: real, y: real)
    requires y > 0.0
    ensures x / y + 1.0 == (x + y) / y
  {
    QuotientTimes(x, y);
    QuotientTimes(x + y, y);
    OneMoreTimes(x / y, y);
    SameFactor(x / y + 1.0, (x + y) / y, y);
  }

  lemma OneMoreTimes(q: real, y: real)
    ensures (q + 1.0) * y == q * y + y
  {
  }

  lemma SameFactor(p: real, q: real, y: real)
    requires y > 0.0 && p * y == q * y
    ensures p == q
  {
    if p < q {
      StrictTimes(y, p, q);
    } else if q < p {
      StrictTimes(y, q, p);
    }
  }

  lemma RarerWeighsMore(ln: real -> real, total: nat, n: nat, more: nat)
    requires n < more && forall x, y :: 0.0 < x < y ==> ln(x) < ln(y)
    ensures Idf(ln, total, more) < Idf(ln, total, n)
  {
    IdfIs(ln, total, n);
    IdfIs(ln, total, more);
    var x, d, e := total as real + 1.0, n as real + 0.5, more as real + 0.5;
    QuotientTimes(x, d);
    QuotientTimes(x, e);
    QuotientPositive(x, d);
    QuotientPositive(x, e);
    LessBy(x / e, x / d, d, e);
  }

  /** All else equal, the same document with another importance and another last use. */
  function WithDoc(s: Stats, d: string, importance: int, lastAccessed: Option<int>): Stats
    requires d in s.docs
  {
    s.(docs := s.docs[d := s.docs[d].(importance := importance, lastAccessed := lastAccessed)])
  }

  lemma WithDocIsSane(s: Stats, d: string, importance: int, lastAccessed: Option<int>)
    requires Sane(s) && d in s.docs
    ensures Sane(WithDoc(s, d, importance, lastAccessed))
  {
    var u := WithDoc(s, d, importance, lastAccessed);
    forall t', d' | Posted(u, t', d')
      ensures d' in u.docs && d' in u.lens && u.ix[t'][d'] > 0
    {
      assert Posted(s, t', d');
    }
  }

  /** The weight of a posted token, by its four factors. */
  lemma WeightParts(s: Stats, ln: real -> real, cutoff: int, t: string, d: string, a: real, b: real)
    requires Sane(s) && Posted(s, t, d) && s.avg > 0.0
    requires a == Idf(ln, s.total, |s.ix[t]|) && b == TermFactor(s.ix[t][d], Norm(s.lens[d], s.avg))
    ensures Weight(s, ln, cutoff, t, d) == Combined(a, b, Decay(s.docs[d], cutoff), ImportanceFactor(s.docs[d]))
  {
  }

  lemma LevelsAdd(doc: Doc, one: Doc, more: Doc)
    requires doc.importance >= 1 && one.importance == 1 && more.importance == doc.importance + 1
    ensures ImportanceFactor(more) == ImportanceFactor(doc) + ImportanceFactor(one)
  {
  }

  lemma CombinedAdds(a: real, b: real, c: real, d: real, e: real)
    ensures Combined(a, b, c, d + e) == Combined(a, b, c, d) + Combined(a, b, c, e)
  {
    var abc := a * b * c;
    assert abc * (d + e) == abc * d + abc * e;
  }

  /** Weights are proportional to the importance: each level adds the weight of level 1, and anything below 1 counts
      as 1. */
  lemma ImportanceCounts(s: Stats, ln: real -> real, cutoff: int, t: string, d: string, importance: int,
                         lastAccessed: Option<int>)
    requires Sane(s) && d in s.docs
    ensures
      var u, one := WithDoc(s, d, importance, lastAccessed), WithDoc(s, d, 1, lastAccessed);
      var more := WithDoc(s, d, importance + 1, lastAccessed);
      && Sane(u) && Sane(one) && Sane(more)
      && (importance < 1 ==> Weight(u, ln, cutoff, t, d) == Weight(one, ln, cutoff, t, d))
      && (importance >= 1 ==>
            Weight(more, ln, cutoff, t, d) == Weight(u, ln, cutoff, t, d) + Weight(one, ln, cutoff, t, d))
  {
    WithDocIsSane(s, d, importance, lastAccessed);
    WithDocIsSane(s, d, 1, lastAccessed);
    WithDocIsSane(s, d, importance + 1, lastAccessed);
    if Posted(s, t, d) && s.avg != 0.0 {
      LevelsWeigh(s, ln, cutoff, t, d, importance, lastAccessed);
    }
  }

  lemma LevelsWeigh(s: Stats, ln: real -> real, cutoff: int, t: string, d: string, importance: int,
                    lastAccessed: Option<int>)
    requires Sane(s) && d in s.docs && Posted(s, t, d) && s.avg > 0.0
    requires Sane(WithDoc(s, d, importance, lastAccessed)) && Sane(WithDoc(s, d, 1, lastAccessed))
    requires Sane(WithDoc(s, d, importance + 1, lastAccessed))
    ensures
      var u, one := WithDoc(s, d, importance, lastAccessed), WithDoc(s, d, 1, lastAccessed);
      var more := WithDoc(s, d, importance + 1, lastAccessed);
      && (importance < 1 ==> Weight(u, ln, cutoff, t, d) == Weight(one, ln, cutoff, t, d))
      && (importance >= 1 ==>
            Weight(more, ln, cutoff, t, d) == Weight(u, ln, cutoff, t, d) + Weight(one, ln, cutoff, t, d))
  {
    var u, one := WithDoc(s, d, importance, lastAccessed), WithDoc(s, d, 1, lastAccessed);
    var more := WithDoc(s, d, importance + 1, lastAccessed);
    var a, b := Idf(ln, s.total, |s.ix[t]|), TermFactor(s.ix[t][d], Norm(s.lens[d], s.avg));
    WeightParts(u, ln, cutoff, t, d, a, b);
    WeightParts(one, ln, cutoff, t, d, a, b);
    if importance >= 1 {
      WeightParts(more, ln, cutoff, t, d, a, b);
      LevelsAdd(u.docs[d], one.docs[d], more.docs[d]);
      CombinedAdds(a, b, Decay(u.docs[d], cutoff), ImportanceFactor(u.docs[d]), ImportanceFactor(one.docs[d]));
    }
  }

  /** A document that was not used since the cutoff weighs half of what it would otherwise. */
  lemma UseCounts(s: Stats, ln: real -> real, cutoff: int, t: string, d: string, importance: int,
                  lastAccessed: Option<int>, used: int)
    requires Sane(s) && d in s.docs && used >= cutoff && (lastAccessed.Some? ==> lastAccessed.value < cutoff)
    ensures
      var u, recent := WithDoc(s, d, importance, lastAccessed), WithDoc(s, d, importance, Some(used));
      && Sane(u) && Sane(recent)
      && Weight(u, ln, cutoff, t, d) == 0.5 * Weight(recent, ln, cutoff, t, d)
  {
    WithDocIsSane(s, d, importance, lastAccessed);
    WithDocIsSane(s, d, importance, Some(used));
    var u, recent := WithDoc(s, d, importance, lastAccessed), WithDoc(s, d, importance, Some(used));
    if Posted(s, t, d) && s.avg != 0.0 {
      var a, b := Idf(ln, s.total, |s.ix[t]|), TermFactor(s.ix[t][d], Norm(s.lens[d], s.avg));
      WeightParts(u, ln, cutoff, t, d, a, b);
      WeightParts(recent, ln, cutoff, t, d, a, b);
      HalfCombined(a, b, ImportanceFactor(u.docs[d]));
    }
  }

  // ----- one more document ----------------------------------------------------------------

  /** Each document has its length, and whatever is posted belongs to a document. */
  ghost predicate Sound(s: Stats, seg: Tokenizer) {
    Tidy(s.ix) && Sane(s) && s.lens == Lengths(seg, s.docs)
  }

  /** The statistics after a document is added or replaced. */
  ghost predicate Indexed(seg: Tokenizer, s: Stats, u: Stats, id: string, doc: Doc) {
    && u.docs == s.docs[id := doc] && u.lens == s.lens[id := |seg(doc.content)|]
    && Tidy(u.ix) && Replaced(s.ix, u.ix, id, OldTokens(TokensOf(seg, s.docs), id), seg(doc.content))
    && u.total == |u.lens| && u.avg == Average(u.lens)
  }

  lemma IndexedIsSane(seg: Tokenizer, s: Stats, u: Stats, id: string, doc: Doc)
    requires Sane(s) && Indexed(seg, s, u, id, doc) && u.lens == Lengths(seg, u.docs) && u.total == |u.docs|
    ensures Sane(u)
  {
    AverageNotNegative(u.lens);
    forall t, d | Posted(u, t, d)
      ensures d in u.docs && d in u.lens && u.ix[t][d] > 0
    {
      assert Count(u.ix, t, d) > 0;
      assert d != id ==> Posted(s, t, d);
    }
    forall t | t in u.ix
      ensures |u.ix[t]| <= u.total
    {
      PostingsFit(u, t);
    }
  }

  lemma IndexedKeeps(seg: Tokenizer, s: Stats, u: Stats, id: string, doc: Doc)
    requires Sound(s, seg) && Indexed(seg, s, u, id, doc)
    ensures Sound(u, seg) && (Consistent(s, seg) ==> Consistent(u, seg))
  {
    StatisticsOfOneMore(seg, s.docs, id, doc);
    IndexedIsSane(seg, s, u, id, doc);
    ReplaceExactIff(s.ix, u.ix, TokensOf(seg, s.docs), id, seg(doc.content));
  }

  lemma AccessKeeps(seg: Tokenizer, s: Stats, id: string, t: int)
    requires id in s.docs
    ensures
      var u := s.(docs := s.docs[id := s.docs[id].(lastAccessed := Some(t))]);
      (Sound(s, seg) ==> Sound(u, seg)) && (Consistent(s, seg) ==> Consistent(u, seg))
  {
    var docs := s.docs[id := s.docs[id].(lastAccessed := Some(t))];
    SameContents(seg, s.docs, docs);
    StatisticsDecide(seg, s, docs, docs.Keys);
  }

  lemma StatisticsDecide(seg: Tokenizer, s: Stats, docs: map<string, Doc>, ids: set<string>)
    requires ids == s.docs.Keys == docs.Keys && |s.docs| == |docs|
    requires TokensOf(seg, s.docs) == TokensOf(seg, docs) && Lengths(seg, s.docs) == Lengths(seg, docs)
    ensures Sound(s, seg) ==> Sound(s.(docs := docs), seg)
    ensures Consistent(s, seg) ==> Consistent(s.(docs := docs), seg)
  {
    assert forall t, d :: Posted(s, t, d) == Posted(s.(docs := docs), t, d);
    assert forall d :: d in s.docs <==> d in ids;
  }

  lemma SameContents(seg: Tokenizer, docs: map<string, Doc>, docs': map<string, Doc>)
    requires docs.Keys == docs'.Keys && forall d :: d in docs ==> docs[d].content == docs'[d].content
    ensures TokensOf(seg, docs) == TokensOf(seg, docs') && Lengths(seg, docs) == Lengths(seg, docs')
    ensures |docs| == |docs'|
  {
    assert |docs.Keys| == |docs| && |docs'.Keys| == |docs'|;
  }

  class BM25Index {
    var termDocFreq: Index
    var docLen: map<string, nat>
    var docMeta: map<string, Doc>
    var avgDocLen: real
    var totalDocs: nat
    const segment: Tokenizer

    ghost function State(): Stats
      reads this
    {
      Stats(termDocFreq, docLen, docMeta, avgDocLen, totalDocs)
    }

    ghost predicate Valid()
      reads this
    {
      Consistent(State(), segment)
    }

    /** What every call keeps, also where a `Load` has counted superseded lines. */
    ghost predicate Kept()
      reads this
    {
      Sound(State(), segment)
    }

    constructor (segment: Tokenizer)
      ensures Valid() && Kept() && termDocFreq == map[] && docLen == map[] && docMeta == map[]
      ensures this.segment == segment && avgDocLen == 0.0 && totalDocs == 0
    {
      termDocFreq, docLen, docMeta, avgDocLen, totalDocs := map[], map[], map[], 0.0, 0;
      this.segment := segment;
    }

    /** `Index`: adds or replaces a document. Statistics that are up to date stay so; what else is posted stays. */
    method Index(docID: string, content: string, importance: Option<string>)
      requires Kept()
      modifies this
      ensures Kept() && (old(Valid()) ==> Valid())
      ensures Indexed(segment, old(State()), State(), docID, Doc(content, ImportanceFrom(importance), None))
    {
      ghost var before := State();
      var replaced := if docID in docMeta then Some(segment(docMeta[docID].content)) else None;
      var tokens := segment(content);
      var doc := Doc(content, ImportanceFrom(importance), None);
      termDocFreq := Replace(termDocFreq, docID, replaced, tokens);
      docLen := docLen[docID := |tokens|];
      docMeta := docMeta[docID := doc];
      RecomputeAvgLen();
      IndexedKeeps(segment, before, State(), docID, doc);
    }

    /** `Load`: adds the documents and the tokens of the lines that decode, without taking out what they
        replace. On a new index they determine everything. */
    method Load(c: Codec<Stored>, data: string)
      requires Kept()
      modifies this
      ensures Kept() && LoadedOnto(old(State()), State(), segment, Decoded(c, ScanLines(data)))
      ensures old(termDocFreq == map[] && docMeta == map[]) ==>
                LoadedFrom(State(), segment, Decoded(c, ScanLines(data)))
    {
      var ds := DecodeLines(c, ScanLines(data));
      termDocFreq := LoadRecords(termDocFreq, Records(segment, ds));
      LoadDocs(ds);
      SameSize(segment, docMeta);
      RecomputeAvgLen();
      LoadedIsSane(old(State()), State(), segment, ds);
    }

    /** What the loop does to the documents and their lengths. */
    method LoadDocs(ds: seq<Stored>)
      requires docLen == Lengths(segment, docMeta)
      modifies `docLen, `docMeta
      ensures docMeta == DocsOf(old(docMeta), ds) && docLen == Lengths(segment, docMeta)
    {
      for i := 0 to |ds|
        invariant docMeta == DocsOf(old(docMeta), ds[..i]) && docLen == Lengths(segment, docMeta)
      {
        var doc := Doc(ds[i].content, ds[i].importance, None);
        OneMoreLine(old(docMeta), ds, i);
        StatisticsOfOneMore(segment, docMeta, ds[i].id, doc);
        docLen := docLen[ds[i].id := |segment(ds[i].content)|];
        docMeta := docMeta[ds[i].id := doc];
      }
      assert ds[..|ds|] == ds;
    }

    /** `Persist`: one line per document, in an order the map does not determine. */
    method Persist(c: Codec<Stored>) returns (data: string, order: seq<string>)
      ensures Enumerates(order, docMeta)
      ensures data == Unlines(Encoded(c, InOrder(docMeta, order)))
    {
      order := Enumerate(docMeta);
      data := Unlines(Encoded(c, InOrder(docMeta, order)));
    }

    /** `UpdateAccess`. */
    method UpdateAccess(docID: string, t: int)
      modifies `docMeta
      ensures (old(Kept()) ==> Kept()) && (old(Valid()) ==> Valid())
      ensures docMeta == if docID in old(docMeta)
                         then old(docMeta)[docID := old(docMeta)[docID].(lastAccessed := Some(t))] else old(docMeta)
    {
      if docID in docMeta {
        var doc := docMeta[docID].(lastAccessed := Some(t));
        AccessKeeps(segment, State(), docID, t);
        docMeta := docMeta[docID := doc];
      }
    }

    /** `recomputeAvgLen`. */
    method RecomputeAvgLen()
      modifies `avgDocLen, `totalDocs
      ensures totalDocs == |docLen| && avgDocLen == Average(docLen) >= 0.0
    {
      var total := 0;
      var rest := docLen.Keys;
      ghost var left := docLen;
      while rest != {}
        invariant left.Keys == rest && rest <= docLen.Keys
        invariant forall d :: d in rest ==> left[d] == docLen[d]
        invariant total + Sum(left) == Sum(docLen)
        decreases rest
      {
        var d :| d in rest;
        SumWithout(left, d);
        total := total + docLen[d];
        rest := rest - {d};
        left := left - {d};
      }
      AverageNotNegative(docLen);
      totalDocs := |docLen|;
      if totalDocs > 0 {
        avgDocLen := total as real / totalDocs as real;
      } else {
        avgDocLen := 1.0;
      }
    }

    /** `Search`: the best `limit` of the documents that a query token is posted for; in an index whose
        statistics are up to date, these are the documents that now share a token with the query.
        `cutoff` is the time 30 days ago. `None` stands for the panic of a negative limit, which a query
        without tokens does not meet. */
    method Search(query: string, limit: int, ln: real -> real, cutoff: int) returns (out: Option<seq<string>>)
      requires Kept() && LogLike(ln)
      ensures out.None? <==> limit < 0 && segment(query) != []
      ensures
        var matches := Hits(State(), segment(query));
        && (out.Some? ==>
              IsTop(out.value, if limit < 0 then 0 else limit, State(), ln, cutoff, segment(query), matches))
        && (Valid() ==> matches == Matches(State(), segment, segment(query)))
    {
      ghost var s := State();
      var tokens := segment(query);
      if Valid() {
        HitsAreMatches(s, segment, tokens);
      }
      if |tokens| == 0 {
        return Some([]);
      }
      var scores: map<string, real> := map[];
      for i := 0 to |tokens|
        invariant Scored(scores, s, ln, cutoff, tokens[..i])
      {
        assert tokens[..i + 1] == tokens[..i] + [tokens[i]];
        scores := AddPostings(scores, ln, cutoff, tokens[..i], tokens[i]);
      }
      assert tokens[..|tokens|] == tokens;
      if limit < 0 {
        return None;
      }
      var best := Best(scores, limit);
      BestIsTop(best, limit, scores, s, ln, cutoff, tokens);
      out := Some(best);
    }

    /** One round of the scoring loop: the postings of one query token, in map order. */
    method AddPostings(input: map<string, real>, ln: real -> real, cutoff: int, ghost query: seq<string>, t: string)
      returns (scores: map<string, real>)
      requires Sane(State()) && LogLike(ln) && Scored(input, State(), ln, cutoff, query)
      ensures Scored(scores, State(), ln, cutoff, query + [t])
    {
      ghost var s := State();
      scores := input;
      if t in termDocFreq {
        var postings := termDocFreq[t];
        var idf := Idf(ln, totalDocs, |postings|);
        var rest := postings.Keys;
        while rest != {}
          invariant rest <= postings.Keys
          invariant forall d :: At(scores, d) ==
                      At(input, d) + if d in postings.Keys - rest then Weight(s, ln, cutoff, t, d) else 0.0
          decreases rest
        {
          var d :| d in rest;
          var weight := WeightOf(idf, ln, cutoff, t, d);
          scores := scores[d := At(scores, d) + weight];
          rest := rest - {d};
        }
      }
      AllPostingsAdded(input, scores, s, ln, cutoff, query, t);
    }

    method WeightOf(idf: real, ghost ln: real -> real, cutoff: int, t: string, d: string) returns (weight: real)
      requires Sane(State()) && Posted(State(), t, d) && idf == Idf(ln, totalDocs, |termDocFreq[t]|)
      ensures weight == Weight(State(), ln, cutoff, t, d)
    {
      if avgDocLen == 0.0 {
        return 0.0;
      }
      weight := Combined(idf, TermFactor(termDocFreq[t][d], Norm(docLen[d], avgDocLen)),
                         Decay(docMeta[d], cutoff), ImportanceFactor(docMeta[d]));
    }
  }

  /** A map entry, Go's zero if it is missing. */
  function At(m: map<string, real>, d: string): real {
    if d in m then m[d] else 0.0
  }

  /** `scores` holds the scores of the documents, zeros aside. */
  ghost predicate Scored(scores: map<string, real>, s: Stats, ln: real -> real, cutoff: int, query: seq<string>)
    requires Sane(s)
  {
    forall d :: At(scores, d) == Score(s, ln, cutoff, query, d)
  }

  lemma AllPostingsAdded(input: map<string, real>, scores: map<string, real>, s: Stats, ln: real -> real,
                         cutoff: int, query: seq<string>, t: string)
    requires Sane(s) && Scored(input, s, ln, cutoff, query)
    requires forall d :: At(scores, d) == At(input, d) + Weight(s, ln, cutoff, t, d)
    ensures Scored(scores, s, ln, cutoff, query + [t])
  {
    assert (query + [t])[..|query|] == query;
    forall d
      ensures At(scores, d) == Score(s, ln, cutoff, query + [t], d)
    {
      assert Score(s, ln, cutoff, query + [t], d) == Score(s, ln, cutoff, query, d) + Weight(s, ln, cutoff, t, d);
    }
  }

  // ----- ranking --------------------------------------------------------------------------

  datatype Hit = Hit(id: string, score: real)

  predicate Higher(a: Hit, b: Hit) {
    a.score > b.score
  }

  /** The documents that share a token with the query. */
  ghost function Matches(s: Stats, seg: Tokenizer, query: seq<string>): set<string> {
    set d | d in s.docs && Shares(query, seg(s.docs[d].content))
  }

  /** The documents that a query token is posted for; none where the average length is 0. */
  ghost function Hits(s: Stats, query: seq<string>): set<string> {
    set d | d in s.docs && s.avg > 0.0 && exists t :: t in query && Posted(s, t, d)
  }

  /** `out` is duplicate-free, sorted by score, as long as the limit allows, and no match left out
      scores above one included. */
  ghost predicate IsTop(out: seq<string>, limit: nat, s: Stats, ln: real -> real, cutoff: int, query: seq<string>,
                        matches: set<string>)
    requires Sane(s)
  {
    && (forall i, j :: 0 <= i < j < |out| ==> out[i] != out[j])
    && (forall i :: 0 <= i < |out| ==> out[i] in matches)
    && |out| == (if limit < |matches| then limit else |matches|)
    && (forall i, j :: 0 <= i < j < |out| ==>
          Score(s, ln, cutoff, query, out[i]) >= Score(s, ln, cutoff, query, out[j]))
    && (forall d, i :: d in matches && d !in out && 0 <= i < |out| ==>
          Score(s, ln, cutoff, query, out[i]) >= Score(s, ln, cutoff, query, d))
  }

  /** The same for a score map whose scores are positive. */
  ghost predicate IsBest(out: seq<string>, limit: nat, scores: map<string, real>) {
    && (forall i, j :: 0 <= i < j < |out| ==> out[i] != out[j])
    && (forall i :: 0 <= i < |out| ==> out[i] in scores)
    && |out| == (if limit < |scores| then limit else |scores|)
    && (forall i, j :: 0 <= i < j < |out| ==> At(scores, out[i]) >= At(scores, out[j]))
    && (forall d, i :: d in scores && d !in out && 0 <= i < |out| ==> At(scores, out[i]) >= At(scores, d))
  }

  function PositivePart(scores: map<string, real>): map<string, real> {
    map d | d in scores && scores[d] > 0.0 :: scores[d]
  }

  /** The filter, the sort and the cut that end `Search`. */
  method Best(scores: map<string, real>, limit: nat) returns (out: seq<string>)
    ensures IsBest(out, limit, PositivePart(scores))
  {
    var list := Positive(scores);
    HigherIsOrder();
    var sorted := SortSlice(list, Higher);
    out := [];
    var i := 0;
    while i < limit && i < |sorted|
      invariant 0 <= i == |out| && i <= limit && i <= |sorted|
      invariant forall k :: 0 <= k < i ==> out[k] == sorted[k].id
    {
      out := out + [sorted[i].id];
      i := i + 1;
    }
    SortedHits(list, sorted, PositivePart(scores));
    CutIsBest(out, limit, sorted, PositivePart(scores));
  }

  lemma HigherIsOrder()
    ensures StrictWeakOrder(Higher)
  {
  }

  /** One hit for each document that scores above zero, in map order. */
  method Positive(scores: map<string, real>) returns (list: seq<Hit>)
    ensures forall i, j :: 0 <= i < j < |list| ==> list[i] != list[j]
    ensures forall h :: h in list <==> h.id in scores && h.score == scores[h.id] && h.score > 0.0
  {
    list := [];
    var rest := scores.Keys;
    while rest != {}
      invariant rest <= scores.Keys
      invariant forall i, j :: 0 <= i < j < |list| ==> list[i] != list[j]
      invariant forall h :: h in list <==> h.id in scores.Keys - rest && h.score == scores[h.id] && h.score > 0.0
      decreases rest
    {
      var d :| d in rest;
      rest := rest - {d};
      if scores[d] > 0.0 {
        list := list + [Hit(d, scores[d])];
      }
    }
  }

  /** The sorted list holds one hit for each document of the score map. */
  ghost predicate Ranks(sorted: seq<Hit>, scores: map<string, real>) {
    && (forall i, j :: 0 <= i < j < |sorted| ==> sorted[i].id != sorted[j].id && sorted[i].score >= sorted[j].score)
    && (forall i :: 0 <= i < |sorted| ==> sorted[i].id in scores && sorted[i].score == scores[sorted[i].id])
    && (forall d :: d in scores ==> Hit(d, scores[d]) in sorted)
  }

  lemma SortedHits(list: seq<Hit>, sorted: seq<Hit>, scores: map<string, real>)
    requires multiset(sorted) == multiset(list) && SortedBy(Higher, sorted)
    requires forall i, j :: 0 <= i < j < |list| ==> list[i] != list[j]
    requires forall h :: h in list <==> h.id in scores && h.score == scores[h.id]
    ensures Ranks(sorted, scores)
  {
    forall h
      ensures h in sorted <==> h in list
    {
      assert h in multiset(sorted) <==> h in multiset(list);
    }
    DistinctMultiset(list);
    DistinctPermutation(sorted);
  }

  lemma CutIsBest(out: seq<string>, limit: nat, sorted: seq<Hit>, scores: map<string, real>)
    requires Ranks(sorted, scores)
    requires |out| == if limit < |sorted| then limit else |sorted|
    requires forall k :: 0 <= k < |out| ==> out[k] == sorted[k].id
    ensures IsBest(out, limit, scores)
  {
    RanksAll(sorted, scores);
    forall d, i | d in scores && d !in out && 0 <= i < |out|
      ensures At(scores, out[i]) >= At(scores, d)
    {
      var k :| 0 <= k < |sorted| && sorted[k] == Hit(d, scores[d]);
      assert k >= |out|;
    }
  }

  lemma RanksAll(sorted: seq<Hit>, scores: map<string, real>)
    requires Ranks(sorted, scores)
    ensures |sorted| == |scores|
  {
    var ids := seq(|sorted|, i requires 0 <= i < |sorted| => sorted[i].id);
    DistinctSize(ids);
    assert (set d | d in ids) == scores.Keys by {
      forall d | d in scores
        ensures d in ids
      {
        var k :| 0 <= k < |sorted| && sorted[k] == Hit(d, scores[d]);
        assert ids[k] == d;
      }
    }
  }

  /** Positive scores single out the documents that a query token is posted for. */
  lemma BestIsTop(out: seq<string>, limit: nat, scores: map<string, real>, s: Stats, ln: real -> real, cutoff: int,
                  query: seq<string>)
    requires Sane(s) && LogLike(ln) && Scored(scores, s, ln, cutoff, query)
    requires IsBest(out, limit, PositivePart(scores))
    ensures IsTop(out, limit, s, ln, cutoff, query, Hits(s, query))
  {
    var best := PositivePart(scores);
    forall d
      ensures d in best <==> d in Hits(s, query)
      ensures d in best ==> At(best, d) == Score(s, ln, cutoff, query, d)
    {
      ScorePositiveIff(s, ln, cutoff, query, d);
    }
    assert best.Keys == Hits(s, query);
  }

  /** In an index whose statistics are up to date, the posted documents are those that share a token. */
  lemma HitsAreMatches(s: Stats, seg: Tokenizer, query: seq<string>)
    requires Consistent(s, seg)
    ensures Hits(s, query) == Matches(s, seg, query)
  {
    ConsistentIsSane(s, seg);
    forall d
      ensures d in Hits(s, query) <==> d in Matches(s, seg, query)
    {
      PostedIffShares(s, seg, query, d);
    }
  }

  lemma PostedIffShares(s: Stats, seg: Tokenizer, query: seq<string>, d: string)
    requires Consistent(s, seg)
    ensures (exists t :: t in query && Posted(s, t, d)) <==> d in Matches(s, seg, query)
  {
    forall t
      ensures Posted(s, t, d) <==> d in s.docs && t in seg(s.docs[d].content) && t != ""
    {
      assert Count(s.ix, t, d) == Multiplicity(TokensOf(seg, s.docs), t, d);
      assert d in s.docs ==> (t in seg(s.docs[d].content) <==> t in multiset(seg(s.docs[d].content)));
    }
  }

  // ----- loading --------------------------------------------------------------------------

  /** What `Load` makes of the index and the decoded lines: the last line of a document gives its content and
      length, all its lines are counted. */
  ghost predicate LoadedOnto(before: Stats, s: Stats, seg: Tokenizer, ds: seq<Stored>) {
    && s.docs == DocsOf(before.docs, ds) && s.lens == Lengths(seg, s.docs)
    && s.total == |s.lens| && s.avg == Average(s.lens)
    && Tidy(s.ix) && forall t, d :: Count(s.ix, t, d) == Count(before.ix, t, d) + Total(Records(seg, ds), t, d)
  }

  ghost predicate LoadedFrom(s: Stats, seg: Tokenizer, ds: seq<Stored>) {
    LoadedOnto(Stats(map[], map[], map[], 0.0, 0), s, seg, ds)
  }

  /** Loading onto statistics that are up to date keeps them so if and only if no line with tokens is superseded by
      a later line for the same document, and no document with tokens is superseded by a line. */
  lemma LoadedOntoIsConsistentIff(before: Stats, s: Stats, seg: Tokenizer, ds: seq<Stored>)
    requires Consistent(before, seg) && LoadedOnto(before, s, seg, ds)
    ensures Consistent(s, seg) <==>
            forall d ::
              NothingSuperseded(Records(seg, ds), d) && (Named(Records(seg, ds), d) ==> Unposted(before.ix, d))
  {
    SameSize(seg, s.docs);
    AverageNotNegative(s.lens);
    LoadedTokens(seg, before.docs, ds);
    LoadOnExactIff(before.ix, s.ix, TokensOf(seg, before.docs), Records(seg, ds));
  }

  /** For a new index that is: if and only if no line with tokens is superseded. */
  lemma LoadedIsConsistentIff(s: Stats, seg: Tokenizer, ds: seq<Stored>)
    requires LoadedFrom(s, seg, ds)
    ensures Consistent(s, seg) <==> forall d :: NothingSuperseded(Records(seg, ds), d)
  {
    var before := Stats(map[], map[], map[], 0.0, 0);
    assert Consistent(before, seg);
    LoadedOntoIsConsistentIff(before, s, seg, ds);
    assert forall d :: Unposted(before.ix, d);
  }

  /** A line of this document has this token. */
  ghost predicate LineHas(seg: Tokenizer, ds: seq<Stored>, t: string, d: string) {
    exists i :: 0 <= i < |ds| && ds[i].id == d && Occurrences(seg(ds[i].content), t) > 0
  }

  lemma {:induction false} TotalIsLines(seg: Tokenizer, docs: map<string, Doc>, ds: seq<Stored>, t: string, d: string)
    ensures Total(Records(seg, ds), t, d) > 0 <==> LineHas(seg, ds, t, d)
    ensures LineHas(seg, ds, t, d) || d in docs ==> d in DocsOf(docs, ds)
  {
    if ds != [] {
      var n := |ds| - 1;
      TotalIsLines(seg, docs, ds[..n], t, d);
      assert Records(seg, ds)[..n] == Records(seg, ds[..n]);
      assert ds == ds[..n] + [ds[n]];
    }
  }

  lemma LoadedIsSane(before: Stats, s: Stats, seg: Tokenizer, ds: seq<Stored>)
    requires Sane(before) && LoadedOnto(before, s, seg, ds)
    ensures Sane(s)
  {
    SameSize(seg, s.docs);
    AverageNotNegative(s.lens);
    forall t, d | Posted(s, t, d)
      ensures d in s.docs && d in s.lens && s.ix[t][d] > 0
    {
      assert Count(s.ix, t, d) == Count(before.ix, t, d) + Total(Records(seg, ds), t, d);
      assert Count(before.ix, t, d) > 0 ==> Posted(before, t, d);
      TotalIsLines(seg, before.docs, ds, t, d);
      assert d in s.lens.Keys;
    }
    forall t | t in s.ix
      ensures |s.ix[t]| <= s.total
    {
      PostingsFit(s, t);
    }
  }

  lemma {:induction false} SumZeroIff(m: map<string, nat>)
    ensures Sum(m) == 0 <==> forall k :: k in m ==> m[k] == 0
  {
    if m != map[] {
      var k :| k in m;
      SumWithout(m, k);
      SumZeroIff(m - {k});
      assert forall j :: j in m <==> j == k || j in m - {k};
      assert forall j :: j in m - {k} ==> (m - {k})[j] == m[j];
    }
  }

  /** A search of a loaded index can divide by zero exactly when the last line of every document has no
      tokens, while an earlier line has one. */
  lemma DividesByZeroIff(s: Stats, seg: Tokenizer, ds: seq<Stored>)
    requires LoadedFrom(s, seg, ds)
    ensures !NeverDividesByZero(s) <==>
            (forall d :: d in s.docs ==> seg(s.docs[d].content) == []) && exists t, d :: LineHas(seg, ds, t, d)
  {
    forall t, d
      ensures Posted(s, t, d) <==> LineHas(seg, ds, t, d)
    {
      assert Count(s.ix, t, d) == Count(map[], t, d) + Total(Records(seg, ds), t, d);
      TotalIsLines(seg, map[], ds, t, d);
    }
    AverageNotNegative(s.lens);
    SumZeroIff(s.lens);
    if exists t, d :: LineHas(seg, ds, t, d) {
      var t, d :| LineHas(seg, ds, t, d);
      TotalIsLines(seg, map[], ds, t, d);
      SameSize(seg, s.docs);
      assert d in s.lens.Keys;
    }
  }

  // ----- persisting and loading -----------------------------------------------------------

  /** The documents in the order of their persisted lines. */
  function InOrder(docs: map<string, Doc>, order: seq<string>): (ds: seq<Stored>)
    requires forall d :: d in order ==> d in docs
    ensures |ds| == |order|
  {
    seq(|order|, i requires 0 <= i < |order| => Stored(order[i], docs[order[i]].content, docs[order[i]].importance))
  }

  /** What is persisted of the documents: all but their access times. */
  function Forgotten(docs: map<string, Doc>): map<string, Doc> {
    map d | d in docs :: docs[d].(lastAccessed := None)
  }

  lemma {:induction false} DocsInOrder(docs: map<string, Doc>, order: seq<string>)
    requires forall d :: d in order ==> d in docs
    ensures DocsOf(map[], InOrder(docs, order)) == map d | d in order :: docs[d].(lastAccessed := None)
  {
    if order != [] {
      var n := |order| - 1;
      assert order == order[..n] + [order[n]];
      DocsInOrder(docs, order[..n]);
      assert InOrder(docs, order)[..n] == InOrder(docs, order[..n]);
    }
  }

  /** The first `n` persisted documents are all of them only if `n` is their number. */
  lemma PrefixIsAllIff(docs: map<string, Doc>, order: seq<string>, n: nat)
    requires Enumerates(order, docs) && n <= |order|
    ensures DocsOf(map[], InOrder(docs, order)[..n]) == Forgotten(docs) <==> n == |order|
  {
    var kept := order[..n];
    assert InOrder(docs, order)[..n] == InOrder(docs, kept);
    DocsInOrder(docs, kept);
    if n < |order| {
      assert order[n] !in kept && order[n] in docs;
      assert order[n] in Forgotten(docs);
    } else {
      assert kept == order;
    }
  }

  lemma ForgottenTokens(seg: Tokenizer, docs: map<string, Doc>)
    ensures TokensOf(seg, Forgotten(docs)) == TokensOf(seg, docs) && Lengths(seg, Forgotten(docs)) == Lengths(seg, docs)
    ensures |Forgotten(docs)| == |docs|
  {
    SameContents(seg, docs, Forgotten(docs));
  }

  /** The reloaded index has the same postings, lengths and count, and the same average once there are
      documents; only the access times are gone. */
  ghost predicate SameButAccess(r: Stats, s: Stats) {
    && r.docs == Forgotten(s.docs) && r.ix == s.ix && r.lens == s.lens && r.total == s.total
    && (s.docs != map[] ==> r.avg == s.avg)
  }

  lemma NothingSupersededInOrder(seg: Tokenizer, docs: map<string, Doc>, order: seq<string>, d: string)
    requires Enumerates(order, docs)
    ensures NothingSuperseded(Records(seg, InOrder(docs, order)), d)
  {
  }

  lemma ReloadedPostings(seg: Tokenizer, s: Stats, order: seq<string>, r: Stats, ds: seq<Stored>)
    requires Consistent(s, seg) && Enumerates(order, s.docs)
    requires ds == InOrder(s.docs, order) && LoadedFrom(r, seg, ds) && r.docs == Forgotten(s.docs)
    ensures r.ix == s.ix
  {
    forall d
      ensures NothingSuperseded(Records(seg, ds), d)
    {
      NothingSupersededInOrder(seg, s.docs, order, d);
    }
    LoadedIsConsistentIff(r, seg, ds);
    ForgottenTokens(seg, s.docs);
    ExactIsUnique(r.ix, s.ix, TokensOf(seg, s.docs));
  }

  lemma AllReloaded(seg: Tokenizer, s: Stats, order: seq<string>, r: Stats, ds: seq<Stored>)
    requires Consistent(s, seg) && Enumerates(order, s.docs)
    requires ds == InOrder(s.docs, order) && LoadedFrom(r, seg, ds) && r.docs == Forgotten(s.docs)
    ensures SameButAccess(r, s)
  {
    ReloadedPostings(seg, s, order, r, ds);
    ForgottenTokens(seg, s.docs);
    SameSize(seg, s.docs);
  }

  lemma RereadIsPrefix(c: Codec<Stored>, ds: seq<Stored>) returns (n: nat)
    requires Faithful(c)
    ensures n <= |ds| && Decoded(c, ScanLines(Unlines(Encoded(c, ds)))) == ds[..n]
    ensures n == |ds| <==> AllFit(Encoded(c, ds))
  {
    n := |Fitting(Encoded(c, ds))|;
    FileReadsBack(c, ds);
  }

  /** Persisting an index in any order and loading the file into a fresh one gives the same statistics if
      and only if every line fits the scanner. */
  lemma ReloadsIffLinesFit(c: Codec<Stored>, seg: Tokenizer, s: Stats, order: seq<string>, r: Stats)
    requires Faithful(c) && Consistent(s, seg) && Enumerates(order, s.docs)
    requires LoadedFrom(r, seg, Decoded(c, ScanLines(Unlines(Encoded(c, InOrder(s.docs, order))))))
    ensures SameButAccess(r, s) <==> AllFit(Encoded(c, InOrder(s.docs, order)))
  {
    var ds := InOrder(s.docs, order);
    var n := RereadIsPrefix(c, ds);
    PrefixIsAllIff(s.docs, order, n);
    if n == |order| {
      assert ds[..n] == ds;
      AllReloaded(seg, s, order, r, ds);
    }
  }

  lemma HalfCombined(a: real, b: real, d: real)
    ensures Combined(a, b, 0.5, d) == 0.5 * Combined(a, b, 1.0, d)
  {
    var ab := a * b;
    assert ab * 0.5 * d == 0.5 * (ab * d);
  }

  /** A document that was used recently loses half its score by persisting and loading; the score of any
      other stays. */
  lemma {:induction false} ReloadedScore(s: Stats, r: Stats, ln: real -> real, cutoff: int, query: seq<string>,
                                         d: string)
    requires Sane(s) && Sane(r) && SameButAccess(r, s) && d in s.docs
    ensures Score(r, ln, cutoff, query, d) ==
            (if Decay(s.docs[d], cutoff) == 1.0 then 0.5 else 1.0) * Score(s, ln, cutoff, query, d)
  {
    if query != [] {
      var n := |query| - 1;
      ReloadedScore(s, r, ln, cutoff, query[..n], d);
      ReloadedWeight(s, r, ln, cutoff, query[n], d);
    }
  }

  lemma ReloadedWeight(s: Stats, r: Stats, ln: real -> real, cutoff: int, t: string, d: string)
    requires Sane(s) && Sane(r) && SameButAccess(r, s) && d in s.docs
    ensures Weight(r, ln, cutoff, t, d) ==
            (if Decay(s.docs[d], cutoff) == 1.0 then 0.5 else 1.0) * Weight(s, ln, cutoff, t, d)
  {
    if Posted(s, t, d) && s.avg > 0.0 {
      HalfCombined(Idf(ln, s.total, |s.ix[t]|), TermFactor(s.ix[t][d], Norm(s.lens[d], s.avg)),
                   ImportanceFactor(s.docs[d]));
    }
  }
}
