/**
 `MemoryEngine.Search` of internal/engine/memory_engine.go: score the memories that the store found,
 sort them by exchanges in place, drop those that resemble a better one, cut. Scores are reals.
 */
module MemoryMerge {
  import opened Common

  datatype Engram = Engram(id: string, summary: string, keywords: seq<string>, entities: seq<string>,
                           importance: int, lastAccessed: int)

  datatype Scored = Scored(e: Engram, score: real)

  const THRESHOLD := 0.4

  // ----- scores ---------------------------------------------------------------------------

  /** `cutoff` is the instant before which a memory counts as old. */
  function Score(e: Engram, cutoff: int): (r: real)
    ensures r >= 0.2
  {
    var recency := if e.lastAccessed < cutoff then 0.5 else 1.0;
    var score := recency * (e.importance as real / 5.0);
    if score < 0.2 then 0.2 else score
  }

  lemma ScoreMonotone(e: Engram, f: Engram, cutoff: int)
    requires e.importance <= f.importance && (e.lastAccessed < cutoff || f.lastAccessed >= cutoff)
    ensures Score(e, cutoff) <= Score(f, cutoff)
  {
  }

  /** A fresh memory of importance 1 or more scores its fifth, an old one half of that, and none less than 0.2. */
  lemma ScoreIs(e: Engram, cutoff: int)
    ensures e.lastAccessed >= cutoff && e.importance >= 1 ==> Score(e, cutoff) * 5.0 == e.importance as real
    ensures e.lastAccessed < cutoff && e.importance >= 2 ==> Score(e, cutoff) * 10.0 == e.importance as real
    ensures e.importance < 1 || (e.lastAccessed < cutoff && e.importance < 2) ==> Score(e, cutoff) == 0.2
  {
  }

  // ----- similarity -----------------------------------------------------------------------

  function SetOf(words: seq<string>): set<string> {
    set w | w in words
  }

  /** The share of common words among all words; 0 where there are none. */
  function Jaccard(a: set<string>, b: set<string>): real {
    if a + b == {} then 0.0 else |a * b| as real / |a + b| as real
  }

  lemma QuotientBounds(n: nat, d: nat)
    requires 0 < d && n <= d
    ensures 0.0 <= n as real / d as real <= 1.0
    ensures n as real / d as real == 1.0 <==> n == d
    ensures n as real / d as real == 0.0 <==> n == 0
  {
    var q := n as real / d as real;
    assert q * d as real == n as real;
  }

  /** Similarity is symmetric and between 0 and 1; it is 1 exactly for equal sets that are not empty and
      0 exactly for sets without a common word. */
  lemma JaccardIsSimilarity(a: set<string>, b: set<string>)
    ensures Jaccard(a, b) == Jaccard(b, a) && 0.0 <= Jaccard(a, b) <= 1.0
    ensures Jaccard(a, b) == 1.0 <==> a == b != {}
    ensures Jaccard(a, b) == 0.0 <==> a * b == {}
  {
    assert a + b == b + a && a * b == b * a;
    if a + b != {} {
      SubsetSize(a * b, a + b);
      QuotientBounds(|a * b|, |a + b|);
      assert a * b == a + b <==> a == b;
    }
  }

  lemma OneMoreVisited(a: set<string>, rest: set<string>, b: set<string>, k: string)
    requires rest <= a && k in rest
    ensures |(a - (rest - {k})) * b| == |(a - rest) * b| + if k in b then 1 else 0
  {
    var more, less := (a - (rest - {k})) * b, (a - rest) * b;
    assert more == if k in b then less + {k} else less;
  }

  /** `jaccard`. */
  method ComputeJaccard(a: seq<string>, b: seq<string>) returns (r: real)
    ensures r == Jaccard(SetOf(a), SetOf(b))
  {
    var setA := CollectSet(a);
    var setB := CollectSet(b);
    var inter := 0;
    var rest := setA;
    while rest != {}
      invariant rest <= setA && inter == |(setA - rest) * setB|
      decreases rest
    {
      var k :| k in rest;
      OneMoreVisited(setA, rest, setB, k);
      if k in setB {
        inter := inter + 1;
      }
      rest := rest - {k};
    }
    assert (setA - rest) * setB == setA * setB;
    UnionSize(setA, setB);
    var union := |setA| + |setB| - inter;
    if union == 0 {
      return 0.0;
    }
    r := inter as real / union as real;
  }

  method CollectSet(words: seq<string>) returns (s: set<string>)
    ensures s == SetOf(words)
  {
    s := {};
    for i := 0 to |words|
      invariant s == SetOf(words[..i])
    {
      assert words[..i + 1] == words[..i] + [words[i]];
      s := s + {words[i]};
    }
    assert words[..|words|] == words;
  }

  function Words(x: Scored): seq<string> {
    x.e.keywords + x.e.entities
  }

  predicate Similar(x: Scored, y: Scored, threshold: real) {
    Jaccard(SetOf(Words(x)), SetOf(Words(y))) >= threshold
  }

  /** The word is a keyword or an entity of the memory. */
  predicate Has(x: Scored, w: string) {
    w in x.e.keywords || w in x.e.entities
  }

  /** Two memories are similar if and only if they have words, keywords and entities alike, and at least two fifths of
      all their words in common. */
  lemma SimilarIff(x: Scored, y: Scored, both: set<string>, all: set<string>)
    requires forall w :: w in both <==> Has(x, w) && Has(y, w)
    requires forall w :: w in all <==> Has(x, w) || Has(y, w)
    ensures Similar(x, y, THRESHOLD) <==> all != {} && 5 * |both| >= 2 * |all|
  {
    var a, b := SetOf(Words(x)), SetOf(Words(y));
    assert a * b == both && a + b == all;
    if all != {} {
      ShareAtLeast(|both|, |all|);
    }
  }

  lemma ShareAtLeast(n: nat, d: nat)
    requires d > 0
    ensures n as real / d as real >= 0.4 <==> 5 * n >= 2 * d
  {
    QuotientAtLeast(n as real, d as real, n as real / d as real);
  }

  lemma QuotientAtLeast(x: real, y: real, q: real)
    requires y > 0.0 && q == x / y
    ensures q >= 0.4 <==> x >= 0.4 * y
  {
    QuotientTimes(x, y);
    if q >= 0.4 {
      RealMonotone(0.4, q, y);
    } else {
      TimesStrict(q, 0.4, y);
    }
  }

  lemma QuotientTimes(x: real, y: real)
    requires y > 0.0
    ensures x / y * y == x
  {
  }

  lemma RealMonotone(p: real, q: real, d: real)
    requires p <= q && d >= 0.0
    ensures p * d <= q * d
  {
  }

  lemma TimesStrict(p: real, q: real, d: real)
    requires p < q && d > 0.0
    ensures p * d < q * d
  {
  }

  // ----- the exchange sort ----------------------------------------------------------------

  ghost predicate Descending(xs: seq<Scored>) {
    forall i, j :: 0 <= i < j < |xs| ==> xs[i].score >= xs[j].score
  }

  /** The first `i` are in order, and none of the rest scores more than one of them. */
  ghost predicate SortedTo(xs: seq<Scored>, i: nat) {
    forall k, j :: 0 <= k < i && k < j < |xs| ==> xs[k].score >= xs[j].score
  }

  /** The two nested loops. */
  method ExchangeSort(a: array<Scored>)
    modifies a
    ensures Descending(a[..]) && multiset(a[..]) == multiset(old(a[..]))
    ensures Descending(old(a[..])) ==> a[..] == old(a[..])
  {
    var i := 0;
    while i < a.Length - 1
      invariant 0 <= i <= a.Length && SortedTo(a[..], i)
      invariant multiset(a[..]) == multiset(old(a[..]))
      invariant Descending(old(a[..])) ==> a[..] == old(a[..])
    {
      BringBest(a, i);
      i := i + 1;
    }
  }

  /** The inner loop. */
  method BringBest(a: array<Scored>, i: nat)
    requires i < a.Length && SortedTo(a[..], i)
    modifies a
    ensures SortedTo(a[..], i + 1) && multiset(a[..]) == multiset(old(a[..]))
    ensures Descending(old(a[..])) ==> a[..] == old(a[..])
  {
    var j := i + 1;
    while j < a.Length
      invariant i < j <= a.Length && SortedTo(a[..], i)
      invariant multiset(a[..]) == multiset(old(a[..]))
      invariant forall l :: i < l < j ==> a[i].score >= a[l].score
      invariant Descending(old(a[..])) ==> a[..] == old(a[..])
    {
      if a[j].score > a[i].score {
        Exchange(a, i, j);
      }
      j := j + 1;
    }
  }

  method Exchange(a: array<Scored>, i: nat, j: nat)
    requires i < j < a.Length && SortedTo(a[..], i)
    modifies a
    ensures SortedTo(a[..], i) && multiset(a[..]) == multiset(old(a[..]))
    ensures a[i] == old(a[j]) && a[j] == old(a[i])
    ensures forall l :: 0 <= l < a.Length && l != i && l != j ==> a[l] == old(a[l])
  {
    ghost var was := a[..];
    a[i], a[j] := a[j], a[i];
    assert a[..] == was[i := was[j]][j := was[i]];
    assert forall k, l :: 0 <= k < i && k < l < |was| ==> was[k].score >= was[l].score;
  }

  // ----- merging --------------------------------------------------------------------------

  /** What merging keeps: a memory that resembles no kept one before it. */
  ghost predicate Keeps(xs: seq<Scored>, threshold: real, p: nat)
    requires p < |xs|
    decreases p
  {
    forall q: nat :: q < p && Keeps(xs, threshold, q) ==> !Similar(xs[p], xs[q], threshold)
  }

  /** The places `ks` of the kept, in order. */
  ghost predicate KeptPlaces(xs: seq<Scored>, threshold: real, ks: seq<nat>, n: nat)
    requires n <= |xs|
  {
    && (forall i :: 0 <= i < |ks| ==> ks[i] < n && Keeps(xs, threshold, ks[i]))
    && (forall i, j :: 0 <= i < j < |ks| ==> ks[i] < ks[j])
    && (forall p: nat :: p < n && Keeps(xs, threshold, p) ==> p in ks)
  }

  ghost predicate Picked(xs: seq<Scored>, ks: seq<nat>, out: seq<Scored>) {
    |out| == |ks| && forall i :: 0 <= i < |ks| ==> ks[i] < |xs| && out[i] == xs[ks[i]]
  }

  lemma OneMoreKept(xs: seq<Scored>, threshold: real, ks: seq<nat>, n: nat)
    requires n < |xs| && KeptPlaces(xs, threshold, ks, n) && Keeps(xs, threshold, n)
    ensures KeptPlaces(xs, threshold, ks + [n], n + 1)
  {
    var more := ks + [n];
    assert more[|ks|] == n;
    forall p: nat | p < n + 1 && Keeps(xs, threshold, p)
      ensures p in more
    {
      assert p == n || p in ks;
    }
  }

  lemma OneMoreDropped(xs: seq<Scored>, threshold: real, ks: seq<nat>, n: nat)
    requires n < |xs| && KeptPlaces(xs, threshold, ks, n) && !Keeps(xs, threshold, n)
    ensures KeptPlaces(xs, threshold, ks, n + 1)
  {
    forall p: nat | p < n + 1 && Keeps(xs, threshold, p)
      ensures p in ks
    {
      assert p != n;
    }
  }

  /** `out` is what merging keeps of the first `n`, in order. */
  ghost predicate IsMerged(xs: seq<Scored>, threshold: real, n: nat, out: seq<Scored>)
    requires n <= |xs|
  {
    exists ks :: KeptPlaces(xs, threshold, ks, n) && Picked(xs, ks, out)
  }

  /** `mergeSimilar`. */
  method MergeSimilar(xs: seq<Scored>, threshold: real) returns (out: seq<Scored>)
    ensures IsMerged(xs, threshold, |xs|, out)
  {
    out := [];
    ghost var ks: seq<nat> := [];
    for n := 0 to |xs|
      invariant KeptPlaces(xs, threshold, ks, n) && Picked(xs, ks, out)
    {
      var merged := Resembles(xs[n], out, threshold);
      KeepsIff(xs, threshold, ks, out, n);
      if !merged {
        OneMoreKept(xs, threshold, ks, n);
        ks := ks + [n];
        out := out + [xs[n]];
      } else {
        OneMoreDropped(xs, threshold, ks, n);
      }
    }
  }

  /** The inner loop: does a memory resemble one of those kept so far? */
  method Resembles(x: Scored, out: seq<Scored>, threshold: real) returns (merged: bool)
    ensures merged <==> exists i :: 0 <= i < |out| && Similar(x, out[i], threshold)
  {
    for i := 0 to |out|
      invariant forall k :: 0 <= k < i ==> !Similar(x, out[k], threshold)
    {
      var similarity := ComputeJaccard(Words(x), Words(out[i]));
      if similarity >= threshold {
        return true;
      }
    }
    merged := false;
  }

  lemma KeepsIff(xs: seq<Scored>, threshold: real, ks: seq<nat>, out: seq<Scored>, n: nat)
    requires n < |xs| && KeptPlaces(xs, threshold, ks, n) && Picked(xs, ks, out)
    ensures Keeps(xs, threshold, n) <==> !exists i :: 0 <= i < |out| && Similar(xs[n], out[i], threshold)
  {
    if Keeps(xs, threshold, n) {
      forall i | 0 <= i < |out|
        ensures !Similar(xs[n], out[i], threshold)
      {
        assert Keeps(xs, threshold, ks[i]);
      }
    } else {
      var q: nat :| q < n && Keeps(xs, threshold, q) && Similar(xs[n], xs[q], threshold);
      var i :| 0 <= i < |ks| && ks[i] == q;
      assert out[i] == xs[q];
    }
  }

  /** No two of the chosen places hold similar memories, and every other place comes after a chosen one
      that it resembles. */
  ghost predicate IsMerge(xs: seq<Scored>, threshold: real, chosen: set<nat>) {
    && (forall p :: p in chosen ==> p < |xs|)
    && (forall p, q :: p in chosen && q in chosen && q < p ==> !Similar(xs[p], xs[q], threshold))
    && (forall p: nat :: p < |xs| && p !in chosen ==>
          exists q :: q in chosen && q < p && Similar(xs[p], xs[q], threshold))
  }

  lemma {:induction false} MergeKeeps(xs: seq<Scored>, threshold: real, chosen: set<nat>, p: nat)
    requires IsMerge(xs, threshold, chosen) && p < |xs|
    ensures p in chosen <==> Keeps(xs, threshold, p)
  {
    forall q: nat | q < p
      ensures q in chosen <==> Keeps(xs, threshold, q)
    {
      MergeKeeps(xs, threshold, chosen, q);
    }
  }

  /** There is exactly one way to merge a list, and it is what the loop keeps. */
  lemma TheOnlyMerge(xs: seq<Scored>, threshold: real, chosen: set<nat>)
    ensures IsMerge(xs, threshold, chosen)
            <==> chosen == set p: nat | p < |xs| && Keeps(xs, threshold, p)
  {
    var kept := set p: nat | p < |xs| && Keeps(xs, threshold, p);
    if IsMerge(xs, threshold, chosen) {
      forall p: nat | p < |xs|
        ensures p in chosen <==> p in kept
      {
        MergeKeeps(xs, threshold, chosen, p);
      }
    }
  }

  /** In a list in descending order, a dropped memory resembles a kept one that scores no less. */
  lemma DroppedForABetterOne(xs: seq<Scored>, threshold: real, p: nat)
    requires Descending(xs) && p < |xs| && !Keeps(xs, threshold, p)
    ensures exists q: nat ::
              q < p && Keeps(xs, threshold, q) && Similar(xs[p], xs[q], threshold) && xs[q].score >= xs[p].score
  {
    var q: nat :| q < p && Keeps(xs, threshold, q) && Similar(xs[p], xs[q], threshold);
    assert xs[q].score >= xs[p].score;
  }

  // ----- search ---------------------------------------------------------------------------

  /** The first `limit` of the one merge of a sorted permutation. */
  ghost predicate IsAnswer(engrams: seq<Engram>, cutoff: int, limit: nat, answer: seq<Scored>) {
    exists sorted, merged ::
      && Descending(sorted) && multiset(sorted) == multiset(ScoredAll(engrams, cutoff))
      && IsMerged(sorted, THRESHOLD, |sorted|, merged)
      && answer == if limit < |merged| then merged[..limit] else merged
  }

  function Summaries(xs: seq<Scored>): seq<string> {
    seq(|xs|, i requires 0 <= i < |xs| => xs[i].e.summary)
  }

  function Names(xs: seq<Scored>): seq<string> {
    seq(|xs|, i requires 0 <= i < |xs| => xs[i].e.id)
  }

  /** The summaries and the names of an answer. */
  ghost predicate Answers(engrams: seq<Engram>, cutoff: int, limit: nat, out: seq<string>, touched: seq<string>) {
    exists answer :: IsAnswer(engrams, cutoff, limit, answer) && out == Summaries(answer) && touched == Names(answer)
  }

  /** `Search` once the store has answered; `touched` are the memories whose access it records. A negative
      limit makes it panic, where the store has found anything. */
  method Search(engrams: seq<Engram>, cutoff: int, limit: int)
    returns (panics: bool, out: seq<string>, touched: seq<string>)
    ensures panics <==> limit < 0 && engrams != []
    ensures panics ==> out == touched == []
    ensures !panics ==> Answers(engrams, cutoff, if limit < 0 then 0 else limit, out, touched)
  {
    panics := limit < 0 && |engrams| > 0;
    if panics || |engrams| == 0 {
      NothingFound(cutoff, if limit < 0 then 0 else limit);
      return panics, [], [];
    }
    out, touched := Ranked(engrams, cutoff, limit);
  }

  lemma NothingFound(cutoff: int, limit: nat)
    ensures Answers([], cutoff, limit, [], [])
  {
    var none: seq<Scored> := [];
    var ks: seq<nat> := [];
    assert KeptPlaces(none, THRESHOLD, ks, 0) && Picked(none, ks, none);
    assert IsMerged(none, THRESHOLD, 0, none);
    assert ScoredAll([], cutoff) == none;
    assert IsAnswer([], cutoff, limit, none);
    assert Summaries(none) == [] && Names(none) == [];
  }

  /** Scoring, sorting, merging and cutting. */
  method Ranked(engrams: seq<Engram>, cutoff: int, limit: nat) returns (out: seq<string>, touched: seq<string>)
    ensures Answers(engrams, cutoff, limit, out, touched)
  {
    var scored := new Scored[|engrams|](i requires 0 <= i < |engrams| => Scored(engrams[i], Score(engrams[i], cutoff)));
    assert scored[..] == ScoredAll(engrams, cutoff);
    ExchangeSort(scored);
    var merged := MergeSimilar(scored[..], THRESHOLD);
    out, touched := FirstOf(merged, limit);
    assert IsAnswer(engrams, cutoff, limit, if limit < |merged| then merged[..limit] else merged);
  }

  /** The loop that ends `Search`. */
  method FirstOf(merged: seq<Scored>, limit: nat) returns (out: seq<string>, touched: seq<string>)
    ensures
      var answer := if limit < |merged| then merged[..limit] else merged;
      out == Summaries(answer) && touched == Names(answer)
  {
    out, touched := [], [];
    for i := 0 to |merged|
      invariant i <= limit && out == Summaries(merged[..i]) && touched == Names(merged[..i])
    {
      if i >= limit {
        return;
      }
      touched := touched + [merged[i].e.id];
      out := out + [merged[i].e.summary];
    }
    assert merged[..|merged|] == merged;
  }

  function ScoredAll(engrams: seq<Engram>, cutoff: int): seq<Scored> {
    seq(|engrams|, i requires 0 <= i < |engrams| => Scored(engrams[i], Score(engrams[i], cutoff)))
  }
}
