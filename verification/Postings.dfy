/**
 The inverted index shared by viking/search.go and viking/bm25.go: a map from tokens to the counts
 of the documents they occur in, updated in place when a document is added, replaced or loaded.
 */
module Postings {
  import opened Common

  type Index = map<string, map<string, nat>>

  function Count(ix: Index, t: string, d: string): nat {
    if t in ix && d in ix[t] then ix[t][d] else 0
  }

  /** No token without documents, no document with a zero count. */
  ghost predicate Tidy(ix: Index) {
    && (forall t :: t in ix ==> ix[t] != map[])
    && (forall t, d :: t in ix && d in ix[t] ==> ix[t][d] > 0)
  }

  /** How often a token occurs in a document's tokens; empty tokens are not indexed. */
  function Occurrences(tokens: seq<string>, t: string): nat {
    if t == "" then 0 else multiset(tokens)[t]
  }

  /** The token lists of the documents, by document. */
  type Tokens = map<string, seq<string>>

  function Multiplicity(docs: Tokens, t: string, d: string): nat {
    if d in docs then Occurrences(docs[d], t) else 0
  }

  /** Some non-empty token of the query is a token of the document. */
  ghost predicate Shares(query: seq<string>, tokens: seq<string>) {
    exists t :: t in query && t in tokens && t != ""
  }

  /** The index counts exactly the tokens of these documents. */
  ghost predicate Exact(ix: Index, docs: Tokens) {
    Tidy(ix) && forall t, d :: Count(ix, t, d) == Multiplicity(docs, t, d)
  }

  /** There is only one exact index for given documents: how it came about leaves no trace. */
  lemma ExactIsUnique(ix: Index, iy: Index, docs: Tokens)
    requires Exact(ix, docs) && Exact(iy, docs)
    ensures ix == iy
  {
    SameDomain(ix, iy, docs);
    SameDomain(iy, ix, docs);
    forall t | t in ix
      ensures ix[t] == iy[t]
    {
      SamePostings(ix, iy, docs, t);
      SamePostings(iy, ix, docs, t);
    }
  }

  lemma SameDomain(ix: Index, iy: Index, docs: Tokens)
    requires Exact(ix, docs) && Exact(iy, docs)
    ensures forall t :: t in ix ==> t in iy
  {
    forall t | t in ix
      ensures t in iy
    {
      assert ix[t] != map[];
      var d :| d in ix[t];
      assert Count(ix, t, d) == Multiplicity(docs, t, d) == Count(iy, t, d);
    }
  }

  lemma SamePostings(ix: Index, iy: Index, docs: Tokens, t: string)
    requires Exact(ix, docs) && Exact(iy, docs) && t in ix && t in iy
    ensures forall d :: d in ix[t] ==> d in iy[t] && ix[t][d] == iy[t][d]
  {
    forall d | d in ix[t]
      ensures d in iy[t] && ix[t][d] == iy[t][d]
    {
      assert Count(ix, t, d) == Multiplicity(docs, t, d) == Count(iy, t, d);
    }
  }

  // ----- updates --------------------------------------------------------------------------

  /** Drops a document from the postings of one token, and the token if that was its last document. */
  method RemoveToken(input: Index, d: string, t: string) returns (ix: Index)
    requires Tidy(input)
    ensures Tidy(ix)
    ensures forall u, e :: Count(ix, u, e) == if e == d && u == t then 0 else Count(input, u, e)
  {
    ix := input;
    if t in ix {
      var m := ix[t] - {d};
      ix := ix[t := m];
      if |m| == 0 {
        ix := ix - {t};
      }
    }
  }

  /** Counts one occurrence of a token in a document. */
  method AddToken(input: Index, d: string, t: string) returns (ix: Index)
    requires Tidy(input)
    ensures Tidy(ix)
    ensures forall u, e :: Count(ix, u, e) == Count(input, u, e) + if u == t && e == d then 1 else 0
  {
    var m: map<string, nat> := map[];
    if t in input {
      m := input[t];
    }
    m := m[d := Count(input, t, d) + 1];
    ix := input[t := m];
    assert d in ix[t];
  }

  /** Drops a document from the postings of these tokens. */
  method RemoveTokens(input: Index, d: string, tokens: seq<string>) returns (ix: Index)
    requires Tidy(input)
    ensures Tidy(ix)
    ensures forall t, e :: Count(ix, t, e) == if e == d && t in tokens then 0 else Count(input, t, e)
  {
    ix := input;
    for i := 0 to |tokens|
      invariant Tidy(ix)
      invariant forall t, e :: Count(ix, t, e) == if e == d && t in tokens[..i] then 0 else Count(input, t, e)
    {
      ix := RemoveToken(ix, d, tokens[i]);
      assert tokens[..i + 1] == tokens[..i] + [tokens[i]];
    }
    assert tokens[..|tokens|] == tokens;
  }

  /** Counts a document's tokens. */
  method AddTokens(input: Index, d: string, tokens: seq<string>) returns (ix: Index)
    requires Tidy(input)
    ensures Tidy(ix)
    ensures forall t, e :: Count(ix, t, e) == Count(input, t, e) + if e == d then Occurrences(tokens, t) else 0
  {
    ix := input;
    assert forall t :: Occurrences([], t) == 0;
    assert tokens[..0] == [];
    for i := 0 to |tokens|
      invariant Tidy(ix)
      invariant forall t, e :: Count(ix, t, e) == Count(input, t, e) + if e == d then Occurrences(tokens[..i], t) else 0
    {
      assert tokens[..i + 1] == tokens[..i] + [tokens[i]];
      if tokens[i] != "" {
        ix := AddToken(ix, d, tokens[i]);
      }
    }
    assert tokens[..|tokens|] == tokens;
  }

  /** The tokens of a document's old content are no longer posted for it, and those of the new are counted. */
  ghost predicate Replaced(before: Index, after: Index, d: string, gone: seq<string>, tokens: seq<string>) {
    forall t, e :: Count(after, t, e) ==
      if e != d then Count(before, t, e) else (if t in gone then 0 else Count(before, t, d)) + Occurrences(tokens, t)
  }

  /** The tokens of the content that a new one replaces. */
  function OldTokens(docs: Tokens, d: string): seq<string> {
    if d in docs then docs[d] else []
  }

  /** `Index`: replaces a document, or adds it. */
  method Replace(input: Index, d: string, gone: Option<seq<string>>, tokens: seq<string>) returns (ix: Index)
    requires Tidy(input)
    ensures Tidy(ix) && Replaced(input, ix, d, if gone.Some? then gone.value else [], tokens)
  {
    ix := input;
    if gone.Some? {
      ix := RemoveTokens(ix, d, gone.value);
    }
    ix := AddTokens(ix, d, tokens);
  }

  ghost predicate ExactFor(ix: Index, docs: Tokens, d: string) {
    forall t :: Count(ix, t, d) == Multiplicity(docs, t, d)
  }

  /** Re-indexing a document makes the index exact if and only if the index was exact for all other documents, and
      no token was posted for this one that its old content does not have. */
  lemma ReplaceExactIff(before: Index, after: Index, docs: Tokens, d: string, tokens: seq<string>)
    requires Tidy(before) && Tidy(after) && Replaced(before, after, d, OldTokens(docs, d), tokens)
    ensures Exact(after, docs[d := tokens]) <==>
            && (forall e :: e != d ==> ExactFor(before, docs, e))
            && (forall t :: Count(before, t, d) > 0 ==> t in OldTokens(docs, d))
    ensures Exact(before, docs) ==> Exact(after, docs[d := tokens])
  {
    var docs' := docs[d := tokens];
    if Exact(after, docs') {
      forall e | e != d
        ensures ExactFor(before, docs, e)
      {
        assert forall t :: Count(after, t, e) == Multiplicity(docs', t, e) == Multiplicity(docs, t, e);
      }
      forall t
        ensures Count(before, t, d) > 0 ==> t in OldTokens(docs, d)
      {
        assert Count(after, t, d) == Multiplicity(docs', t, d);
      }
    } else {
      var t, e :| Count(after, t, e) != Multiplicity(docs', t, e);
      assert e != d ==> !ExactFor(before, docs, e) && Multiplicity(docs', t, e) == Multiplicity(docs, t, e);
    }
    if Exact(before, docs) {
      forall t
        ensures Count(before, t, d) > 0 ==> t in OldTokens(docs, d)
      {
        assert Count(before, t, d) == Multiplicity(docs, t, d);
      }
    }
  }

  // ----- loading --------------------------------------------------------------------------

  /** A document as it is read back: its name and the tokens of its content. */
  datatype Record = Record(id: string, tokens: seq<string>)

  /** The documents after loading onto others: a later record of a name wins. */
  function LoadedOn(docs: Tokens, recs: seq<Record>): Tokens {
    if recs == [] then docs
    else LoadedOn(docs, recs[..|recs| - 1])[recs[|recs| - 1].id := recs[|recs| - 1].tokens]
  }

  function Loaded(recs: seq<Record>): Tokens {
    LoadedOn(map[], recs)
  }

  /** What loading counts: all records of the name, not only the last. */
  function Total(recs: seq<Record>, t: string, d: string): nat {
    if recs == [] then 0
    else
      var r := recs[|recs| - 1];
      Total(recs[..|recs| - 1], t, d) + if r.id == d then Occurrences(r.tokens, t) else 0
  }

  /** The load loop adds tokens and removes none. */
  method LoadRecords(input: Index, recs: seq<Record>) returns (ix: Index)
    requires Tidy(input)
    ensures Tidy(ix)
    ensures forall t, d :: Count(ix, t, d) == Count(input, t, d) + Total(recs, t, d)
  {
    ix := input;
    assert recs[..0] == [];
    for i := 0 to |recs|
      invariant Tidy(ix)
      invariant forall t, d :: Count(ix, t, d) == Count(input, t, d) + Total(recs[..i], t, d)
    {
      assert recs[..i + 1][..i] == recs[..i];
      ix := AddTokens(ix, recs[i].id, recs[i].tokens);
    }
    assert recs[..|recs|] == recs;
  }

  /** A record has nothing to count. */
  ghost predicate Blank(r: Record) {
    forall t :: Occurrences(r.tokens, t) == 0
  }

  /** Every record of this name that a later one supersedes is blank. */
  ghost predicate NothingSuperseded(recs: seq<Record>, d: string) {
    forall i, j :: 0 <= i < j < |recs| && recs[i].id == recs[j].id == d ==> Blank(recs[i])
  }

  ghost predicate AllBlank(recs: seq<Record>, d: string) {
    forall i :: 0 <= i < |recs| && recs[i].id == d ==> Blank(recs[i])
  }

  ghost predicate TotalZero(recs: seq<Record>, d: string) {
    forall t :: Total(recs, t, d) == 0
  }

  lemma {:induction false} TotalOfBlanks(recs: seq<Record>, d: string)
    ensures TotalZero(recs, d) <==> AllBlank(recs, d)
  {
    if recs != [] {
      var n := |recs| - 1;
      var pre, r := recs[..n], recs[n];
      TotalOfBlanks(pre, d);
      assert AllBlank(recs, d) <==> AllBlank(pre, d) && (r.id == d ==> Blank(r)) by {
        assert recs == pre + [r];
      }
      assert forall t :: Total(recs, t, d) == Total(pre, t, d) + if r.id == d then Occurrences(r.tokens, t) else 0;
    }
  }

  ghost predicate CountsLast(recs: seq<Record>, d: string) {
    forall t :: Total(recs, t, d) == Multiplicity(Loaded(recs), t, d)
  }

  /** The counts of a name are those of its last record exactly when its superseded records are
      blank. */
  lemma {:induction false} TotalIsMultiplicityIff(recs: seq<Record>, d: string)
    ensures CountsLast(recs, d) <==> NothingSuperseded(recs, d)
  {
    if recs != [] {
      var n := |recs| - 1;
      var pre, r := recs[..n], recs[n];
      assert recs == pre + [r];
      if r.id == d {
        TotalOfBlanks(pre, d);
        assert forall t :: Total(recs, t, d) == Total(pre, t, d) + Multiplicity(Loaded(recs), t, d);
        SupersededByLast(pre, r);
      } else {
        TotalIsMultiplicityIff(pre, d);
        forall t
          ensures Total(recs, t, d) == Total(pre, t, d)
          ensures Multiplicity(Loaded(recs), t, d) == Multiplicity(Loaded(pre), t, d)
        {
        }
        assert CountsLast(recs, d) <==> CountsLast(pre, d);
        SupersededByOther(pre, r, d);
      }
    }
  }

  lemma SupersededByLast(pre: seq<Record>, r: Record)
    ensures NothingSuperseded(pre + [r], r.id) <==> AllBlank(pre, r.id)
  {
    var recs := pre + [r];
    if NothingSuperseded(recs, r.id) {
      forall i | 0 <= i < |pre| && pre[i].id == r.id
        ensures Blank(pre[i])
      {
        assert recs[i] == pre[i] && recs[|pre|] == r;
      }
    }
  }

  lemma SupersededByOther(pre: seq<Record>, r: Record, d: string)
    requires r.id != d
    ensures NothingSuperseded(pre + [r], d) <==> NothingSuperseded(pre, d)
  {
    var recs := pre + [r];
    assert forall i :: 0 <= i < |pre| ==> recs[i] == pre[i];
  }

  // ----- loading onto documents -----------------------------------------------------------

  /** Some record has this name. */
  ghost predicate Named(recs: seq<Record>, d: string) {
    exists i :: 0 <= i < |recs| && recs[i].id == d
  }

  ghost predicate Unposted(ix: Index, d: string) {
    forall t :: Count(ix, t, d) == 0
  }

  /** Records decide about the documents they name and leave the others alone. */
  lemma {:induction false} NamedDecide(docs: Tokens, recs: seq<Record>, t: string, d: string)
    ensures Named(recs, d) ==> Multiplicity(LoadedOn(docs, recs), t, d) == Multiplicity(Loaded(recs), t, d)
    ensures !Named(recs, d) ==> Multiplicity(LoadedOn(docs, recs), t, d) == Multiplicity(docs, t, d)
    ensures !Named(recs, d) ==> Total(recs, t, d) == 0
    ensures Multiplicity(Loaded(recs), t, d) <= Total(recs, t, d)
  {
    if recs != [] {
      var pre, r := recs[..|recs| - 1], recs[|recs| - 1];
      assert recs == pre + [r];
      NamedDecide(docs, pre, t, d);
      assert Named(recs, d) <==> Named(pre, d) || r.id == d by {
        if r.id == d {
          assert recs[|recs| - 1].id == d;
        }
      }
    }
  }

  lemma ExactForIff(before: Index, after: Index, docs: Tokens, recs: seq<Record>, d: string)
    requires Exact(before, docs) && forall t :: Count(after, t, d) == Count(before, t, d) + Total(recs, t, d)
    ensures ExactFor(after, LoadedOn(docs, recs), d) <==>
            NothingSuperseded(recs, d) && (Named(recs, d) ==> Unposted(before, d))
  {
    TotalIsMultiplicityIff(recs, d);
    forall t
      ensures Count(before, t, d) == Multiplicity(docs, t, d)
      ensures Named(recs, d) ==> Multiplicity(LoadedOn(docs, recs), t, d) == Multiplicity(Loaded(recs), t, d)
      ensures !Named(recs, d) ==> Multiplicity(LoadedOn(docs, recs), t, d) == Multiplicity(docs, t, d)
      ensures !Named(recs, d) ==> Total(recs, t, d) == 0
      ensures Multiplicity(Loaded(recs), t, d) <= Total(recs, t, d)
    {
      NamedDecide(docs, recs, t, d);
    }
    if Named(recs, d) && ExactFor(after, LoadedOn(docs, recs), d) {
      forall t
        ensures Total(recs, t, d) == Multiplicity(Loaded(recs), t, d) && Count(before, t, d) == 0
      {
        assert Count(after, t, d) == Multiplicity(LoadedOn(docs, recs), t, d);
      }
    }
  }

  /** Loading onto an exact index gives an exact one if and only if nothing that counts is superseded, neither a
      record by a later one nor a document by a record. */
  lemma LoadOnExactIff(before: Index, after: Index, docs: Tokens, recs: seq<Record>)
    requires Exact(before, docs) && Tidy(after)
    requires forall t, d :: Count(after, t, d) == Count(before, t, d) + Total(recs, t, d)
    ensures Exact(after, LoadedOn(docs, recs)) <==>
            forall d :: NothingSuperseded(recs, d) && (Named(recs, d) ==> Unposted(before, d))
  {
    forall d
      ensures ExactFor(after, LoadedOn(docs, recs), d) <==>
              NothingSuperseded(recs, d) && (Named(recs, d) ==> Unposted(before, d))
    {
      ExactForIff(before, after, docs, recs, d);
    }
    ExactIffForAll(after, LoadedOn(docs, recs));
  }

  lemma ExactIffForAll(ix: Index, docs: Tokens)
    requires Tidy(ix)
    ensures Exact(ix, docs) <==> forall d :: ExactFor(ix, docs, d)
  {
    if forall d :: ExactFor(ix, docs, d) {
      forall t, d
        ensures Count(ix, t, d) == Multiplicity(docs, t, d)
      {
        assert ExactFor(ix, docs, d);
      }
    }
  }

  ghost predicate DistinctNames(recs: seq<Record>) {
    forall i, j :: 0 <= i < j < |recs| ==> recs[i].id != recs[j].id
  }

  /** Loading into an empty index gives the exact index of the loaded documents if and only if nothing
      that counts was superseded. In particular it does when the names are distinct. */
  lemma LoadExactIff(ix: Index, recs: seq<Record>)
    requires Tidy(ix) && forall t, d :: Count(ix, t, d) == Total(recs, t, d)
    ensures Exact(ix, Loaded(recs)) <==> forall d :: NothingSuperseded(recs, d)
    ensures DistinctNames(recs) ==> Exact(ix, Loaded(recs))
  {
    var none: Index := map[];
    assert Exact(none, map[]);
    LoadOnExactIff(none, ix, map[], recs);
    assert forall d :: Unposted(none, d);
  }
}
