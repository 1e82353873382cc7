/**
 Full-text search of viking/search.go: the tokenizer, the incrementally updated inverted index, its
 persisted form and its search. A text is a sequence of runes here, the lines that it is encoded to are
 byte strings; lower-casing, letter and number classes and JSON are parameters. Document metadata is
 not part of the model.
 */
module SearchIndex {
  import opened Common
  import opened GoStrings
  import opened JsonLines
  import opened Postings

  // ----- tokenize -------------------------------------------------------------------------

  predicate IsCJK(r: char) {
    0x4e00 <= r as int <= 0x9fff
  }

  /** The runes from U+4E00 up to, but not, U+A000. */
  lemma CjkBlock(r: char)
    ensures IsCJK(r) <==> 0x4E <= r as int / 0x100 < 0xA0
  {
  }

  /** The longest prefix of letters and numbers outside the CJK range. */
  function WordLength(text: string, isWord: char -> bool): (n: nat)
    ensures n <= |text|
  {
    if text == "" || !isWord(text[0]) || IsCJK(text[0]) then 0 else 1 + WordLength(text[1..], isWord)
  }

  /** The tokens of a text: every CJK rune by itself, and every maximal run of other letters and
      numbers. */
  function Tokens(text: string, isWord: char -> bool): seq<string>
    decreases |text|
  {
    if text == "" then []
    else if IsCJK(text[0]) then [text[..1]] + Tokens(text[1..], isWord)
    else
      var n := WordLength(text, isWord);
      if n == 0 then Tokens(text[1..], isWord) else [text[..n]] + Tokens(text[n..], isWord)
  }

  /** The tokens with the open run, if there is one, added. */
  function Flush(tokens: seq<string>, buf: string): seq<string> {
    if buf == "" then tokens else tokens + [buf]
  }

  /** The tokens of a text of which `tokens` are collected, a run `buf` is open, and `rest` is left. */
  function Outlook(tokens: seq<string>, buf: string, rest: string, isWord: char -> bool): seq<string> {
    tokens + Tokens(buf + rest, isWord)
  }

  predicate IsRun(buf: string, isWord: char -> bool) {
    forall k :: 0 <= k < |buf| ==> isWord(buf[k]) && !IsCJK(buf[k])
  }

  /** `tokenize`: one pass with a buffer for the current run. */
  method Tokenize(text: string, isWord: char -> bool) returns (tokens: seq<string>)
    ensures tokens == Tokens(text, isWord)
  {
    tokens := [];
    var buf: string := "";
    assert "" + text[0..] == text && [] + Tokens(text, isWord) == Tokens(text, isWord);
    for i := 0 to |text|
      invariant IsRun(buf, isWord)
      invariant Outlook(tokens, buf, text[i..], isWord) == Tokens(text, isWord)
    {
      var r := text[i];
      assert text[i..] == [r] + text[i + 1..];
      ghost var tokens0, buf0 := tokens, buf;
      if isWord(r) || IsCJK(r) {
        if IsCJK(r) {
          tokens, buf := Flush(tokens, buf) + [[r]], "";
        } else {
          buf := buf + [r];
        }
      } else {
        tokens, buf := Flush(tokens, buf), "";
      }
      OneRune(tokens0, buf0, r, text[i + 1..], isWord, tokens, buf);
    }
    RunAtEnd(buf, isWord);
    assert buf + text[|text|..] == buf;
    assert Flush(tokens, buf) == tokens + Flush([], buf);
    tokens := Flush(tokens, buf);
  }

  lemma OneRune(tokens: seq<string>, buf: string, r: char, rest: string, isWord: char -> bool,
                tokens': seq<string>, buf': string)
    requires IsRun(buf, isWord)
    requires buf' == if isWord(r) && !IsCJK(r) then buf + [r] else ""
    requires tokens' == if isWord(r) && !IsCJK(r) then tokens
                        else if IsCJK(r) then Flush(tokens, buf) + [[r]] else Flush(tokens, buf)
    ensures Outlook(tokens', buf', rest, isWord) == Outlook(tokens, buf, [r] + rest, isWord)
  {
    if isWord(r) && !IsCJK(r) {
      assert buf' + rest == buf + ([r] + rest);
    } else {
      assert buf' + rest == rest;
      RunThenRune(buf, r, rest, isWord);
      var mid := if IsCJK(r) then [[r]] else [];
      Regroup(tokens, buf, mid, Tokens(rest, isWord));
      assert Flush(tokens, buf) + mid == tokens';
    }
  }

  lemma Regroup(tokens: seq<string>, buf: string, mid: seq<string>, rest: seq<string>)
    ensures tokens + (Flush([], buf) + (mid + rest)) == (Flush(tokens, buf) + mid) + rest
  {
  }

  lemma {:induction false} RunLength(buf: string, rest: string, isWord: char -> bool)
    requires IsRun(buf, isWord)
    requires rest == "" || !isWord(rest[0]) || IsCJK(rest[0])
    ensures WordLength(buf + rest, isWord) == |buf|
  {
    if buf == "" {
      assert buf + rest == rest;
    } else {
      assert (buf + rest)[1..] == buf[1..] + rest;
      RunLength(buf[1..], rest, isWord);
    }
  }

  lemma RunAtEnd(buf: string, isWord: char -> bool)
    requires IsRun(buf, isWord)
    ensures Tokens(buf, isWord) == Flush([], buf)
  {
    RunLength(buf, "", isWord);
    assert buf + "" == buf;
    if buf != "" {
      assert buf[..|buf|] == buf && buf[|buf|..] == "";
    }
  }

  /** What a run followed by a rune that ends it contributes. */
  lemma RunThenRune(buf: string, r: char, rest: string, isWord: char -> bool)
    requires IsRun(buf, isWord) && (!isWord(r) || IsCJK(r))
    ensures Tokens(buf + ([r] + rest), isWord)
            == Flush([], buf) + ((if IsCJK(r) then [[r]] else []) + Tokens(rest, isWord))
  {
    RuneAlone(r, rest, isWord);
    if buf == "" {
      assert buf + ([r] + rest) == [r] + rest;
    } else {
      RunLength(buf, [r] + rest, isWord);
      RunAhead(buf, [r] + rest, isWord);
    }
  }

  lemma RunAhead(buf: string, rest: string, isWord: char -> bool)
    requires buf != "" && IsRun(buf, isWord) && WordLength(buf + rest, isWord) == |buf|
    ensures Tokens(buf + rest, isWord) == [buf] + Tokens(rest, isWord)
  {
    assert (buf + rest)[0] == buf[0];
    assert (buf + rest)[..|buf|] == buf && (buf + rest)[|buf|..] == rest;
  }

  lemma RuneAlone(r: char, rest: string, isWord: char -> bool)
    requires !isWord(r) || IsCJK(r)
    ensures Tokens([r] + rest, isWord) == (if IsCJK(r) then [[r]] else []) + Tokens(rest, isWord)
  {
    assert ([r] + rest)[1..] == rest && ([r] + rest)[..1] == [r];
  }

  // ----- documents and their persisted form -----------------------------------------------

  datatype Doc = Doc(id: string, content: string)

  type Tokenizer = string -> seq<string>

  function TokensOf(tok: Tokenizer, docs: map<string, string>): Tokens {
    map d | d in docs :: tok(docs[d])
  }

  function Records(tok: Tokenizer, ds: seq<Doc>): (recs: seq<Record>)
    ensures |recs| == |ds|
  {
    seq(|ds|, i requires 0 <= i < |ds| => Record(ds[i].id, tok(ds[i].content)))
  }

  function DocsOf(docs: map<string, string>, ds: seq<Doc>): map<string, string> {
    if ds == [] then docs else DocsOf(docs, ds[..|ds| - 1])[ds[|ds| - 1].id := ds[|ds| - 1].content]
  }

  lemma {:induction false} LoadedTokens(tok: Tokenizer, ds: seq<Doc>)
    ensures Loaded(Records(tok, ds)) == TokensOf(tok, DocsOf(map[], ds))
  {
    if ds != [] {
      var n := |ds| - 1;
      LoadedTokens(tok, ds[..n]);
      assert Records(tok, ds)[..n] == Records(tok, ds[..n]);
    }
  }

  class SearchIndex {
    var index: Index
    var docs: map<string, string>
    const tok: Tokenizer

    /** The index counts exactly the tokens of the documents as they are now. */
    ghost predicate Valid()
      reads this
    {
      Exact(index, TokensOf(tok, docs))
    }

    constructor (tok: Tokenizer)
      ensures Valid() && docs == map[] && index == map[] && this.tok == tok
    {
      index, docs := map[], map[];
      this.tok := tok;
    }

    /** `Index`: adds or replaces a document. An exact index stays exact; what else is posted stays so. */
    method Index(docID: string, content: string)
      requires Tidy(index)
      modifies this
      ensures Tidy(index) && docs == old(docs)[docID := content]
      ensures Replaced(old(index), index, docID, OldTokens(TokensOf(tok, old(docs)), docID), tok(content))
      ensures old(Valid()) ==> Valid()
    {
      var replaced := if docID in docs then Some(tok(docs[docID])) else None;
      index := Replace(index, docID, replaced, tok(content));
      docs := docs[docID := content];
      ReplaceExactIff(old(index), index, TokensOf(tok, old(docs)), docID, tok(content));
      assert TokensOf(tok, docs) == TokensOf(tok, old(docs))[docID := tok(content)];
    }

    /** `Search`: the documents that a query token is posted for, each once, in no particular order; in an
        exact index these are the documents that now share a token with the query. */
    method Search(query: string) returns (result: seq<string>)
      requires Tidy(index)
      ensures forall i, j :: 0 <= i < j < |result| ==> result[i] != result[j]
      ensures forall d :: d in result <==> IsHit(index, tok(query), d)
      ensures Valid() ==> forall d :: d in result <==> d in docs && Shares(tok(query), tok(docs[d]))
    {
      result := SearchTokens(index, tok(query));
      if Valid() {
        forall d
          ensures d in result <==> d in docs && Shares(tok(query), tok(docs[d]))
        {
          HitsShare(index, TokensOf(tok, docs), tok(query), d);
        }
      }
    }

    /** `Load`: adds the documents of a file, without taking out what they replace. */
    method Load(c: Codec<Doc>, data: string)
      requires Tidy(index)
      modifies this
      ensures Tidy(index) && Grown(old(index), index, tok, Decoded(c, ScanLines(data)))
      ensures docs == DocsOf(old(docs), Decoded(c, ScanLines(data)))
    {
      var ds := DecodeLines(c, ScanLines(data));
      for i := 0 to |ds|
        invariant Tidy(index) && Grown(old(index), index, tok, ds[..i])
        invariant docs == DocsOf(old(docs), ds[..i])
      {
        assert ds[..i + 1] == ds[..i] + [ds[i]];
        OneMoreDoc(old(docs), ds[..i], ds[i]);
        LoadOne(ds[i], old(index), ds[..i]);
      }
      assert ds[..|ds|] == ds;
    }

    method LoadOne(d: Doc, ghost before: Index, ghost ds: seq<Doc>)
      requires Tidy(index) && Grown(before, index, tok, ds)
      modifies this
      ensures Tidy(index) && Grown(before, index, tok, ds + [d])
      ensures docs == old(docs)[d.id := d.content]
    {
      index := AddTokens(index, d.id, tok(d.content));
      GrownByOne(before, old(index), index, tok, ds, d);
      docs := docs[d.id := d.content];
    }

    /** `Persist`: one line per document, in an order the map does not determine. */
    method Persist(c: Codec<Doc>) returns (data: string, order: seq<string>)
      ensures Enumerates(order, docs)
      ensures data == Unlines(Encoded(c, InOrder(docs, order)))
    {
      order := Enumerate(docs);
      data := Unlines(Encoded(c, InOrder(docs, order)));
    }
  }

  // ----- search ---------------------------------------------------------------------------

  /** How often the query's tokens occur in a document, a repeated query token counting again. */
  function Score(ix: Index, query: seq<string>, d: string): nat {
    if query == [] then 0 else Score(ix, query[..|query| - 1], d) + Count(ix, query[|query| - 1], d)
  }

  /** Some query token is posted for the document. */
  ghost predicate IsHit(ix: Index, query: seq<string>, d: string) {
    exists t :: t in query && Count(ix, t, d) > 0
  }

  /** The scoring loops of `Search`, and the list of the documents that score, in map order. */
  method SearchTokens(ix: Index, query: seq<string>) returns (result: seq<string>)
    requires Tidy(ix)
    ensures forall i, j :: 0 <= i < j < |result| ==> result[i] != result[j]
    ensures forall d :: d in result <==> IsHit(ix, query, d)
  {
    var score: map<string, nat> := map[];
    for i := 0 to |query|
      invariant Scores(score, ix, query[..i])
    {
      assert query[..i + 1][..i] == query[..i];
      var t := query[i];
      if t in ix {
        score := AddPostings(score, ix, query[..i], t);
      }
    }
    assert query[..|query|] == query;
    result := Enumerate(score);
    forall d
      ensures d in result <==> IsHit(ix, query, d)
    {
      ScoreIsPositiveIff(ix, query, d);
    }
  }

  /** `score` lists exactly the documents that score, with their scores. */
  ghost predicate Scores(score: map<string, nat>, ix: Index, query: seq<string>) {
    forall d :: (d in score <==> Score(ix, query, d) > 0) && (d in score ==> score[d] == Score(ix, query, d))
  }

  /** The inner loop of `Search`: one token's postings, in map order. */
  method AddPostings(input: map<string, nat>, ix: Index, ghost query: seq<string>, t: string)
    returns (score: map<string, nat>)
    requires Tidy(ix) && t in ix && Scores(input, ix, query)
    ensures Scores(score, ix, query + [t])
  {
    score := input;
    var rest := ix[t].Keys;
    while rest != {}
      invariant rest <= ix[t].Keys
      invariant forall d :: d in score <==> d in input || d in ix[t].Keys - rest
      invariant forall d :: d in score ==>
                  score[d] == (if d in input then input[d] else 0) + if d in ix[t].Keys - rest then ix[t][d] else 0
      decreases rest
    {
      var d :| d in rest;
      score := score[d := (if d in score then score[d] else 0) + ix[t][d]];
      rest := rest - {d};
    }
    assert (query + [t])[..|query|] == query;
    assert forall d :: Score(ix, query + [t], d) == Score(ix, query, d) + Count(ix, t, d);
  }

  lemma {:induction false} ScoreIsPositiveIff(ix: Index, query: seq<string>, d: string)
    ensures Score(ix, query, d) > 0 <==> IsHit(ix, query, d)
  {
    if query != [] {
      var n := |query| - 1;
      assert query == query[..n] + [query[n]];
      ScoreIsPositiveIff(ix, query[..n], d);
    }
  }

  /** In an exact index the hits are the documents that share a token with the query. */
  lemma HitsShare(ix: Index, docs: Tokens, query: seq<string>, d: string)
    requires Exact(ix, docs)
    ensures IsHit(ix, query, d) <==> d in docs && Shares(query, docs[d])
  {
    forall t
      ensures Count(ix, t, d) > 0 <==> d in docs && t in docs[d] && t != ""
    {
      assert Count(ix, t, d) == Multiplicity(docs, t, d);
    }
  }

  // ----- the persisted index --------------------------------------------------------------

  /** The index has grown by the tokens of these documents. */
  ghost predicate Grown(before: Index, after: Index, tok: Tokenizer, ds: seq<Doc>) {
    forall t, d :: Count(after, t, d) == Count(before, t, d) + Total(Records(tok, ds), t, d)
  }

  lemma GrownByOne(before: Index, mid: Index, after: Index, tok: Tokenizer, ds: seq<Doc>, d: Doc)
    requires Grown(before, mid, tok, ds)
    requires forall t, e :: Count(after, t, e)
                            == Count(mid, t, e) + if e == d.id then Occurrences(tok(d.content), t) else 0
    ensures Grown(before, after, tok, ds + [d])
  {
    assert Records(tok, ds + [d])[..|ds|] == Records(tok, ds);
  }

  lemma OneMoreDoc(docs: map<string, string>, ds: seq<Doc>, d: Doc)
    ensures DocsOf(docs, ds + [d]) == DocsOf(docs, ds)[d.id := d.content]
  {
    assert (ds + [d])[..|ds|] == ds;
  }

  /** A fresh index that has loaded a file is exact for the loaded documents if and only if no line
      with tokens is superseded by a later line for the same document. */
  lemma FreshLoadExactIff(tok: Tokenizer, ds: seq<Doc>, ix: Index)
    requires Tidy(ix) && Grown(map[], ix, tok, ds)
    ensures Exact(ix, TokensOf(tok, DocsOf(map[], ds))) <==> forall d :: NothingSuperseded(Records(tok, ds), d)
  {
    LoadedTokens(tok, ds);
    LoadExactIff(ix, Records(tok, ds));
  }

  /** The documents in the order of their persisted lines. */
  function InOrder(docs: map<string, string>, order: seq<string>): (ds: seq<Doc>)
    requires forall d :: d in order ==> d in docs
    ensures |ds| == |order|
  {
    seq(|order|, i requires 0 <= i < |order| => Doc(order[i], docs[order[i]]))
  }

  lemma {:induction false} DocsInOrder(docs: map<string, string>, order: seq<string>)
    requires forall d :: d in order ==> d in docs
    ensures DocsOf(map[], InOrder(docs, order)) == map d | d in order :: docs[d]
  {
    if order != [] {
      var n := |order| - 1;
      assert order == order[..n] + [order[n]];
      DocsInOrder(docs, order[..n]);
      assert InOrder(docs, order)[..n] == InOrder(docs, order[..n]);
    }
  }

  /** What a fresh index that loads a persisted file has read. */
  function Reread(c: Codec<Doc>, docs: map<string, string>, order: seq<string>): seq<Doc>
    requires forall d :: d in order ==> d in docs
  {
    Decoded(c, ScanLines(Unlines(Encoded(c, InOrder(docs, order)))))
  }

  lemma RereadIsPrefix(c: Codec<Doc>, docs: map<string, string>, order: seq<string>) returns (n: nat)
    requires Faithful(c) && forall d :: d in order ==> d in docs
    ensures n <= |order| && Reread(c, docs, order) == InOrder(docs, order)[..n]
    ensures n == |order| <==> AllFit(Encoded(c, InOrder(docs, order)))
  {
    n := |Fitting(Encoded(c, InOrder(docs, order)))|;
    FileReadsBack(c, InOrder(docs, order));
  }

  /** The first `n` persisted documents are all of them only if `n` is their number. */
  lemma PrefixIsAllIff(docs: map<string, string>, order: seq<string>, n: nat)
    requires Enumerates(order, docs) && n <= |order|
    ensures DocsOf(map[], InOrder(docs, order)[..n]) == docs <==> n == |order|
  {
    var kept := order[..n];
    assert InOrder(docs, order)[..n] == InOrder(docs, kept);
    DocsInOrder(docs, kept);
    if n < |order| {
      assert order[n] !in kept && order[n] in docs;
    } else {
      assert kept == order;
    }
  }

  lemma ReloadedPostings(tok: Tokenizer, docs: map<string, string>, order: seq<string>, ix: Index, iy: Index)
    requires Enumerates(order, docs) && Exact(ix, TokensOf(tok, docs))
    requires Tidy(iy) && Grown(map[], iy, tok, InOrder(docs, order))
    ensures iy == ix
  {
    var ds := InOrder(docs, order);
    DocsInOrder(docs, order);
    FreshLoadExactIff(tok, ds, iy);
    forall d
      ensures NothingSuperseded(Records(tok, ds), d)
    {
    }
    ExactIsUnique(ix, iy, TokensOf(tok, docs));
  }

  /** Round trip: whatever order the documents are persisted in, a fresh index that loads the file has
      the same documents and the same postings, provided each line fits the scanner. */
  lemma PersistedIndexReloads(c: Codec<Doc>, tok: Tokenizer, docs: map<string, string>, order: seq<string>,
                              ix: Index, iy: Index)
    requires Faithful(c) && Enumerates(order, docs) && AllFit(Encoded(c, InOrder(docs, order)))
    requires Exact(ix, TokensOf(tok, docs))
    requires Tidy(iy) && Grown(map[], iy, tok, Reread(c, docs, order))
    ensures DocsOf(map[], Reread(c, docs, order)) == docs
    ensures iy == ix
  {
    var n := RereadIsPrefix(c, docs, order);
    PrefixIsAllIff(docs, order, n);
    assert InOrder(docs, order)[..n] == InOrder(docs, order);
    ReloadedPostings(tok, docs, order, ix, iy);
  }

  /** The documents survive persisting and loading if and only if every line fits the scanner. */
  lemma ReloadsIffLinesFit(c: Codec<Doc>, docs: map<string, string>, order: seq<string>)
    requires Faithful(c) && Enumerates(order, docs)
    ensures DocsOf(map[], Reread(c, docs, order)) == docs <==> AllFit(Encoded(c, InOrder(docs, order)))
  {
    var n := RereadIsPrefix(c, docs, order);
    PrefixIsAllIff(docs, order, n);
  }
}
