/**
 The engram text format of viking/engram.go: printing, parsing, and exactly when parsing undoes
 printing. Instants are nanoseconds; RFC 3339 formatting and parsing are parameters of which only
 the round trip to whole seconds (section 5.6 of RFC 3339) is assumed, for instants it can express.
 */
module Engram {
  import opened Common
  import opened GoStrings
  import opened Fields
  import opened Numbers

  datatype Engram = Engram(id: string, sessionID: string, timestamp: int, content: string, summary: string,
                           keywords: seq<string>, entities: seq<string>, importance: Int64,
                           classification: string, actionID: string, lastAccessed: int, accessCount: Int64,
                           metadata: map<string, string>)

  // ----- times ----------------------------------------------------------------------------

  datatype Times = Times(format: int -> string, parse: string -> int, expressible: int -> bool)

  function WholeSeconds(t: int): int {
    t - t % 1_000_000_000
  }

  ghost predicate Faithful(tm: Times) {
    forall t :: tm.expressible(t) ==>
      tm.parse(tm.format(t)) == WholeSeconds(t) && Plain(tm.format(t)) && |tm.format(t)| <= 64
  }

  // ----- printing -------------------------------------------------------------------------

  function FixedFields(tm: Times, e: Engram): seq<Field> {
    [Field("ID", e.id), Field("SessionID", e.sessionID), Field("Timestamp", tm.format(e.timestamp)),
     Field("Content", e.content), Field("Summary", e.summary), Field("Keywords", Join(e.keywords, ',')),
     Field("Entities", Join(e.entities, ',')), Field("Importance", FormatInt(e.importance)),
     Field("Classification", e.classification), Field("ActionID", e.actionID),
     Field("LastAccessed", tm.format(e.lastAccessed)), Field("AccessCount", FormatInt(e.accessCount))]
  }

  function MetaFields(m: map<string, string>, order: seq<string>): (fs: seq<Field>)
    requires forall k :: k in order ==> k in m
    ensures |fs| == |order|
    ensures forall i :: 0 <= i < |order| ==> fs[i] == Field("meta:" + order[i], m[order[i]])
  {
    seq(|order|, i requires 0 <= i < |order| => Field("meta:" + order[i], m[order[i]]))
  }

  function AllFields(tm: Times, e: Engram, order: seq<string>): seq<Field>
    requires forall k :: k in order ==> k in e.metadata
  {
    FixedFields(tm, e) + MetaFields(e.metadata, order)
  }

  /** The text of an engram. */
  function Serialized(tm: Times, e: Engram, order: seq<string>): string
    requires forall k :: k in order ==> k in e.metadata
  {
    Unlines(FieldLines(AllFields(tm, e, order)) + ["---"])
  }

  /** `serializeEngram`. */
  method SerializeEngram(tm: Times, e: Engram, order: seq<string>) returns (text: string)
    requires forall k :: k in order ==> k in e.metadata
    ensures text == Serialized(tm, e, order)
  {
    text := "";
    var fixed := FixedFields(tm, e);
    ghost var lines: seq<string> := [];
    for i := 0 to |fixed|
      invariant lines == FieldLines(fixed[..i]) && text == Unlines(lines)
    {
      text := WriteField(text, fixed[i], lines);
      lines := lines + [Line(fixed[i])];
    }
    assert fixed[..|fixed|] == fixed;
    for i := 0 to |order|
      invariant lines == FieldLines(fixed + MetaFields(e.metadata, order)[..i]) && text == Unlines(lines)
    {
      var f := Field("meta:" + order[i], e.metadata[order[i]]);
      text := WriteField(text, f, lines);
      lines := lines + [Line(f)];
    }
    UnlinesOneMore(lines, "---");
    text := text + ("---" + "\n");
    assert fixed + MetaFields(e.metadata, order)[..|order|] == AllFields(tm, e, order);
  }

  /** `writeField`. */
  method WriteField(b: string, f: Field, ghost lines: seq<string>) returns (text: string)
    requires b == Unlines(lines)
    ensures text == Unlines(lines + [Line(f)])
  {
    UnlinesOneMore(lines, Line(f));
    text := b + (f.key + (": " + f.val) + "\n");
  }

  // ----- parsing --------------------------------------------------------------------------

  /** The switch on the key. */
  function Assign(tm: Times, e: Engram, f: Field): Engram {
    var Field(key, val) := f;
    if key == "ID" then e.(id := val)
    else if key == "SessionID" then e.(sessionID := val)
    else if key == "Timestamp" then e.(timestamp := tm.parse(val))
    else if key == "Content" then e.(content := val)
    else if key == "Summary" then e.(summary := val)
    else if key == "Keywords" then e.(keywords := SplitList(val, e.keywords))
    else if key == "Entities" then e.(entities := SplitList(val, e.entities))
    else if key == "Importance" then e.(importance := ScanInt(val, e.importance))
    else if key == "Classification" then e.(classification := val)
    else if key == "ActionID" then e.(actionID := val)
    else if key == "LastAccessed" then e.(lastAccessed := tm.parse(val))
    else if key == "AccessCount" then e.(accessCount := ScanInt(val, e.accessCount))
    else if |key| >= 5 && key[..5] == "meta:" then e.(metadata := e.metadata[key[5..] := val])
    else e
  }

  function ParseLines(tm: Times, e: Engram, lines: seq<string>): Engram
    decreases |lines|
  {
    if lines == [] || lines[0] == "---" then e
    else
      var f := FieldOf(lines[0]);
      ParseLines(tm, if f.Some? then Assign(tm, e, f.value) else e, lines[1..])
  }

  /** Go's zero engram; its times are the instant `zero`. */
  function Empty(zero: int): Engram {
    Engram("", "", zero, "", "", [], [], 0, "", "", zero, 0, map[])
  }

  function Parsed(tm: Times, zero: int, data: string): Engram {
    ParseLines(tm, Empty(zero), ScanLines(data))
  }

  /** `parseEngram`. */
  method ParseEngram(tm: Times, zero: int, data: string) returns (e: Engram)
    ensures e == Parsed(tm, zero, data)
  {
    e := Empty(zero);
    var lines := ScanLines(data);
    var i := 0;
    while i < |lines|
      invariant 0 <= i <= |lines|
      invariant ParseLines(tm, e, lines[i..]) == Parsed(tm, zero, data)
    {
      var line := lines[i];
      assert lines[i..][0] == line && lines[i..][1..] == lines[i + 1..];
      if line == "---" {
        return;
      }
      var f := FieldOf(line);
      if f.Some? {
        e := Assign(tm, e, f.value);
      }
      i := i + 1;
    }
  }

  // ----- what the format can carry --------------------------------------------------------

  ghost predicate CarriesMeta(k: string, v: string) {
    '\n' !in k && !Contains("meta:" + k, ": ") && Carries("meta:" + k, v)
  }

  predicate IsTextKey(key: string) {
    key == "ID" || key == "SessionID" || key == "Content" || key == "Summary" || key == "Classification"
    || key == "ActionID"
  }

  function TextOf(e: Engram, key: string): string {
    if key == "ID" then e.id
    else if key == "SessionID" then e.sessionID
    else if key == "Content" then e.content
    else if key == "Summary" then e.summary
    else if key == "Classification" then e.classification
    else e.actionID
  }

  ghost predicate TextsCarried(e: Engram) {
    forall key :: IsTextKey(key) ==> Carries(key, TextOf(e, key))
  }

  ghost predicate ListsCarried(e: Engram) {
    CarriesList("Keywords", e.keywords) && CarriesList("Entities", e.entities)
  }

  ghost predicate MetaCarried(m: map<string, string>) {
    forall k :: k in m ==> CarriesMeta(k, m[k])
  }

  /** The engrams that the format can carry. */
  ghost predicate WellFormed(e: Engram) {
    TextsCarried(e) && ListsCarried(e) && MetaCarried(e.metadata)
  }

  function InWholeSeconds(e: Engram): Engram {
    e.(timestamp := WholeSeconds(e.timestamp), lastAccessed := WholeSeconds(e.lastAccessed))
  }

  // ----- well-formed engrams survive ------------------------------------------------------

  function AssignAll(tm: Times, e: Engram, fs: seq<Field>): Engram
    decreases |fs|
  {
    if fs == [] then e else AssignAll(tm, Assign(tm, e, fs[0]), fs[1..])
  }

  lemma ParseOne(tm: Times, e: Engram, f: Field, rest: seq<string>)
    requires Good(f)
    ensures ParseLines(tm, e, [Line(f)] + rest) == ParseLines(tm, Assign(tm, e, f), rest)
  {
    GoodLine(f);
    assert ([Line(f)] + rest)[1..] == rest;
  }

  lemma {:induction false} ParseGoodFields(tm: Times, e: Engram, fs: seq<Field>)
    requires forall i :: 0 <= i < |fs| ==> Good(fs[i])
    ensures ParseLines(tm, e, FieldLines(fs) + ["---"]) == AssignAll(tm, e, fs)
    decreases |fs|
  {
    if fs != [] {
      var rest := FieldLines(fs[1..]) + ["---"];
      assert FieldLines(fs) + ["---"] == [Line(fs[0])] + rest;
      ParseOne(tm, e, fs[0], rest);
      ParseGoodFields(tm, Assign(tm, e, fs[0]), fs[1..]);
    }
  }

  lemma {:induction false} AssignAllConcat(tm: Times, e: Engram, fs: seq<Field>, gs: seq<Field>)
    ensures AssignAll(tm, e, fs + gs) == AssignAll(tm, AssignAll(tm, e, fs), gs)
    decreases |fs|
  {
    if fs == [] {
      assert fs + gs == gs;
    } else {
      assert (fs + gs)[1..] == fs[1..] + gs;
      AssignAllConcat(tm, Assign(tm, e, fs[0]), fs[1..], gs);
    }
  }

  /** The part of a map on the listed keys. */
  function On(m: map<string, string>, order: seq<string>): map<string, string>
    requires forall k :: k in order ==> k in m
  {
    map k | k in order :: m[k]
  }

  lemma {:induction false} AssignMeta(tm: Times, e: Engram, m: map<string, string>, order: seq<string>)
    requires forall k :: k in order ==> k in m
    ensures AssignAll(tm, e, MetaFields(m, order)) == e.(metadata := e.metadata + On(m, order))
    decreases |order|
  {
    if order == [] {
      assert e.metadata + On(m, order) == e.metadata;
    } else {
      var k, rest := order[0], order[1..];
      var fs := MetaFields(m, order);
      assert fs[0] == Field("meta:" + k, m[k]) && fs[1..] == MetaFields(m, rest);
      AssignOneMeta(tm, e, k, m[k]);
      var x := e.(metadata := e.metadata[k := m[k]]);
      AssignMeta(tm, x, m, rest);
      OnOneMore(e.metadata, m, order);
    }
  }

  lemma OnOneMore(base: map<string, string>, m: map<string, string>, order: seq<string>)
    requires order != [] && forall k :: k in order ==> k in m
    ensures base[order[0] := m[order[0]]] + On(m, order[1..]) == base + On(m, order)
  {
    assert forall k :: k in order <==> k == order[0] || k in order[1..];
  }

  lemma AssignOneMeta(tm: Times, e: Engram, k: string, v: string)
    ensures Assign(tm, e, Field("meta:" + k, v)) == e.(metadata := e.metadata[k := v])
  {
    var key := "meta:" + k;
    assert key[0] == 'm' && key[..5] == "meta:" && key[5..] == k;
  }

  lemma AssignTexts(tm: Times, e: Engram, v: string)
    ensures Assign(tm, e, Field("ID", v)) == e.(id := v)
    ensures Assign(tm, e, Field("SessionID", v)) == e.(sessionID := v)
    ensures Assign(tm, e, Field("Content", v)) == e.(content := v)
    ensures Assign(tm, e, Field("Summary", v)) == e.(summary := v)
    ensures Assign(tm, e, Field("Classification", v)) == e.(classification := v)
    ensures Assign(tm, e, Field("ActionID", v)) == e.(actionID := v)
  {
  }

  lemma AssignTimes(tm: Times, e: Engram, t: int)
    requires Faithful(tm) && tm.expressible(t)
    ensures Assign(tm, e, Field("Timestamp", tm.format(t))) == e.(timestamp := WholeSeconds(t))
    ensures Assign(tm, e, Field("LastAccessed", tm.format(t))) == e.(lastAccessed := WholeSeconds(t))
  {
  }

  lemma AssignInts(tm: Times, e: Engram, n: Int64)
    ensures Assign(tm, e, Field("Importance", FormatInt(n))) == e.(importance := n)
    ensures Assign(tm, e, Field("AccessCount", FormatInt(n))) == e.(accessCount := n)
  {
    ScanFormatted(n, e.importance);
    ScanFormatted(n, e.accessCount);
  }

  lemma AssignLists(tm: Times, e: Engram, list: seq<string>)
    requires list == [] || (Join(list, ',') != "" && CommaFree(list))
    ensures e.keywords == [] ==> Assign(tm, e, Field("Keywords", Join(list, ','))) == e.(keywords := list)
    ensures e.entities == [] ==> Assign(tm, e, Field("Entities", Join(list, ','))) == e.(entities := list)
  {
    SplitListJoin(list);
  }

  lemma AssignFour(tm: Times, e: Engram, a: Field, b: Field, c: Field, d: Field, rest: seq<Field>)
    ensures AssignAll(tm, e, [a, b, c, d] + rest)
            == AssignAll(tm, Assign(tm, Assign(tm, Assign(tm, Assign(tm, e, a), b), c), d), rest)
  {
    var e1 := Assign(tm, e, a);
    var e2 := Assign(tm, e1, b);
    var e3 := Assign(tm, e2, c);
    AssignOne(tm, e, a, [b, c, d] + rest);
    AssignOne(tm, e1, b, [c, d] + rest);
    AssignOne(tm, e2, c, [d] + rest);
    AssignOne(tm, e3, d, rest);
    assert [a, b, c, d] + rest == [a] + ([b, c, d] + rest);
    assert [b, c, d] + rest == [b] + ([c, d] + rest);
    assert [c, d] + rest == [c] + ([d] + rest);
  }

  lemma AssignOne(tm: Times, e: Engram, a: Field, rest: seq<Field>)
    ensures AssignAll(tm, e, [a] + rest) == AssignAll(tm, Assign(tm, e, a), rest)
  {
    assert ([a] + rest)[1..] == rest;
  }

  lemma AssignFixed(tm: Times, e: Engram, zero: int)
    requires Faithful(tm) && tm.expressible(e.timestamp) && tm.expressible(e.lastAccessed)
    requires e.keywords == [] || (Join(e.keywords, ',') != "" && CommaFree(e.keywords))
    requires e.entities == [] || (Join(e.entities, ',') != "" && CommaFree(e.entities))
    ensures AssignAll(tm, Empty(zero), FixedFields(tm, e)) == InWholeSeconds(e).(metadata := map[])
  {
    var fs := FixedFields(tm, e);
    var e0 := Empty(zero);
    var e4 := e0.(id := e.id, sessionID := e.sessionID, timestamp := WholeSeconds(e.timestamp), content := e.content);
    var e8 := e4.(summary := e.summary, keywords := e.keywords, entities := e.entities, importance := e.importance);
    assert fs == [fs[0], fs[1], fs[2], fs[3]] + fs[4..];
    assert fs[4..] == [fs[4], fs[5], fs[6], fs[7]] + fs[8..];
    assert fs[8..] == [fs[8], fs[9], fs[10], fs[11]] + [];
    AssignFour(tm, e0, fs[0], fs[1], fs[2], fs[3], fs[4..]);
    AssignFour(tm, e4, fs[4], fs[5], fs[6], fs[7], fs[8..]);
    AssignFour(tm, e8, fs[8], fs[9], fs[10], fs[11], []);
    FirstFour(tm, e0, e);
    MiddleFour(tm, e4, e);
    LastFour(tm, e8, e);
  }

  lemma FirstFour(tm: Times, x: Engram, e: Engram)
    requires Faithful(tm) && tm.expressible(e.timestamp)
    ensures
      Assign(tm, Assign(tm, Assign(tm, Assign(tm, x, Field("ID", e.id)), Field("SessionID", e.sessionID)),
                        Field("Timestamp", tm.format(e.timestamp))), Field("Content", e.content))
      == x.(id := e.id, sessionID := e.sessionID, timestamp := WholeSeconds(e.timestamp), content := e.content)
  {
    AssignTexts(tm, x, e.id);
    var x1 := x.(id := e.id);
    AssignTexts(tm, x1, e.sessionID);
    var x2 := x1.(sessionID := e.sessionID);
    AssignTimes(tm, x2, e.timestamp);
    AssignTexts(tm, x2.(timestamp := WholeSeconds(e.timestamp)), e.content);
  }

  lemma MiddleFour(tm: Times, x: Engram, e: Engram)
    requires x.keywords == [] && x.entities == []
    requires e.keywords == [] || (Join(e.keywords, ',') != "" && CommaFree(e.keywords))
    requires e.entities == [] || (Join(e.entities, ',') != "" && CommaFree(e.entities))
    ensures
      Assign(tm, Assign(tm, Assign(tm, Assign(tm, x, Field("Summary", e.summary)),
                                   Field("Keywords", Join(e.keywords, ','))),
                        Field("Entities", Join(e.entities, ','))), Field("Importance", FormatInt(e.importance)))
      == x.(summary := e.summary, keywords := e.keywords, entities := e.entities, importance := e.importance)
  {
    AssignTexts(tm, x, e.summary);
    var x1 := x.(summary := e.summary);
    AssignLists(tm, x1, e.keywords);
    var x2 := x1.(keywords := e.keywords);
    AssignLists(tm, x2, e.entities);
    AssignInts(tm, x2.(entities := e.entities), e.importance);
  }

  lemma LastFour(tm: Times, x: Engram, e: Engram)
    requires Faithful(tm) && tm.expressible(e.lastAccessed)
    ensures
      Assign(tm, Assign(tm, Assign(tm, Assign(tm, x, Field("Classification", e.classification)),
                                   Field("ActionID", e.actionID)),
                        Field("LastAccessed", tm.format(e.lastAccessed))),
             Field("AccessCount", FormatInt(e.accessCount)))
      == x.(classification := e.classification, actionID := e.actionID, lastAccessed := WholeSeconds(e.lastAccessed),
            accessCount := e.accessCount)
  {
    AssignTexts(tm, x, e.classification);
    var x1 := x.(classification := e.classification);
    AssignTexts(tm, x1, e.actionID);
    var x2 := x1.(actionID := e.actionID);
    AssignTimes(tm, x2, e.lastAccessed);
    AssignInts(tm, x2.(lastAccessed := WholeSeconds(e.lastAccessed)), e.accessCount);
  }

  lemma GoodText(e: Engram, key: string)
    requires TextsCarried(e) && IsTextKey(key)
    ensures Good(Field(key, TextOf(e, key)))
  {
    GoodFixed(key, TextOf(e, key));
  }

  lemma GoodLists(e: Engram)
    requires ListsCarried(e)
    ensures Good(Field("Keywords", Join(e.keywords, ','))) && Good(Field("Entities", Join(e.entities, ',')))
  {
    assert Plain("");
    GoodFixed("Keywords", Join(e.keywords, ','));
    GoodFixed("Entities", Join(e.entities, ','));
  }

  lemma GoodTime(tm: Times, key: string, t: int)
    requires Faithful(tm) && tm.expressible(t)
    requires key != "" && |key| <= 16 && ' ' !in key && '\n' !in key
    ensures Good(Field(key, tm.format(t)))
  {
    GoodFixed(key, tm.format(t));
  }

  lemma FixedFieldsGood(tm: Times, e: Engram)
    requires Faithful(tm) && tm.expressible(e.timestamp) && tm.expressible(e.lastAccessed) && WellFormed(e)
    ensures forall i :: 0 <= i < 12 ==> Good(FixedFields(tm, e)[i])
  {
    GoodText(e, "ID");
    GoodText(e, "SessionID");
    GoodText(e, "Content");
    GoodText(e, "Summary");
    GoodText(e, "Classification");
    GoodText(e, "ActionID");
    GoodLists(e);
    GoodTime(tm, "Timestamp", e.timestamp);
    GoodTime(tm, "LastAccessed", e.lastAccessed);
    GoodInt("Importance", e.importance);
    GoodInt("AccessCount", e.accessCount);
  }

  lemma MetaFieldsGood(e: Engram, order: seq<string>)
    requires WellFormed(e) && Enumerates(order, e.metadata)
    ensures forall i :: 0 <= i < |order| ==> Good(MetaFields(e.metadata, order)[i])
  {
    forall i | 0 <= i < |order|
      ensures Good(MetaFields(e.metadata, order)[i])
    {
      assert CarriesMeta(order[i], e.metadata[order[i]]);
    }
  }

  /** Printing and parsing gives a well-formed engram back, with its times in whole seconds, whatever
      order its metadata is printed in. */
  lemma WellFormedSurvives(tm: Times, zero: int, e: Engram, order: seq<string>)
    requires Faithful(tm) && tm.expressible(e.timestamp) && tm.expressible(e.lastAccessed)
    requires Enumerates(order, e.metadata) && WellFormed(e)
    ensures Parsed(tm, zero, Serialized(tm, e, order)) == InWholeSeconds(e)
  {
    var fs := AllFields(tm, e, order);
    FixedFieldsGood(tm, e);
    MetaFieldsGood(e, order);
    forall i | 0 <= i < |fs|
      ensures Good(fs[i])
    {
      assert fs[i] == if i < 12 then FixedFields(tm, e)[i] else MetaFields(e.metadata, order)[i - 12];
    }
    ScanGoodFields(fs);
    ParseGoodFields(tm, Empty(zero), fs);
    AssignedBack(tm, zero, e, order);
  }

  lemma AssignedBack(tm: Times, zero: int, e: Engram, order: seq<string>)
    requires Faithful(tm) && tm.expressible(e.timestamp) && tm.expressible(e.lastAccessed)
    requires Enumerates(order, e.metadata) && WellFormed(e)
    ensures AssignAll(tm, Empty(zero), AllFields(tm, e, order)) == InWholeSeconds(e)
  {
    AssignFixed(tm, e, zero);
    AssignedMeta(tm, zero, e, order, FixedFields(tm, e));
  }

  lemma AssignedMeta(tm: Times, zero: int, e: Engram, order: seq<string>, fs: seq<Field>)
    requires Enumerates(order, e.metadata)
    requires AssignAll(tm, Empty(zero), fs) == InWholeSeconds(e).(metadata := map[])
    ensures AssignAll(tm, Empty(zero), fs + MetaFields(e.metadata, order)) == InWholeSeconds(e)
  {
    AssignAllConcat(tm, Empty(zero), fs, MetaFields(e.metadata, order));
    AssignMeta(tm, InWholeSeconds(e).(metadata := map[]), e.metadata, order);
    assert map[] + On(e.metadata, order) == e.metadata;
  }

  // ----- only well-formed engrams survive -------------------------------------------------

  lemma TextAfter(tm: Times, e: Engram, f: Field, key: string)
    requires IsTextKey(key)
    ensures TextOf(Assign(tm, e, f), key) == if f.key == key then f.val else TextOf(e, key)
  {
  }

  lemma AssignKeepsTexts(tm: Times, e: Engram, f: Field)
    requires TextsCarried(e) && Carries(f.key, f.val)
    ensures TextsCarried(Assign(tm, e, f))
  {
    var x := Assign(tm, e, f);
    forall key | IsTextKey(key)
      ensures Carries(key, TextOf(x, key))
    {
      TextAfter(tm, e, f, key);
    }
  }

  lemma AssignKeepsLists(tm: Times, e: Engram, f: Field)
    requires ListsCarried(e) && Carries(f.key, f.val)
    ensures ListsCarried(Assign(tm, e, f))
  {
    if f.key == "Keywords" {
      SplitIsCarried("Keywords", f.val, e.keywords);
    } else if f.key == "Entities" {
      SplitIsCarried("Entities", f.val, e.entities);
    }
  }

  lemma AssignKeepsMeta(tm: Times, e: Engram, f: Field)
    requires MetaCarried(e.metadata) && FromLine(f)
    ensures MetaCarried(Assign(tm, e, f).metadata)
  {
    if |f.key| >= 5 && f.key[..5] == "meta:" {
      assert "meta:" + f.key[5..] == f.key;
    }
  }

  lemma {:induction false} ParsedLinesWellFormed(tm: Times, e: Engram, lines: seq<string>)
    requires WellFormed(e) && forall i :: 0 <= i < |lines| ==> Deliverable(lines[i])
    ensures WellFormed(ParseLines(tm, e, lines))
    decreases |lines|
  {
    if lines != [] && lines[0] != "---" {
      var f := FieldOf(lines[0]);
      if f.Some? {
        FieldFromLine(lines[0]);
        AssignKeepsTexts(tm, e, f.value);
        AssignKeepsLists(tm, e, f.value);
        AssignKeepsMeta(tm, e, f.value);
        ParsedLinesWellFormed(tm, Assign(tm, e, f.value), lines[1..]);
      } else {
        ParsedLinesWellFormed(tm, e, lines[1..]);
      }
    }
  }

  /** Whatever text is parsed, the result is well formed. */
  lemma ParsedIsWellFormed(tm: Times, zero: int, data: string)
    ensures WellFormed(Parsed(tm, zero, data))
  {
    ScannedLines(data);
    assert Plain("");
    ParsedLinesWellFormed(tm, Empty(zero), ScanLines(data));
  }

  /** Parsing undoes printing, up to whole seconds and whatever the order of the metadata, exactly for
      the well-formed engrams. */
  lemma RoundTripIffWellFormed(tm: Times, zero: int, e: Engram, order: seq<string>)
    requires Faithful(tm) && tm.expressible(e.timestamp) && tm.expressible(e.lastAccessed)
    requires Enumerates(order, e.metadata)
    ensures Parsed(tm, zero, Serialized(tm, e, order)) == InWholeSeconds(e) <==> WellFormed(e)
  {
    if WellFormed(e) {
      WellFormedSurvives(tm, zero, e, order);
    }
    ParsedIsWellFormed(tm, zero, Serialized(tm, e, order));
    assert WellFormed(InWholeSeconds(e)) <==> WellFormed(e);
  }

  /** So an engram that was read from a file can be written and read again without loss. */
  lemma RereadingIsStable(tm: Times, zero: int, data: string, order: seq<string>)
    requires Faithful(tm)
    requires var e := Parsed(tm, zero, data);
             tm.expressible(e.timestamp) && tm.expressible(e.lastAccessed) && Enumerates(order, e.metadata)
    ensures
      var e := Parsed(tm, zero, data);
      Parsed(tm, zero, Serialized(tm, e, order)) == InWholeSeconds(e)
  {
    ParsedIsWellFormed(tm, zero, data);
    WellFormedSurvives(tm, zero, Parsed(tm, zero, data), order);
  }
}
