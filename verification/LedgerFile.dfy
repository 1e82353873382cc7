/**
 The ledger file: the framed, atomic append of viking/write.go and the readers of viking/ledger.go.
 JSON and the CRC are parameters; of JSON only what RFC 8259 gives for objects is assumed.
 */
module LedgerFile {
  import opened Common
  import opened GoStrings

  datatype Entry = Entry(operatorID: string, actionType: string, resource: string, result: string, clientIP: string,
                         timestamp: string, actionID: string, severity: string, userID: string, extra: string)

  datatype Codec = Codec(encode: Entry -> string, decode: string -> Option<Entry>, crc: string -> nat)

  /** `json.Marshal` prints an object without raw tabs and newlines, and `json.Unmarshal` reads it
      back; a CRC-32 is a 32-bit number. */
  ghost predicate Faithful(c: Codec) {
    && (forall e :: c.decode(c.encode(e)) == Some(e))
    && (forall e :: c.encode(e) != "" && c.encode(e)[0] == '{')
    && (forall e :: '\t' !in c.encode(e) && '\n' !in c.encode(e))
    && (forall s :: c.crc(s) < 0x1_0000_0000)
  }

  // ----- framing --------------------------------------------------------------------------

  /** `%08x` of a 32-bit number. */
  function HexWord(n: nat, digits: nat): (s: string)
    ensures |s| == digits
    ensures '\n' !in s && '\t' !in s
    ensures digits > 0 ==> ' ' < s[digits - 1] < '\U{7F}'
  {
    if digits == 0 then "" else HexWord(n / 16, digits - 1) + [HexDigit(n % 16)]
  }

  function Pow16(k: nat): (p: nat)
    ensures p > 0
  {
    if k == 0 then 1 else 16 * Pow16(k - 1)
  }

  /** The digits of the number, the highest first. */
  lemma {:induction false} HexWordDigits(n: nat, digits: nat, i: nat)
    requires i < digits
    ensures HexWord(n, digits)[digits - 1 - i] == "0123456789abcdef"[n / Pow16(i) % 16]
  {
    HexDigitIs(n % 16);
    if i > 0 {
      HexWordDigits(n / 16, digits - 1, i - 1);
      DivideTwice(n, 16, Pow16(i - 1));
    }
  }

  /** The text ends with a tab, the eight hexadecimal digits of the checksum, the highest first, and a newline. */
  ghost predicate Checksummed(text: string, sum: nat) {
    var n := |text|;
    && n >= 10 && text[n - 1] == '\n' && text[n - 10] == '\t'
    && forall i: nat :: i < 8 ==> text[n - 2 - i] == "0123456789abcdef"[sum / Pow16(i) % 16]
  }

  lemma AppendIsChecksummed(c: Codec, file: Option<string>, got: nat, json: string)
    ensures Checksummed(Appended(c, file, got, json), c.crc(json))
  {
    var word := HexWord(c.crc(json), 8);
    var text := Appended(c, file, got, json);
    assert text == Seen(file, got) + json + ("\t" + word + "\n");
    forall i: nat | i < 8
      ensures text[|text| - 2 - i] == "0123456789abcdef"[c.crc(json) / Pow16(i) % 16]
    {
      HexWordDigits(c.crc(json), 8, i);
      assert text[|text| - 2 - i] == word[7 - i];
    }
  }

  /** One ledger line without its newline: the JSON, a tab, the checksum. */
  function Line(c: Codec, e: Entry): string {
    c.encode(e) + ("\t" + HexWord(c.crc(c.encode(e)), 8))
  }

  /** The file that holds these entries. */
  function Frame(c: Codec, es: seq<Entry>): string {
    if es == [] then "" else Line(c, es[0]) + ("\n" + Frame(c, es[1..]))
  }

  lemma {:induction false} FrameAppend(c: Codec, es: seq<Entry>, e: Entry)
    ensures Frame(c, es + [e]) == Frame(c, es) + (Line(c, e) + "\n")
  {
    if es == [] {
      assert [] + [e] == [e] && [e][1..] == [];
    } else {
      assert (es + [e])[1..] == es[1..] + [e];
      FrameAppend(c, es[1..], e);
    }
  }

  // ----- reading lines --------------------------------------------------------------------

  /** `ledgerLineJSON`: the line up to its first tab. */
  function JsonPart(line: string): string {
    match Index(line, "\t")
    case Some(i) => line[..i]
    case None => line
  }

  /** What a line contributes: nothing when it is empty or does not parse. */
  function DecodeLine(c: Codec, line: string): seq<Entry> {
    var json := JsonPart(line);
    if json == "" then [] else match c.decode(json) case Some(e) => [e] case None => []
  }

  function DecodeLines(c: Codec, lines: seq<string>): seq<Entry> {
    if lines == [] then [] else DecodeLines(c, lines[..|lines| - 1]) + DecodeLine(c, lines[|lines| - 1])
  }

  lemma LineDecodes(c: Codec, e: Entry)
    requires Faithful(c)
    ensures DecodeLine(c, Line(c, e)) == [e]
  {
    var json, line := c.encode(e), Line(c, e);
    var n := |json|;
    assert line[n..n + 1] == "\t";
    assert OccursAt(line, "\t", n);
    forall i: nat | i < n
      ensures !OccursAt(line, "\t", i)
    {
      assert line[i..i + 1] == [json[i]] && json[i] in json;
    }
    assert JsonPart(line) == json;
  }

  /** The lines of the file that holds these entries. */
  function Lines(c: Codec, es: seq<Entry>): (ls: seq<string>)
    ensures |ls| == |es|
    ensures forall i :: 0 <= i < |es| ==> ls[i] == Line(c, es[i])
  {
    if es == [] then [] else [Line(c, es[0])] + Lines(c, es[1..])
  }

  lemma {:induction false} DecodeLinesOfEntries(c: Codec, es: seq<Entry>)
    requires Faithful(c)
    ensures DecodeLines(c, Lines(c, es)) == es
  {
    if es != [] {
      var n := |es| - 1;
      var init, last := es[..n], es[n];
      assert es == init + [last];
      DecodeLinesOfEntries(c, init);
      LineDecodes(c, last);
      assert Lines(c, es) == Lines(c, init) + [Line(c, last)];
      DecodeOneMore(c, Lines(c, init), Line(c, last));
    }
  }

  lemma DecodeOneMore(c: Codec, lines: seq<string>, line: string)
    ensures DecodeLines(c, lines + [line]) == DecodeLines(c, lines) + DecodeLine(c, line)
  {
    assert (lines + [line])[..|lines|] == lines;
  }

  lemma NoNewlineInLine(c: Codec, e: Entry)
    requires Faithful(c)
    ensures '\n' !in Line(c, e)
  {
  }

  lemma {:induction false} SplitFrame(c: Codec, es: seq<Entry>)
    requires Faithful(c)
    ensures Split(Frame(c, es), '\n') == Lines(c, es) + [""]
  {
    if es != [] {
      SplitFrame(c, es[1..]);
      NoNewlineInLine(c, es[0]);
      SplitFirst(Line(c, es[0]), '\n', Frame(c, es[1..]));
      assert Lines(c, es) == [Line(c, es[0])] + Lines(c, es[1..]);
    }
  }

  /** Trimming a ledger file takes off its last newline. */
  lemma SplitTrimmedFrame(c: Codec, es: seq<Entry>)
    requires Faithful(c) && es != []
    ensures TrimSpace(Frame(c, es)) != ""
    ensures Split(TrimSpace(Frame(c, es)), '\n') == Lines(c, es)
  {
    var data := Frame(c, es);
    FrameEnds(c, es);
    TrimLastNewline(data);
    SplitFrame(c, es);
    SplitWithoutLast(data, Lines(c, es));
  }

  lemma SplitWithoutLast(data: string, lines: seq<string>)
    requires data != "" && data[|data| - 1] == '\n' && Split(data, '\n') == lines + [""]
    ensures Split(data[..|data| - 1], '\n') == lines
  {
    var body := data[..|data| - 1];
    assert body + ['\n'] == data;
    SplitBeforeLast(body, '\n');
    assert (lines + [""])[..|lines|] == lines;
    assert (Split(body, '\n') + [""])[..|Split(body, '\n')|] == Split(body, '\n');
  }

  lemma {:induction false} FrameEnds(c: Codec, es: seq<Entry>)
    requires Faithful(c) && es != []
    ensures
      var data := Frame(c, es);
      && |data| >= 2 && data[0] == '{' && data[|data| - 1] == '\n'
      && ' ' < data[|data| - 2] < '\U{7F}'
  {
    if |es| > 1 {
      FrameEnds(c, es[1..]);
    } else {
      assert Frame(c, es[1..]) == "";
    }
  }

  lemma TrimLastNewline(data: string)
    requires |data| >= 2 && data[0] == '{' && data[|data| - 1] == '\n' && ' ' < data[|data| - 2] < '\U{7F}'
    ensures TrimSpace(data) == data[..|data| - 1]
  {
    var n := |data|;
    assert SkipSpace(data, 0) == 0;
    assert SpaceBefore(data, 0, n, 1);
    assert SkipSpaceBack(data, 0, n) == SkipSpaceBack(data, 0, n - 1) == n - 1;
  }

  lemma {:induction false} SplitBeforeLast(body: string, sep: char)
    ensures Split(body + [sep], sep) == Split(body, sep) + [""]
  {
    if body == "" {
      assert "" + [sep] == [sep] && [sep][1..] == "";
    } else {
      assert (body + [sep])[1..] == body[1..] + [sep];
      SplitBeforeLast(body[1..], sep);
    }
  }

  /** All entries that the lines of a text decode to. */
  function EntriesOf(c: Codec, data: string): seq<Entry> {
    DecodeLines(c, Split(data, '\n'))
  }

  /** Reading gives back what was appended, with and without trimming the file first. */
  lemma ReadsBack(c: Codec, es: seq<Entry>)
    requires Faithful(c)
    ensures EntriesOf(c, Frame(c, es)) == es
    ensures EntriesOf(c, TrimSpace(Frame(c, es))) == es
  {
    SplitFrame(c, es);
    DecodeLinesOfEntries(c, es);
    DecodeOneMore(c, Lines(c, es), "");
    NoJsonInNothing(c);
    if es == [] {
      assert TrimSpace("") == "";
    } else {
      SplitTrimmedFrame(c, es);
    }
  }

  lemma NoJsonInNothing(c: Codec)
    ensures DecodeLine(c, "") == []
  {
    assert Index("", "\t").None?;
  }

  /** The last `n` lines of a trimmed ledger file decode to the last `n` entries. */
  lemma LastLinesReadBack(c: Codec, es: seq<Entry>, n: nat)
    requires Faithful(c) && es != []
    ensures DecodeLines(c, LastN(Split(TrimSpace(Frame(c, es)), '\n'), n)) == LastN(es, n)
  {
    SplitTrimmedFrame(c, es);
    LastLines(c, es, n);
    DecodeLinesOfEntries(c, LastN(es, n));
  }

  lemma LastLines(c: Codec, es: seq<Entry>, n: nat)
    ensures LastN(Lines(c, es), n) == Lines(c, LastN(es, n))
  {
  }

  // ----- the readers ----------------------------------------------------------------------

  /** The outcome of `os.ReadFile`. */
  datatype Read = Data(data: string) | NotExist | Unreadable

  datatype Answer = Entries(entries: seq<Entry>) | Failure | Panic

  /** The file is read and holds exactly these entries. */
  ghost predicate Holds(c: Codec, read: Read, es: seq<Entry>) {
    read == Data(Frame(c, es)) || (read.NotExist? && es == [])
  }

  /** What `Latest` makes of a file's text. */
  function LatestEntries(c: Codec, data: string, n: nat): seq<Entry> {
    var d := TrimSpace(data);
    if d == "" then [] else DecodeLines(c, LastN(Split(d, '\n'), n))
  }

  /** `Latest(n)` on a ledger file gives the last `n` entries, or all if there are fewer. */
  lemma LatestReadsBack(c: Codec, es: seq<Entry>, n: nat)
    requires Faithful(c)
    ensures LatestEntries(c, Frame(c, es), n) == LastN(es, n)
  {
    if es == [] {
      assert TrimSpace("") == "";
    } else {
      SplitTrimmedFrame(c, es);
      LastLinesReadBack(c, es, n);
    }
  }

  /** `Latest`. Making a slice with a negative capacity panics, but only a file with text gets there. */
  method Latest(c: Codec, read: Read, n: int) returns (answer: Answer)
    ensures answer.Failure? <==> read.Unreadable?
    ensures answer.Panic? <==> n < 0 && read.Data? && TrimSpace(read.data) != ""
    ensures answer.Entries? ==> answer.entries == if n >= 0 && read.Data? then LatestEntries(c, read.data, n) else []
  {
    if read.NotExist? {
      return Entries([]);
    }
    if read.Unreadable? {
      return Failure;
    }
    var data := TrimSpace(read.data);
    if |data| == 0 {
      return Entries([]);
    }
    var lines := Split(data, '\n');
    var start := 0;
    if |lines| > n {
      start := |lines| - n;
    }
    if n < 0 {
      return Panic;
    }
    var entries := DecodeAll(c, lines[start..]);
    return Entries(entries);
  }

  method DecodeAll(c: Codec, lines: seq<string>) returns (entries: seq<Entry>)
    ensures entries == DecodeLines(c, lines)
  {
    entries := [];
    for i := 0 to |lines|
      invariant entries == DecodeLines(c, lines[..i])
    {
      assert lines[..i + 1] == lines[..i] + [lines[i]];
      DecodeOneMore(c, lines[..i], lines[i]);
      var json := JsonPart(lines[i]);
      if |json| == 0 {
        continue;
      }
      var e := c.decode(json);
      if e.None? {
        continue;
      }
      entries := entries + [e.value];
    }
    assert lines[..|lines|] == lines;
  }

  datatype Filter =
    | ByActionID(actionID: string)
    | ByQuery(timeFrom: string, timeTo: string, operatorID: string, actionType: string, resource: string)

  /** `e` matches; an empty query field does not restrict. */
  predicate Matches(f: Filter, e: Entry) {
    match f
    case ByActionID(id) => e.actionID == id
    case ByQuery(from, to, operator, action, resource) =>
      && (operator == "" || e.operatorID == operator)
      && (action == "" || e.actionType == action)
      && (resource == "" || e.resource == resource)
      && (from == "" || !StringLess(e.timestamp, from))
      && (to == "" || !StringLess(to, e.timestamp))
  }

  /** Within the time range, by the byte-wise order. */
  ghost predicate InRange(timestamp: string, from: string, to: string) {
    && (from == "" || timestamp == from || BytewiseLess(from, timestamp))
    && (to == "" || timestamp == to || BytewiseLess(timestamp, to))
  }

  /** What is asked for. */
  ghost predicate Wanted(f: Filter, e: Entry) {
    match f
    case ByActionID(id) => e.actionID == id
    case ByQuery(from, to, operator, action, resource) =>
      && operator in {"", e.operatorID} && action in {"", e.actionType} && resource in {"", e.resource}
      && InRange(e.timestamp, from, to)
  }

  lemma MatchesIff(f: Filter, e: Entry)
    ensures Matches(f, e) <==> Wanted(f, e)
  {
    if f.ByQuery? {
      NotLessIff(e.timestamp, f.timeFrom);
      NotLessIff(f.timeTo, e.timestamp);
    }
  }

  lemma NotLessIff(a: string, b: string)
    ensures !StringLess(a, b) <==> a == b || BytewiseLess(b, a)
  {
    StringLessTrichotomy(a, b);
    StringLessIff(b, a);
  }

  /** Of two entries the earlier one does not have the later time. */
  ghost predicate InTimeOrder(es: seq<Entry>) {
    forall i, j :: 0 <= i < j < |es| ==>
      es[i].timestamp == es[j].timestamp || BytewiseLess(es[i].timestamp, es[j].timestamp)
  }

  lemma InTimeOrderIff(es: seq<Entry>)
    ensures InTimeOrder(es) <==> SortedBy(Earlier, es)
  {
    forall i, j | 0 <= i < j < |es|
      ensures !Earlier(es[j], es[i])
              <==> es[i].timestamp == es[j].timestamp || BytewiseLess(es[i].timestamp, es[j].timestamp)
    {
      NotLessIff(es[j].timestamp, es[i].timestamp);
    }
  }

  /** What is kept of the entries: exactly those that are wanted, each as often as it is there. */
  ghost predicate KeepsWanted(f: Filter, es: seq<Entry>, found: seq<Entry>) {
    forall e :: multiset(found)[e] == if Wanted(f, e) then multiset(es)[e] else 0
  }

  lemma {:induction false} MatchingKeepsWanted(f: Filter, es: seq<Entry>)
    ensures KeepsWanted(f, es, Matching(f, es))
  {
    if es != [] {
      var n := |es| - 1;
      assert es == es[..n] + [es[n]];
      MatchingKeepsWanted(f, es[..n]);
      MatchesIff(f, es[n]);
    }
  }

  function Matching(f: Filter, es: seq<Entry>): seq<Entry> {
    if es == [] then []
    else Matching(f, es[..|es| - 1]) + if Matches(f, es[|es| - 1]) then [es[|es| - 1]] else []
  }

  predicate Earlier(a: Entry, b: Entry) {
    StringLess(a.timestamp, b.timestamp)
  }

  lemma EarlierIsOrder()
    ensures StrictWeakOrder(Earlier)
  {
    StringLessIsTotalOrder();
  }

  /** `TraceByActionID` and `Query`: the matching entries, each as often as it is in the file, sorted
      by timestamp. `TraceByActionID` does not trim the file first. */
  method Find(c: Codec, read: Read, f: Filter) returns (answer: Answer)
    ensures answer.Failure? <==> read.Unreadable?
    ensures answer.Entries? <==> !read.Unreadable?
    ensures answer.Entries? ==> InTimeOrder(answer.entries)
    ensures Faithful(c) ==> forall es :: Holds(c, read, es) ==> KeepsWanted(f, es, answer.entries)
  {
    if read.NotExist? {
      return Entries([]);
    }
    if read.Unreadable? {
      return Failure;
    }
    var data := if f.ByQuery? then TrimSpace(read.data) else read.data;
    var all := DecodeAll(c, Split(data, '\n'));
    forall es | Faithful(c) && Holds(c, read, es)
      ensures all == es
    {
      ReadsBack(c, es);
    }
    var found := Select(f, all);
    EarlierIsOrder();
    found := SortSlice(found, Earlier);
    InTimeOrderIff(found);
    return Entries(found);
  }

  method Select(f: Filter, es: seq<Entry>) returns (found: seq<Entry>)
    ensures found == Matching(f, es) && KeepsWanted(f, es, found)
  {
    MatchingKeepsWanted(f, es);
    found := [];
    for i := 0 to |es|
      invariant found == Matching(f, es[..i])
    {
      assert es[..i + 1][..i] == es[..i];
      if Matches(f, es[i]) {
        found := found + [es[i]];
      }
    }
    assert es[..|es|] == es;
  }

  // ----- counting lines -------------------------------------------------------------------

  function Newlines(s: string): nat {
    multiset(s)['\n']
  }

  lemma {:induction false} SplitCounts(s: string)
    ensures |Split(s, '\n')| == Newlines(s) + 1
  {
    if s != "" {
      TakeFirst(s, '\n');
      SplitCounts(s[1..]);
    }
  }

  lemma PartHasNoMore(s: string, lo: nat, hi: nat)
    requires lo <= hi <= |s|
    ensures Newlines(s[lo..hi]) <= Newlines(s)
    ensures hi < |s| && s[|s| - 1] == '\n' ==> Newlines(s[lo..hi]) < Newlines(s)
  {
    assert s == s[..lo] + s[lo..hi] + s[hi..];
    if hi < |s| {
      assert s[hi..][|s| - hi - 1] == s[|s| - 1];
      assert s[|s| - 1] in s[hi..];
    }
  }

  lemma {:induction false} DecodedAtMost(c: Codec, lines: seq<string>)
    ensures |DecodeLines(c, lines)| <= |lines|
  {
    if lines != [] {
      DecodedAtMost(c, lines[..|lines| - 1]);
    }
  }

  /** A file of complete lines has no more entries than lines. */
  lemma LatestAtMost(c: Codec, data: string, n: nat)
    requires data == "" || data[|data| - 1] == '\n'
    ensures |LatestEntries(c, data, n)| <= Newlines(data)
  {
    var d := TrimSpace(data);
    if d != "" {
      TrimmedHasLess(data);
      SplitCounts(d);
      DecodedAtMost(c, LastN(Split(d, '\n'), n));
    }
  }

  lemma TrimmedHasLess(data: string)
    requires TrimSpace(data) != "" && data != "" && data[|data| - 1] == '\n'
    ensures Newlines(TrimSpace(data)) < Newlines(data)
  {
    var d := TrimSpace(data);
    var lo := TrimSpacePart(data);
    TrimSpaceTrims(data);
    assert !SpaceBefore(d, 0, |d|, 1);
    assert data[lo + |d| - 1] == d[|d| - 1];
    PartHasNoMore(data, lo, lo + |d|);
  }

  lemma {:induction false} FrameCounts(c: Codec, es: seq<Entry>)
    requires Faithful(c)
    ensures Newlines(Frame(c, es)) == |es|
  {
    if es != [] {
      FrameCounts(c, es[1..]);
      NoNewlineInLine(c, es[0]);
    }
  }

  // ----- the append -----------------------------------------------------------------------

  /** What `os.ReadFile` delivers: the first `got` bytes, all if there are no more. A failed read delivers
      some part of the file, and its error is dropped; a file that cannot be opened gives nothing. */
  function Seen(file: Option<string>, got: nat): string {
    if file.None? then "" else if got < |file.value| then file.value[..got] else file.value
  }

  /** The new file text: what was read, then the framed line. */
  function Appended(c: Codec, file: Option<string>, got: nat, json: string): string {
    Seen(file, got) + (json + ("\t" + HexWord(c.crc(json), 8)) + "\n")
  }

  /** An append extends the ledger by its entry exactly when the read delivered the whole file. */
  lemma AppendExtendsIff(c: Codec, es: seq<Entry>, e: Entry, got: nat)
    ensures Appended(c, Some(Frame(c, es)), got, c.encode(e)) == Frame(c, es + [e]) <==> got >= |Frame(c, es)|
  {
    FrameAppend(c, es, e);
    var framed := Line(c, e) + "\n";
    if got < |Frame(c, es)| {
      assert |Seen(Some(Frame(c, es)), got) + framed| < |Frame(c, es) + framed|;
    }
  }

  /** The first append makes a file that holds its entry. */
  lemma FirstAppend(c: Codec, e: Entry, got: nat)
    ensures Appended(c, None, got, c.encode(e)) == Frame(c, [e])
  {
    assert [e][1..] == [];
    assert "" + (Line(c, e) + "\n") == Line(c, e) + ("\n" + "");
  }

  /** What the disk holds under the ledger's name and under the temporary name, whether the bytes of
      each have been synced, and what earlier renames replaced that may not have reached the disk. */
  datatype DiskState = DiskState(file: Option<string>, fileSynced: bool, tmp: Option<string>, tmpSynced: bool,
                                 undone: seq<Option<string>>)

  /** Whether a crash in this state may leave `content` under the ledger's name: bytes that were not
      synced may be anything, and renames may be undone. */
  ghost predicate MayRecover(d: DiskState, content: Option<string>) {
    || content == d.file
    || (d.file.Some? && !d.fileSynced)
    || content in d.undone
  }

  /** Every content that a crash may leave was possible before, or is the complete new one. */
  ghost predicate CrashSafe(d: DiskState, before: DiskState, full: string) {
    forall content :: MayRecover(d, content) ==> MayRecover(before, content) || content == Some(full)
  }

  class Disk {
    var state: DiskState
    ghost var trail: seq<DiskState>  // the states between system calls

    /** The outcome of a system call is not determined by the program. */
    method Attempt() returns (ok: bool) {
      ok := *;
    }

    /** `os.Create` of the temporary file. */
    method Create() returns (ok: bool)
      modifies this
      ensures trail == old(trail) + [state]
      ensures state == if ok then old(state).(tmp := Some(""), tmpSynced := false) else old(state)
    {
      ok := Attempt();
      if ok {
        state := state.(tmp := Some(""), tmpSynced := false);
      }
      trail := trail + [state];
    }

    /** `f.Write`: on failure some part of the text may have been written. */
    method Write(text: string) returns (ok: bool)
      requires state.tmp == Some("") && !state.tmpSynced
      modifies this
      ensures trail == old(trail) + [state]
      ensures exists part :: part <= text && state == old(state).(tmp := Some(part)) && (ok ==> part == text)
    {
      ok := Attempt();
      var part := text;
      if !ok {
        var n :| 0 <= n <= |text|;
        part := text[..n];
      }
      state := state.(tmp := Some(part));
      trail := trail + [state];
    }

    /** `f.Sync`. */
    method Sync() returns (ok: bool)
      modifies this
      ensures trail == old(trail) + [state]
      ensures state == if ok then old(state).(tmpSynced := true) else old(state)
    {
      ok := Attempt();
      if ok {
        state := state.(tmpSynced := true);
      }
      trail := trail + [state];
    }

    /** `os.Rename` of the temporary file over the ledger. */
    method Rename() returns (ok: bool)
      modifies this
      ensures trail == old(trail) + [state]
      ensures state == if ok then DiskState(old(state).tmp, old(state).tmpSynced, None, false,
                                            old(state).undone + [old(state).file])
                       else old(state)
    {
      ok := Attempt();
      if ok {
        state := DiskState(state.tmp, state.tmpSynced, None, false, state.undone + [state.file]);
      }
      trail := trail + [state];
    }

    /** `os.Remove` of the temporary file, whose own failure is ignored. */
    method Remove()
      modifies this
      ensures trail == old(trail) + [state]
      ensures state == old(state) || state == old(state).(tmp := None)
    {
      var ok := Attempt();
      if ok {
        state := state.(tmp := None);
      }
      trail := trail + [state];
    }

    /** `LedgerSafeAppend`: the file becomes the whole new text or stays as it was, and a crash at any
        point in between leaves nothing else. `got` tells how much of the old file the read delivers. */
    method LedgerSafeAppend(c: Codec, json: string, got: nat) returns (ok: bool)
      requires state.fileSynced
      modifies this
      ensures state.fileSynced
      ensures state.file == if ok then Some(Appended(c, old(state).file, got, json)) else old(state).file
      ensures ok ==> Checksummed(state.file.value, c.crc(json))
      ensures old(trail) <= trail
      ensures forall i :: |old(trail)| <= i < |trail| ==>
                CrashSafe(trail[i], old(state), Appended(c, old(state).file, got, json))
    {
      var existing := Seen(state.file, got);
      var appendLine := json + ("\t" + HexWord(c.crc(json), 8)) + "\n";
      var full := existing + appendLine;
      AppendIsChecksummed(c, state.file, got, json);
      ok := Attempt();
      if !ok {
        return;
      }
      ok := Create();
      if !ok {
        return;
      }
      ok := Write(full);
      if !ok {
        Remove();
        return;
      }
      ok := Sync();
      if !ok {
        Remove();
        return;
      }
      ok := Attempt();
      if !ok {
        Remove();
        return;
      }
      ok := Rename();
      if !ok {
        Remove();
        return;
      }
    }
  }
}
