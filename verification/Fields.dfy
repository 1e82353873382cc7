/**
 The lines of the engram text format of viking/engram.go: "key: value", comma-separated lists, and
 what such a line can carry.
 */
module Fields {
  import opened Common
  import opened GoStrings
  import opened Numbers

  datatype Field = Field(key: string, val: string)

  function Line(f: Field): string {
    f.key + (": " + f.val)
  }

  function FieldLines(fs: seq<Field>): (lines: seq<string>)
    ensures |lines| == |fs|
    ensures forall i :: 0 <= i < |fs| ==> lines[i] == Line(fs[i])
  {
    seq(|fs|, i requires 0 <= i < |fs| => Line(fs[i]))
  }

  function SplitList(val: string, current: seq<string>): seq<string> {
    if val == "" then current else Split(val, ',')
  }

  /** Key and value of a line, cut at its first ": "; a line that begins with it has none. */
  function FieldOf(line: string): Option<Field> {
    match Index(line, ": ")
    case Some(i) => if i > 0 then Some(Field(line[..i], TrimSpace(line[i + 2..]))) else None
    case None => None
  }

  /** A line with this key can carry the value. */
  ghost predicate Carries(key: string, val: string) {
    Plain(val) && |key| + 2 + |val| <= MAX_LINE
  }

  /** A comma-separated line can carry the list. */
  ghost predicate CarriesList(key: string, list: seq<string>) {
    list == [] || (Join(list, ',') != "" && Carries(key, Join(list, ',')) && CommaFree(list))
  }

  ghost predicate CommaFree(list: seq<string>) {
    forall i :: 0 <= i < |list| ==> ',' !in list[i]
  }

  /** A field that its line gives back. */
  ghost predicate Good(f: Field) {
    f.key != "" && '\n' !in f.key && !Contains(f.key, ": ") && Carries(f.key, f.val)
  }

  lemma GoodLine(f: Field)
    requires Good(f)
    ensures PlainLine(Line(f)) && |Line(f)| <= MAX_LINE && Line(f) != "---"
    ensures FieldOf(Line(f)) == Some(f)
  {
    var line, n := Line(f), |f.key|;
    FirstSeparator(f);
    assert line[..n] == f.key && line[n + 2..] == f.val;
    TrimSpaceTrims(f.val);
    GoodLineEnd(f);
  }

  lemma FirstSeparator(f: Field)
    requires !Contains(f.key, ": ")
    ensures Index(Line(f), ": ") == Some(|f.key|)
  {
    var line, n := Line(f), |f.key|;
    assert line[n..n + 2] == ": ";
    forall i: nat | i < n
      ensures !OccursAt(line, ": ", i)
    {
      if i + 2 <= n {
        assert line[i..i + 2] == f.key[i..i + 2];
        assert !OccursAt(f.key, ": ", i);
      } else {
        assert line[i..i + 2][1] == ':';
      }
    }
    assert OccursAt(line, ": ", n);
  }

  lemma GoodLineEnd(f: Field)
    requires Good(f)
    ensures PlainLine(Line(f)) && Line(f) != "---"
  {
    var line := Line(f);
    assert line[|f.key|] == ':';
    if f.val == "" {
      assert line[|line| - 1] == ' ';
    } else {
      assert line[|line| - 1] == f.val[|f.val| - 1];
      assert !SpaceBefore(f.val, 0, |f.val|, 1);
    }
  }

  lemma {:induction false} ScanGoodFields(fs: seq<Field>)
    requires forall i :: 0 <= i < |fs| ==> Good(fs[i])
    ensures ScanLines(Unlines(FieldLines(fs) + ["---"])) == FieldLines(fs) + ["---"]
  {
    var lines := FieldLines(fs) + ["---"];
    forall i | 0 <= i < |lines|
      ensures PlainLine(lines[i]) && |lines[i]| <= MAX_LINE
    {
      if i < |fs| {
        GoodLine(fs[i]);
      }
    }
    ScanUnlines(lines);
    FittingAll(lines);
  }

  lemma SplitListJoin(list: seq<string>)
    requires list == [] || (Join(list, ',') != "" && CommaFree(list))
    ensures SplitList(Join(list, ','), []) == list
  {
    if list != [] {
      SplitJoin(list, ',');
    }
  }

  lemma NoSpaceNoSeparator(key: string)
    requires ' ' !in key
    ensures !Contains(key, ": ")
  {
    forall i: nat
      ensures !OccursAt(key, ": ", i)
    {
      assert i + 2 <= |key| ==> key[i..i + 2][1] == key[i + 1] && key[i + 1] in key;
    }
  }

  lemma GoodFixed(key: string, val: string)
    requires key != "" && ' ' !in key && '\n' !in key && Carries(key, val)
    ensures Good(Field(key, val))
  {
    NoSpaceNoSeparator(key);
  }

  lemma GoodInt(key: string, n: Int64)
    requires key != "" && |key| <= 16 && ' ' !in key && '\n' !in key
    ensures Good(Field(key, FormatInt(n)))
  {
    FormattedIsPlain(n);
    FormattedIsShort(n);
    GoodFixed(key, FormatInt(n));
  }

  /** The lines that a scanner delivers have no newline and are not too long. */
  ghost predicate Deliverable(line: string) {
    '\n' !in line && |line| <= MAX_LINE
  }

  lemma {:induction false} ScannedLines(data: string)
    ensures forall i :: 0 <= i < |ScanLines(data)| ==> Deliverable(ScanLines(data)[i])
    decreases |data|
  {
    if data != "" && FirstNewline(data) <= MAX_LINE {
      var i := FirstNewline(data);
      NoEarlierNewline(data);
      if i < |data| {
        ScannedLines(data[i + 1..]);
      }
    }
  }

  /** A field read from a line: its value is trimmed, and its key has no separator. */
  lemma FieldFromLine(line: string)
    requires Deliverable(line) && FieldOf(line).Some?
    ensures FromLine(FieldOf(line).value)
  {
    var i := Index(line, ": ").value;
    var tail := line[i + 2..];
    var lo := TrimSpacePart(tail);
    TrimSpaceTrims(tail);
    KeyBeforeSeparator(line, i);
  }

  lemma KeyBeforeSeparator(line: string, i: nat)
    requires Index(line, ": ") == Some(i)
    ensures !Contains(line[..i], ": ")
  {
    assert line[..i] == line[0..i];
    forall j: nat
      ensures !OccursAt(line[0..i], ": ", j)
    {
      if j + 2 <= i {
        OccursInSlice(line, 0, i, ": ", j);
      }
    }
  }

  ghost predicate FromLine(f: Field) {
    Carries(f.key, f.val) && '\n' !in f.key && !Contains(f.key, ": ")
  }

  lemma SplitIsCarried(key: string, val: string, current: seq<string>)
    requires Carries(key, val) && CarriesList(key, current)
    ensures CarriesList(key, SplitList(val, current))
  {
    if val != "" {
      JoinSplit(val, ',');
    }
  }
}
