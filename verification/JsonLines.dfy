/**
 Files with one JSON value per line, as viking/search.go and viking/bm25.go persist their documents:
 an encoder writes the lines, a scanner with a bounded line reads them back. Encoded lines are byte
 strings, whatever the values hold, and the scanner's limit counts their bytes.
 */
module JsonLines {
  import opened Common
  import opened GoStrings

  datatype Codec<!T> = Codec(encode: T -> string, decode: string -> Option<T>)

  /** JSON reads back what it prints, and prints no newline. */
  ghost predicate Faithful<T(!new)>(c: Codec<T>) {
    forall d :: c.decode(c.encode(d)) == Some(d) && PlainLine(c.encode(d))
  }

  function Encoded<T>(c: Codec<T>, ds: seq<T>): (lines: seq<string>)
    ensures |lines| == |ds|
    ensures forall i :: 0 <= i < |ds| ==> lines[i] == c.encode(ds[i])
  {
    seq(|ds|, i requires 0 <= i < |ds| => c.encode(ds[i]))
  }

  /** The values that the lines of a file decode to; lines that do not parse are skipped. */
  function Decoded<T>(c: Codec<T>, lines: seq<string>): seq<T> {
    if lines == [] then []
    else Decoded(c, lines[..|lines| - 1])
         + match c.decode(lines[|lines| - 1]) case Some(d) => [d] case None => []
  }

  method DecodeLines<T>(c: Codec<T>, lines: seq<string>) returns (ds: seq<T>)
    ensures ds == Decoded(c, lines)
  {
    ds := [];
    for i := 0 to |lines|
      invariant ds == Decoded(c, lines[..i])
    {
      assert lines[..i + 1][..i] == lines[..i];
      var d := c.decode(lines[i]);
      if d.Some? {
        ds := ds + [d.value];
      }
    }
    assert lines[..|lines|] == lines;
  }

  lemma {:induction false} EncodedDecodes<T(!new)>(c: Codec<T>, ds: seq<T>)
    requires Faithful(c)
    ensures Decoded(c, Encoded(c, ds)) == ds
  {
    if ds != [] {
      var n := |ds| - 1;
      EncodedDecodes(c, ds[..n]);
      assert Encoded(c, ds)[..n] == Encoded(c, ds[..n]);
    }
  }

  lemma {:induction false} FittingIsPrefix(lines: seq<string>)
    ensures |Fitting(lines)| <= |lines| && Fitting(lines) == lines[..|Fitting(lines)|]
  {
    if lines != [] {
      FittingIsPrefix(lines[1..]);
    }
  }

  /** Every line is short enough for the scanner. */
  ghost predicate AllFit(lines: seq<string>) {
    forall i :: 0 <= i < |lines| ==> |lines[i]| <= MAX_LINE
  }

  /** Reading a file back gives the values before the first whose line is too long: all of them exactly
      when every line fits. */
  lemma FileReadsBack<T(!new)>(c: Codec<T>, ds: seq<T>)
    requires Faithful(c)
    ensures
      var lines := Encoded(c, ds);
      var n := |Fitting(lines)|;
      && n <= |ds| && Decoded(c, ScanLines(Unlines(lines))) == ds[..n]
      && (n == |ds| <==> AllFit(lines))
  {
    var lines := Encoded(c, ds);
    var n := |Fitting(lines)|;
    ScanUnlines(lines);
    FittingAll(lines);
    FittingIsPrefix(lines);
    assert lines[..n] == Encoded(c, ds[..n]);
    EncodedDecodes(c, ds[..n]);
    assert n == |lines| ==> Fitting(lines) == lines;
  }
}
