/**
 Go's `%d`: printing and scanning integers of 64 bits, and the round trip.
 */
module Numbers {
  import opened Common
  import opened GoStrings

  type Int64 = n: int | -0x8000_0000_0000_0000 <= n < 0x8000_0000_0000_0000

  /** `%d` of a natural number. */
  function Digits(n: nat): (s: string)
    ensures s != ""
  {
    if n < 10 then [('0' as int + n) as char] else Digits(n / 10) + [('0' as int + n % 10) as char]
  }

  function FormatInt(n: int): string {
    if n < 0 then "-" + Digits(-n) else Digits(n)
  }

  predicate IsDigit(c: char) {
    '0' <= c <= '9'
  }

  /** Length of the leading run of digits. */
  function DigitRun(s: string): (n: nat)
    ensures n <= |s|
  {
    if s == "" || !IsDigit(s[0]) then 0 else 1 + DigitRun(s[1..])
  }

  /** The number that a run of digits denotes. */
  function Value(s: string): nat {
    if s == "" then 0
    else
      var c := s[|s| - 1];
      10 * Value(s[..|s| - 1]) + if IsDigit(c) then c as int - '0' as int else 0
  }

  /** `Sscanf(s, "%d", &x)`: an optional sign and digits; what follows is ignored, and a number that
      does not fit 64 bits leaves `x` as it was. */
  function ScanInt(s: string, x: Int64): Int64 {
    var signed := s != "" && (s[0] == '-' || s[0] == '+');
    var rest := if signed then s[1..] else s;
    var n := DigitRun(rest);
    var magnitude: int := Value(rest[..n]);
    var v := if signed && s[0] == '-' then -magnitude else magnitude;
    if n == 0 || v < -0x8000_0000_0000_0000 || v >= 0x8000_0000_0000_0000 then x else v
  }

  lemma {:induction false} DigitsValue(n: nat)
    ensures Value(Digits(n)) == n
    ensures DigitRun(Digits(n)) == |Digits(n)|
    ensures IsDigit(Digits(n)[0]) && IsDigit(Digits(n)[|Digits(n)| - 1])
  {
    if n >= 10 {
      DigitsValue(n / 10);
      var d := ('0' as int + n % 10) as char;
      assert Digits(n)[..|Digits(n)| - 1] == Digits(n / 10);
      RunOneMore(Digits(n / 10), d);
    } else {
      assert Digits(n)[..0] == "" && Digits(n)[1..] == "";
    }
  }

  lemma {:induction false} RunOneMore(s: string, d: char)
    requires DigitRun(s) == |s| && IsDigit(d)
    ensures DigitRun(s + [d]) == |s| + 1
  {
    if s == "" {
      assert (s + [d])[1..] == "";
    } else {
      assert (s + [d])[1..] == s[1..] + [d];
      RunOneMore(s[1..], d);
    }
  }

  /** The decimal digits of the number, the highest first. */
  lemma {:induction false} DecimalDigits(n: nat, i: nat)
    requires i < |Digits(n)|
    ensures Digits(n)[|Digits(n)| - 1 - i] == "0123456789"[n / Pow10(i) % 10]
  {
    DigitIs(n % 10);
    if i > 0 {
      DecimalDigits(n / 10, i - 1);
      DivideTwice(n, 10, Pow10(i - 1));
    }
  }

  /** There is no zero before them. */
  lemma {:induction false} NoLeadingZero(n: nat)
    ensures Pow10(|Digits(n)| - 1) <= n || Digits(n) == "0"
  {
    if n >= 10 {
      NoLeadingZero(n / 10);
    }
  }

  lemma DigitIs(d: nat)
    requires d < 10
    ensures ('0' as int + d) as char == "0123456789"[d]
  {
    assert d in [0, 1, 2, 3, 4, 5, 6, 7, 8, 9];
  }

  /** A printed integer is the decimal digits of its magnitude, behind a minus if and only if it is negative. */
  lemma PrintedDigits(n: int, m: nat, i: nat)
    requires m == (if n < 0 then -n else n) && i + OneIf(n < 0) < |FormatInt(n)|
    ensures FormatInt(n)[0] == '-' <==> n < 0
    ensures FormatInt(n)[|FormatInt(n)| - 1 - i] == "0123456789"[m / Pow10(i) % 10]
    ensures Pow10(|FormatInt(n)| - OneIf(n < 0) - 1) <= m || FormatInt(n) == "0"
  {
    FirstIsDigit(m);
    DecimalDigits(m, i);
    NoLeadingZero(m);
    assert FormatInt(n)[|FormatInt(n)| - 1 - i] == Digits(m)[|Digits(m)| - 1 - i];
  }

  lemma FirstIsDigit(m: nat)
    ensures IsDigit(Digits(m)[0])
    ensures m > 0 ==> Digits(m) != "0"
  {
    DigitsValue(m);
  }

  /** A run of digits is read as the number with these decimal digits, leading zeros included. */
  lemma {:induction false} ValueDigits(s: string, i: nat)
    requires forall k :: 0 <= k < |s| ==> IsDigit(s[k])
    ensures Value(s) < Pow10(|s|)
    ensures i < |s| ==> s[|s| - 1 - i] == "0123456789"[Value(s) / Pow10(i) % 10]
  {
    if s != "" {
      var pre, d := s[..|s| - 1], s[|s| - 1] as int - '0' as int;
      ValueDigits(pre, if i > 0 then i - 1 else 0);
      assert Value(s) == 10 * Value(pre) + d && Value(s) / 10 == Value(pre) && Value(s) % 10 == d;
      DigitIs(d);
      if i > 0 {
        DivideTwice(Value(s), 10, Pow10(i - 1));
      }
    }
  }

  /** Scanning undoes printing for every 64-bit integer. */
  lemma ScanFormatted(n: Int64, x: Int64)
    ensures ScanInt(FormatInt(n), x) == n
  {
    var k: int := n;
    var m := if k < 0 then -k else k;
    DigitsValue(m);
    assert Digits(m)[..|Digits(m)|] == Digits(m);
    assert n < 0 ==> FormatInt(n)[1..] == Digits(m);
  }

  /** A printed integer is a plain value: no newline, no space at either end. */
  lemma FormattedIsPlain(n: int)
    ensures Plain(FormatInt(n))
  {
    var m: int := if n < 0 then -n else n;
    DigitsValue(m);
    DigitsNoNewline(m);
    VisibleEndsTrimmed(FormatInt(n));
    TrimSpaceTrims(FormatInt(n));
  }

  lemma {:induction false} DigitsNoNewline(n: nat)
    ensures '\n' !in Digits(n)
  {
    if n >= 10 {
      DigitsNoNewline(n / 10);
    }
  }

  lemma {:induction false} DigitsLength(n: nat, k: nat)
    requires n < Pow10(k) && k > 0
    ensures |Digits(n)| <= k
  {
    if n >= 10 {
      DigitsLength(n / 10, k - 1);
    }
  }

  function Pow10(k: nat): (p: nat)
    ensures p > 0
  {
    if k == 0 then 1 else 10 * Pow10(k - 1)
  }

  lemma FormattedIsShort(n: Int64)
    ensures |FormatInt(n)| <= 21
  {
    var k: int := n;
    assert Pow10(4) == 10_000;
    assert Pow10(8) == 100_000_000;
    assert Pow10(12) == 1_000_000_000_000;
    assert Pow10(16) == 10_000_000_000_000_000;
    assert Pow10(20) == 100_000_000_000_000_000_000;
    DigitsLength(if k < 0 then -k else k, 20);
  }
}
