/** The string steps of the value generator: Python's `str` of an integer, the
    two-decimal fixed-point text, and `rstrip('0')`. */
module Numerals {

  predicate IsDigit(c: char) {
    '0' <= c <= '9'
  }

  predicate AllDigits(s: string) {
    forall i :: 0 <= i < |s| ==> IsDigit(s[i])
  }

  function DigitChar(d: nat): (c: char)
    requires d <= 9
    ensures IsDigit(c) && DigitValue(c) == d
  {
    (('0' as int) + d) as char
  }

  function DigitValue(c: char): nat
    requires IsDigit(c)
  {
    (c as int) - ('0' as int)
  }

  /** A canonical decimal numeral: digits only, and no leading zero unless it is "0". */
  predicate IsCanonicalNat(s: string) {
    |s| >= 1 && AllDigits(s) && (s[0] == '0' ==> |s| == 1)
  }

  /** What Python's `str` prints for an integer: a canonical numeral, with a leading
      '-' for negative values (never "-0"). */
  predicate IsNumeral(s: string) {
    if |s| > 0 && s[0] == '-' then IsCanonicalNat(s[1..]) && s[1..] != "0"
    else IsCanonicalNat(s)
  }

  /** Decimal digits of a natural number. */
  function NatToString(n: nat): (s: string)
    ensures IsCanonicalNat(s)
    ensures s == "0" <==> n == 0
    decreases n
  {
    if n < 10 then [DigitChar(n)] else NatToString(n / 10) + [DigitChar(n % 10)]
  }

  /** Python's `str(n)` for an `int`. */
  function IntToString(n: int): (s: string)
    ensures IsNumeral(s)
    ensures |s| > 0 && (s[0] == '-' <==> n < 0)
  {
    if n < 0 then "-" + NatToString(-n) else NatToString(n)
  }

  /** Reading a run of digits back as a number (Python's `int` on such text). */
  function ParseNat(s: string): nat
    requires AllDigits(s)
  {
    if s == [] then 0 else ParseNat(s[..|s| - 1]) * 10 + DigitValue(s[|s| - 1])
  }

  function ParseInt(s: string): int
    requires IsNumeral(s)
  {
    if |s| > 0 && s[0] == '-' then -(ParseNat(s[1..]) as int) else ParseNat(s)
  }

  lemma {:induction false} NatToStringRoundTrip(n: nat)
    ensures ParseNat(NatToString(n)) == n
    decreases n
  {
    if n >= 10 {
      NatToStringRoundTrip(n / 10);
      var s := NatToString(n);
      assert s[..|s| - 1] == NatToString(n / 10);
    }
  }

  lemma {:induction false} ParseNatRoundTrip(s: string)
    requires IsCanonicalNat(s)
    ensures NatToString(ParseNat(s)) == s
    decreases |s|
  {
    var init := s[..|s| - 1];
    if |s| > 1 {
      assert IsCanonicalNat(init);
      ParseNatRoundTrip(init);
      ParseNatPositive(init);
      var n := ParseNat(s);
      assert n / 10 == ParseNat(init) && n % 10 == DigitValue(s[|s| - 1]);
      assert s == init + [s[|s| - 1]];
    }
  }

  lemma {:induction false} ParseNatPositive(s: string)
    requires IsCanonicalNat(s) && s != "0"
    ensures ParseNat(s) > 0
    decreases |s|
  {
    var init := s[..|s| - 1];
    if |s| > 1 {
      assert IsCanonicalNat(init) && init != "0";
      ParseNatPositive(init);
    }
  }

  /** `str` and `int` are inverse on integers: reading the printed text gives back the value. */
  lemma IntToStringRoundTrip(n: int)
    ensures ParseInt(IntToString(n)) == n
  {
    if n < 0 {
      NatToStringRoundTrip(-n);
      assert IntToString(n)[1..] == NatToString(-n);
    } else {
      NatToStringRoundTrip(n);
    }
  }

  /** ... and on numerals: printing the value read from a numeral gives back the text. */
  lemma ParseIntRoundTrip(s: string)
    requires IsNumeral(s)
    ensures IntToString(ParseInt(s)) == s
  {
    if |s| > 0 && s[0] == '-' {
      ParseNatRoundTrip(s[1..]);
      ParseNatPositive(s[1..]);
      assert s == "-" + s[1..];
    } else {
      ParseNatRoundTrip(s);
    }
  }

  /** The text `f"{u:.2f}"` can produce for 0 <= u: at least one integer digit, a point,
      and exactly two fractional digits. */
  predicate IsFixed2(s: string) {
    |s| >= 4 && AllDigits(s[..|s| - 3]) && s[|s| - 3] == '.' &&
    IsDigit(s[|s| - 2]) && IsDigit(s[|s| - 1])
  }

  /** Python's `s.rstrip('0')`: the longest prefix of `s` after which only '0's follow,
      and which does not itself end in '0'. */
  function RStripZeros(s: string): (r: string)
    ensures |r| <= |s| && r == s[..|r|]
    ensures r == [] || r[|r| - 1] != '0'
    ensures forall i :: |r| <= i < |s| ==> s[i] == '0'
    decreases |s|
  {
    if |s| == 0 || s[|s| - 1] != '0' then s else RStripZeros(s[..|s| - 1])
  }

  /** Stripping zeros never removes the point of a two-decimal text, so the result is never
      empty; it ends in the point exactly when both decimals were zero ("42.00" becomes "42."). */
  lemma StripFixed2(s: string)
    requires IsFixed2(s)
    ensures var r := RStripZeros(s);
      |s| - 2 <= |r| && r[|s| - 3] == '.' &&
      (r[|r| - 1] == '.' <==> s[|s| - 2] == '0' && s[|s| - 1] == '0')
  {
  }

  /** The trailing-point edge case on a concrete input. */
  lemma StripKeepsTrailingPoint()
    ensures RStripZeros("42.00") == "42."
    ensures RStripZeros("42.50") == "42.5"
    ensures RStripZeros("0.00") == "0."
  {
    assert RStripZeros("42.0") == "42.";
    assert RStripZeros("0.0") == "0.";
  }
}
