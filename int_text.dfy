/**
 * Decimal text of Java ints, as produced by string concatenation
 * (Integer.toString): an optional '-' followed by digits with no leading zero.
 */
module IntText {

  predicate IsDigit(c: char) { '0' <= c <= '9' }

  predicate AllDigits(s: string) { forall i :: 0 <= i < |s| ==> IsDigit(s[i]) }

  /** A non-empty run of digits with no leading zero (a lone "0" is allowed). */
  predicate CanonicalDigits(d: string) { |d| >= 1 && AllDigits(d) && (|d| > 1 ==> d[0] != '0') }

  /** The form Integer.toString produces: canonical digits, or '-' and canonical digits other than "0". */
  predicate CanonicalInt(s: string)
  {
    CanonicalDigits(s) || (|s| >= 2 && s[0] == '-' && CanonicalDigits(s[1..]) && s[1] != '0')
  }

  function DigitChar(d: nat): (c: char)
    requires d < 10
    ensures IsDigit(c) && (c - '0') as int == d
  {
    "0123456789"[d]
  }

  /** The decimal digits of n, most significant first. */
  function NatToDecimal(n: nat): (s: string)
    ensures CanonicalDigits(s)
    ensures n > 0 ==> s[0] != '0'
    decreases n
  {
    if n < 10 then [DigitChar(n)] else NatToDecimal(n / 10) + [DigitChar(n % 10)]
  }

  /** The value a string of digits denotes; the reference reading of NatToDecimal. */
  function DecimalValue(s: string): nat
    requires AllDigits(s)
  {
    if s == [] then 0 else DecimalValue(s[..|s| - 1]) * 10 + (s[|s| - 1] - '0') as int
  }

  /** Integer.toString: a minus sign for negative values, then the digits of the magnitude. */
  function IntToString(i: int): (s: string)
    ensures |s| >= 1 && CanonicalInt(s)
    ensures i < 0 <==> s[0] == '-'
  {
    if i < 0 then
      var d := NatToDecimal(-i);
      assert ("-" + d)[1..] == d;
      "-" + d
    else NatToDecimal(i)
  }

  /** Reads back the text IntToString produces. */
  function ParseInt(s: string): int
  {
    if |s| >= 1 && s[0] == '-' && AllDigits(s[1..]) then -(DecimalValue(s[1..]) as int)
    else if AllDigits(s) then DecimalValue(s)
    else 0
  }

  lemma {:induction false} DecimalRoundTrip(n: nat)
    ensures DecimalValue(NatToDecimal(n)) == n
    decreases n
  {
    if n >= 10 {
      DecimalRoundTrip(n / 10);
      var s := NatToDecimal(n);
      assert s[..|s| - 1] == NatToDecimal(n / 10);
    }
  }

  lemma ParseNegative(n: nat)
    requires n > 0
    ensures ParseInt("-" + NatToDecimal(n)) == -(n as int)
  {
    var digits := NatToDecimal(n);
    var s := "-" + digits;
    assert s[1..] == digits;
    DecimalRoundTrip(n);
  }

  lemma ParseNonNegative(n: nat)
    ensures ParseInt(NatToDecimal(n)) == n
  {
    var s := NatToDecimal(n);
    assert s[0] != '-';
    DecimalRoundTrip(n);
  }

  /** Parsing the printed text of an integer gives back the integer. */
  lemma IntToStringRoundTrip(i: int)
    ensures ParseInt(IntToString(i)) == i
  {
    if i < 0 {
      ParseNegative(-i);
    } else {
      ParseNonNegative(i);
    }
  }

  /** Distinct integers print differently. */
  lemma IntToStringInjective(i: int, j: int)
    ensures IntToString(i) == IntToString(j) ==> i == j
  {
    IntToStringRoundTrip(i);
    IntToStringRoundTrip(j);
  }
}
