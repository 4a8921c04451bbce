/**
 * Decimal rendering of integers, as a JavaScript template literal renders
 * an integral number, and its inverse.
 */
module Decimal {

  function DigitChar(d: int): char
    requires 0 <= d < 10
  {
    "0123456789"[d]
  }

  function DigitValue(c: char): int {
    c as int - '0' as int
  }

  /** The shortest decimal numeral of `n`. */
  function NatToString(n: nat): (s: string)
    ensures |s| > 0 && s[0] != '-'
  {
    if n < 10 then [DigitChar(n)] else NatToString(n / 10) + [DigitChar(n % 10)]
  }

  /** A minus sign for negative numbers, then the numeral of the magnitude. */
  function IntToString(i: int): string {
    if i < 0 then "-" + NatToString(-i) else NatToString(i)
  }

  function ParseNat(s: string): int {
    if |s| == 0 then 0 else ParseNat(s[..|s| - 1]) * 10 + DigitValue(s[|s| - 1])
  }

  function ParseInt(s: string): int {
    if |s| > 0 && s[0] == '-' then -ParseNat(s[1..]) else ParseNat(s)
  }

  lemma {:induction false} ParseNatToString(n: nat)
    ensures ParseNat(NatToString(n)) == n
  {
    if n >= 10 {
      ParseNatToString(n / 10);
      var s := NatToString(n / 10) + [DigitChar(n % 10)];
      assert s[..|s| - 1] == NatToString(n / 10);
    }
  }

  /** Rendering loses nothing: the numeral reads back as the number. */
  lemma IntToStringRoundTrip(i: int)
    ensures ParseInt(IntToString(i)) == i
  {
    var n: nat := if i < 0 then -i else i;
    var digits := NatToString(n);
    ParseNatToString(n);
    if i < 0 {
      ParseIntNegative(digits);
    } else {
      ParseIntUnsigned(digits);
    }
  }

  /** A leading minus sign negates the numeral after it. */
  lemma ParseIntNegative(digits: string)
    ensures ParseInt("-" + digits) == -ParseNat(digits)
  {
    assert ("-" + digits)[1..] == digits;
  }

  /** Without a minus sign the numeral is read as it is. */
  lemma ParseIntUnsigned(digits: string)
    requires |digits| > 0 && digits[0] != '-'
    ensures ParseInt(digits) == ParseNat(digits)
  {
  }
}
