/** Decimal rendering of integers, as JavaScript's `Number.prototype.toString`
    produces it for integral values below 10^21, and its inverse. The store
    uses it to turn `Date.now()` and the seed indices into point ids. */
module Decimal {

  predicate IsDigit(c: char) {
    '0' <= c <= '9'
  }

  predicate IsDigits(s: string) {
    forall i :: 0 <= i < |s| ==> IsDigit(s[i])
  }

  /** A canonical unsigned numeral: non-empty, digits only, no leading zero. */
  predicate IsNumeral(s: string) {
    |s| >= 1 && IsDigits(s) && (s[0] == '0' ==> |s| == 1)
  }

  function DigitChar(d: int): (c: char)
    requires 0 <= d < 10
    ensures IsDigit(c)
  {
    (48 + d) as char
  }

  function DigitValue(c: char): (d: int)
    requires IsDigit(c)
    ensures 0 <= d < 10
  {
    (c as int) - 48
  }

  function NatToString(n: nat): (s: string)
    ensures IsNumeral(s)
    ensures s[0] == '0' <==> n == 0
    decreases n
  {
    if n < 10 then [DigitChar(n)] else NatToString(n / 10) + [DigitChar(n % 10)]
  }

  /** Reads a string of decimal digits (most significant first) as a number. */
  function ParseNat(s: string): nat
    requires IsDigits(s)
    decreases |s|
  {
    if s == [] then 0 else 10 * ParseNat(s[..|s| - 1]) + DigitValue(s[|s| - 1])
  }

  /** The rendering of a number reads back as that number. */
  lemma {:induction false} ParseNatToString(n: nat)
    ensures ParseNat(NatToString(n)) == n
    decreases n
  {
    var s := NatToString(n);
    if n >= 10 {
      ParseNatToString(n / 10);
      assert s[..|s| - 1] == NatToString(n / 10);
    }
  }

  /** `toString` of an integral number: an optional minus sign and the
      digits of its magnitude. */
  function IntToString(n: int): (s: string)
    ensures |s| >= 1
    ensures s[0] == '-' <==> n < 0
    ensures n >= 0 ==> IsNumeral(s)
    ensures n < 0 ==> IsNumeral(s[1..])
  {
    if n < 0 then "-" + NatToString(-n) else NatToString(n)
  }

  predicate IsIntLiteral(s: string) {
    IsNumeral(s) || (|s| >= 2 && s[0] == '-' && IsNumeral(s[1..]))
  }

  function ParseInt(s: string): int
    requires IsIntLiteral(s)
  {
    if s[0] == '-' then -(ParseNat(s[1..]) as int) else ParseNat(s)
  }

  /** Every rendering is a well-formed literal that reads back as the number. */
  lemma ParseIntToString(n: int)
    ensures IsIntLiteral(IntToString(n))
    ensures ParseInt(IntToString(n)) == n
  {
    if n < 0 {
      ParseNatToString(-n);
      assert IntToString(n)[1..] == NatToString(-n);
    } else {
      ParseNatToString(n);
    }
  }

  /** Distinct numbers get distinct renderings (and so distinct ids). */
  lemma IntToStringInjective(a: int, b: int)
    ensures IntToString(a) == IntToString(b) <==> a == b
  {
    if IntToString(a) == IntToString(b) {
      ParseIntToString(a);
      ParseIntToString(b);
    }
  }
}
