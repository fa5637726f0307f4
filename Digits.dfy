/**
 * The decimal text JavaScript gives a non-negative integer (Number.prototype.toString and template
 * literals), its inverse, and how many digits it has.
 */
module Digits {

  predicate IsDigit(c: char) {
    '0' <= c <= '9'
  }

  predicate AllDigits(s: string) {
    forall k :: 0 <= k < |s| ==> IsDigit(s[k])
  }

  function DigitChar(d: nat): (c: char)
    requires d < 10
    ensures IsDigit(c)
  {
    (('0' as int) + d) as char
  }

  function DigitValue(c: char): (d: nat)
    requires IsDigit(c)
    ensures d < 10 && DigitChar(d) == c
  {
    (c as int) - ('0' as int)
  }

  function Pow10(k: nat): (p: nat)
    ensures p >= 1
  {
    if k == 0 then 1 else 10 * Pow10(k - 1)
  }

  /** The decimal text of `n`: digits only, with no leading zero unless it is "0". */
  function DecimalString(n: nat): (s: string)
    ensures |s| >= 1 && AllDigits(s)
    ensures |s| > 1 ==> s[0] != '0'
  {
    if n < 10 then [DigitChar(n)] else DecimalString(n / 10) + [DigitChar(n % 10)]
  }

  /** The value of a string of digits, most significant first. */
  function ParseDecimal(s: string): nat
    requires AllDigits(s)
  {
    if s == [] then 0 else 10 * ParseDecimal(s[..|s| - 1]) + DigitValue(s[|s| - 1])
  }

  /** Reading the decimal text of `n` back gives `n`. */
  lemma {:induction false} ParseDecimalString(n: nat)
    ensures ParseDecimal(DecimalString(n)) == n
  {
    var s := DecimalString(n);
    if n >= 10 {
      ParseDecimalString(n / 10);
      assert s[..|s| - 1] == DecimalString(n / 10);
    }
  }

  /** Different numbers have different decimal texts. */
  lemma DecimalStringInjective(a: nat, b: nat)
    requires DecimalString(a) == DecimalString(b)
    ensures a == b
  {
    ParseDecimalString(a);
    ParseDecimalString(b);
  }

  /** A number below 10^k has at most k digits. */
  lemma {:induction false} DecimalLengthAtMost(n: nat, k: nat)
    requires 1 <= k && n < Pow10(k)
    ensures |DecimalString(n)| <= k
  {
    if n >= 10 {
      assert k >= 2;
      DecimalLengthAtMost(n / 10, k - 1);
    }
  }

  /** A number from 10^(k-1) up to below 10^k has exactly k digits. */
  lemma {:induction false} DecimalLength(n: nat, k: nat)
    requires 1 <= k && Pow10(k - 1) <= n < Pow10(k)
    ensures |DecimalString(n)| == k
  {
    if k >= 2 {
      assert n >= 10 by { assert Pow10(k - 1) == 10 * Pow10(k - 2); }
      DecimalLength(n / 10, k - 1);
    } else {
      assert n < 10;
    }
  }

  /** A number of at least 10^(k-1) has at least k digits. */
  lemma {:induction false} DecimalLengthAtLeast(n: nat, k: nat)
    requires 1 <= k && Pow10(k - 1) <= n
    ensures |DecimalString(n)| >= k
  {
    if k >= 2 {
      assert n >= 10 by { assert Pow10(k - 1) == 10 * Pow10(k - 2); }
      DecimalLengthAtLeast(n / 10, k - 1);
    }
  }
}
