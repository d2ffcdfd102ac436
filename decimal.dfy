// Decimal text of integers, as Python's str(int) / f"{n}" and fmt::format("{}")
// print them, and the parsing that inverts it (int() on such text).
module Decimal {
  predicate IsDigit(c: char) {
    '0' <= c <= '9'
  }

  predicate AllDigits(s: string) {
    forall i :: 0 <= i < |s| ==> IsDigit(s[i])
  }

  function DigitChar(d: nat): (c: char)
    requires d < 10
    ensures IsDigit(c) && c as int - '0' as int == d
  {
    (d + '0' as int) as char
  }

  function DigitValue(c: char): (d: nat)
    requires IsDigit(c)
    ensures d < 10
  {
    c as int - '0' as int
  }

  /** The decimal text of n: digits only, no leading zero. */
  function NatToString(n: nat): (s: string)
    ensures 0 < |s| && AllDigits(s)
    ensures 1 < |s| ==> s[0] != '0'
  {
    if n < 10 then [DigitChar(n)] else NatToString(n / 10) + [DigitChar(n % 10)]
  }

  /** The decimal text of i, with a leading '-' when negative. */
  function IntToString(i: int): (s: string)
    ensures 0 < |s|
    ensures forall k :: 0 <= k < |s| ==> IsDigit(s[k]) || s[k] == '-'
  {
    if i < 0 then "-" + NatToString(-i) else NatToString(i)
  }

  /** The value of a digit string (most significant digit first). */
  function ParseNat(s: string): nat
    requires AllDigits(s)
  {
    if |s| == 0 then 0 else 10 * ParseNat(s[..|s| - 1]) + DigitValue(s[|s| - 1])
  }

  /** Reading back the printed text gives the number again. */
  lemma {:induction false} ParseNatToString(n: nat)
    ensures ParseNat(NatToString(n)) == n
  {
    var s := NatToString(n);
    if n >= 10 {
      ParseNatToString(n / 10);
      assert s[..|s| - 1] == NatToString(n / 10);
    }
  }

  /** Different numbers print differently. */
  lemma NatToStringInjective(a: nat, b: nat)
    requires NatToString(a) == NatToString(b)
    ensures a == b
  {
    ParseNatToString(a);
    ParseNatToString(b);
  }
}
