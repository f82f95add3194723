/** Numbers written out, by repeated division. */
module Numerals {

  const DIGITS: string := "0123456789abcdef"

  /** The numeral of `n` to the base `b`. */
  function Numeral(n: nat, b: nat): (s: string)
    requires 2 <= b <= 16
    ensures s != "" && forall k :: 0 <= k < |s| ==> s[k] in DIGITS[..b]
  {
    assert DIGITS[Last(n, b)] == DIGITS[..b][Last(n, b)];
    if n < b then [DIGITS[n]] else Numeral(n / b, b) + [DIGITS[Last(n, b)]]
  }

  /** The last digit. */
  function Last(n: nat, b: nat): (d: nat)
    requires 0 < b
    ensures d < b && n == n / b * b + d && (n < b ==> d == n) && (b > 1 && n > 0 ==> n / b < n)
  {
    Smaller(n, n / b, b, n % b);
    n % b
  }

  lemma Smaller(n: nat, q: nat, b: nat, d: nat)
    requires n == q * b + d && 0 < b
    ensures 1 < b && n > 0 ==> q < n
    ensures n < b ==> d == n
  {
    if q > 0 {
      assert q * b >= b;
      if b > 1 { assert q * b >= 2 * q; }
    }
  }

  /** `255` */
  function Decimal(n: nat): string {
    Numeral(n, 10)
  }

  /** `ff` */
  function Hex(n: nat): string {
    Numeral(n, 16)
  }

  /** The length of a numeral grows with the number. */
  lemma {:induction false} NumeralLen(n: nat, b: nat, k: nat, most: nat)
    requires 2 <= b <= 16 && 0 < k && most == Power(b, k) && n < most
    ensures |Numeral(n, b)| <= k
    decreases k
  {
    if n >= b {
      assert k > 1 && Power(b, k) == b * Power(b, k - 1);
      assert n / b < Power(b, k - 1) by { Below(n, b, Power(b, k - 1)); }
      NumeralLen(n / b, b, k - 1, Power(b, k - 1));
    }
  }

  function Power(b: nat, k: nat): nat {
    if k == 0 then 1 else b * Power(b, k - 1)
  }

  lemma Below(n: nat, b: nat, m: nat)
    requires 0 < b && n < b * m
    ensures n / b < m
  {
  }
}
