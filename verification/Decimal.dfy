/** Decimal numbers as they appear in header fields. */
module Decimal {
  predicate IsDigit(c: char) {
    '0' <= c <= '9'
  }

  /** `^\d{1,most}$` */
  predicate IsDecimal(s: string, most: nat) {
    1 <= |s| <= most && forall i :: 0 <= i < |s| ==> IsDigit(s[i])
  }

  function DigitValue(c: char): nat
    requires IsDigit(c)
  {
    c as int - '0' as int
  }

  function Value(s: string): nat
    requires forall i :: 0 <= i < |s| ==> IsDigit(s[i])
  {
    if s == "" then 0 else 10 * Value(s[..|s| - 1]) + DigitValue(s[|s| - 1])
  }

  function Digits(n: nat): (s: string)
    ensures s != "" && forall i :: 0 <= i < |s| ==> IsDigit(s[i])
  {
    if n < 10 then [('0' as int + n) as char] else Digits(n / 10) + [('0' as int + n % 10) as char]
  }

  lemma {:induction false} ValueOfDigits(n: nat)
    ensures Value(Digits(n)) == n
  {
    if n >= 10 {
      ValueOfDigits(n / 10);
      assert Digits(n)[..|Digits(n)| - 1] == Digits(n / 10);
    }
  }

  /** A number has few digits exactly when it is small. */
  lemma {:induction false} LengthOfDigits(n: nat, k: nat)
    requires k >= 1
    ensures |Digits(n)| <= k <==> n < Power(k)
    decreases k
  {
    if n < 10 {
      PowerGrows(k);
    } else if k > 1 {
      LengthOfDigits(n / 10, k - 1);
    }
  }

  function Power(k: nat): nat {
    if k == 0 then 1 else 10 * Power(k - 1)
  }

  lemma {:induction false} PowerGrows(k: nat)
    requires k >= 1
    ensures Power(k) >= 10
  {
    if k > 1 {
      PowerGrows(k - 1);
    }
  }

  lemma PowersOfTen()
    ensures Power(6) == 1_000_000 && Power(15) == 1_000_000_000_000_000
  {
    assert Power(3) == 1000;
    assert Power(6) == 1000 * Power(3);
    assert Power(9) == 1000 * Power(6);
    assert Power(12) == 1000 * Power(9);
  }
}
