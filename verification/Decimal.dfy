/** Decimal text of a natural number, as a template literal prints it. */
module Decimal {

  const DIGITS := "0123456789"

  predicate IsDigit(c: char) {
    '0' <= c <= '9'
  }

  function Text(n: nat): (s: string)
    ensures s != []
    ensures forall i :: 0 <= i < |s| ==> IsDigit(s[i])
  {
    if n < 10 then [DIGITS[n]] else Text(n / 10) + [DIGITS[n % 10]]
  }

  lemma {:induction false} TextInjective(m: nat, n: nat)
    requires Text(m) == Text(n)
    ensures m == n
  {
    var s, t := Text(m), Text(n);
    assert s[|s| - 1] == t[|t| - 1];
    assert s[|s| - 1] == DIGITS[m % 10] && t[|t| - 1] == DIGITS[n % 10];
    assert m % 10 == n % 10;
    if m >= 10 && n >= 10 {
      assert s[..|s| - 1] == Text(m / 10) && t[..|t| - 1] == Text(n / 10);
      TextInjective(m / 10, n / 10);
    }
  }

  /** The number a text of digits spells, most significant first. */
  function Value(s: string): nat
    requires forall i :: 0 <= i < |s| ==> IsDigit(s[i])
  {
    if s == "" then 0
    else
      assert IsDigit(s[|s| - 1]);
      10 * Value(s[..|s| - 1]) + (s[|s| - 1] as int - '0' as int)
  }

  /** The text spells its number, and without leading zeros. */
  lemma {:induction false} TextSpells(n: nat)
    ensures Value(Text(n)) == n
    ensures |Text(n)| > 1 ==> Text(n)[0] != '0'
  {
    var s := Text(n);
    assert DIGITS[n % 10] as int == '0' as int + n % 10 by {
      DigitAt(n % 10);
    }
    if n < 10 {
      assert s[..0] == "";
    } else {
      TextSpells(n / 10);
      assert s[..|s| - 1] == Text(n / 10);
      assert |Text(n / 10)| == 1 ==> Text(n / 10)[0] != '0' by {
        if n / 10 < 10 {
          DigitAt(n / 10);
        }
      }
    }
  }

  lemma DigitAt(d: nat)
    requires d < 10
    ensures DIGITS[d] as int == '0' as int + d
  {
  }
}
