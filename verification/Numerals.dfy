/** Decimal numerals. */
module Numerals {

  /** The decimal numeral of n. */
  function Numeral(n: nat): (s: string)
    ensures s != "" && forall c :: c in s ==> c in "0123456789"
  {
    if n < 10 then ["0123456789"[n]] else Numeral(n / 10) + ["0123456789"[n % 10]]
  }

  lemma DigitIs(d: nat)
    requires d < 10
    ensures var c := "0123456789"[d]; '0' <= c <= '9' && c as int - '0' as int == d
  {
  }

  lemma DigitIff(c: char)
    ensures c in "0123456789" <==> '0' <= c <= '9'
  {
    if '0' <= c <= '9' {
      assert "0123456789"[c as int - '0' as int] == c;
    }
  }

  lemma {:induction false} NumeralInjective(a: nat, b: nat)
    requires Numeral(a) == Numeral(b)
    ensures a == b
  {
    var s, t := Numeral(a), Numeral(b);
    assert s[|s| - 1] == "0123456789"[a % 10] && t[|t| - 1] == "0123456789"[b % 10];
    DigitIs(a % 10);
    DigitIs(b % 10);
    if a >= 10 {
      assert s[..|s| - 1] == Numeral(a / 10);
    }
    if b >= 10 {
      assert t[..|t| - 1] == Numeral(b / 10);
    }
    if a >= 10 && b >= 10 {
      NumeralInjective(a / 10, b / 10);
    }
  }
}
