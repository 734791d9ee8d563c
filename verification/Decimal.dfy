/** Decimal renderings, as `%d` and JavaScript's index keys produce them. */
module Decimal {

  function Digit(d: nat): (c: char)
    requires d < 10
    ensures c as int == '0' as int + d
  {
    "0123456789"[d]
  }

  function Digits(n: nat): (s: string)
    ensures s != ""
    ensures forall i :: 0 <= i < |s| ==> '0' <= s[i] <= '9'
  {
    if n < 10 then [Digit(n)] else Digits(n / 10) + [Digit(n % 10)]
  }

  /** `%d` of a C int. */
  function Signed(n: int): (s: string)
    ensures s != ""
    ensures forall i :: 0 <= i < |s| ==> s[i] == '-' || '0' <= s[i] <= '9'
  {
    if n < 0 then "-" + Digits(-n) else Digits(n)
  }

  // ----- reading a numeral

  /** What a numeral means, read from the left. */
  function NumeralValue(s: string): int {
    if s == "" then 0 else 10 * NumeralValue(s[..|s| - 1]) + (s[|s| - 1] as int - '0' as int)
  }

  function SignedValue(s: string): int {
    if s != "" && s[0] == '-' then -NumeralValue(s[1..]) else NumeralValue(s)
  }

  lemma {:induction false} ValueOneMore(s: string, c: char)
    ensures NumeralValue(s + [c]) == 10 * NumeralValue(s) + (c as int - '0' as int)
  {
    assert (s + [c])[..|s|] == s;
  }

  /** The digits of a number mean the number, and do not start with a zero unless it is 0. */
  lemma {:induction false} DigitsMeanNumber(n: nat)
    ensures NumeralValue(Digits(n)) == n
    ensures n > 0 ==> Digits(n)[0] != '0'
  {
    if n < 10 {
      ValueOneMore("", Digit(n));
      assert Digits(n) == "" + [Digit(n)];
    } else {
      DigitsMeanNumber(n / 10);
      ValueOneMore(Digits(n / 10), Digit(n % 10));
    }
  }

  lemma SignedMeansNumber(n: int)
    ensures SignedValue(Signed(n)) == n
  {
    DigitsMeanNumber(if n < 0 then -n else n);
    if n < 0 { assert Signed(n)[1..] == Digits(-n); }
  }

  /** A rendering determines its number. */
  lemma {:induction false} DigitsInjective(n: nat, m: nat)
    requires Digits(n) == Digits(m)
    ensures n == m
    decreases n
  {
    assert |Digits(n)| == 1 <==> n < 10;
    assert |Digits(m)| == 1 <==> m < 10;
    var last := |Digits(n)| - 1;
    assert Digits(n)[last] == Digit(n % 10) && Digits(m)[last] == Digit(m % 10);
    if n >= 10 {
      assert Digits(n / 10) == Digits(n)[..last] && Digits(m / 10) == Digits(m)[..last];
      DigitsInjective(n / 10, m / 10);
    }
  }

  lemma SignedInjective(n: int, m: int)
    requires Signed(n) == Signed(m)
    ensures n == m
  {
    assert Signed(n)[0] == '-' <==> n < 0;
    assert Signed(m)[0] == '-' <==> m < 0;
    if n < 0 {
      assert Digits(-n) == Signed(n)[1..] && Digits(-m) == Signed(m)[1..];
      DigitsInjective(-n, -m);
    } else {
      DigitsInjective(n, m);
    }
  }
}
