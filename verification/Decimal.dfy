/** Integers in decimal, as %d prints them. */
module Decimal {

  function Digit(d: nat): char
    requires d < 10
  {
    ['0', '1', '2', '3', '4', '5', '6', '7', '8', '9'][d]
  }

  function Digits(n: nat): string {
    if n < 10 then [Digit(n)] else Digits(n / 10) + [Digit(n % 10)]
  }

  function Show(n: int): string {
    if n < 0 then "-" + Digits(-n) else Digits(n)
  }

  predicate IsDigit(c: char) {
    '0' <= c <= '9'
  }

  lemma {:induction false} DigitsAreDigits(n: nat)
    ensures |Digits(n)| > 0 && forall c <- Digits(n) :: IsDigit(c)
  {
    if n >= 10 {
      DigitsAreDigits(n / 10);
    }
  }

  lemma {:induction false} DigitsInjective(m: nat, n: nat)
    requires Digits(m) == Digits(n)
    ensures m == n
  {
    var a, b := Digits(m), Digits(n);
    assert a[|a| - 1] == Digit(m % 10) && b[|b| - 1] == Digit(n % 10);
    if m >= 10 && n >= 10 {
      assert a[..|a| - 1] == Digits(m / 10) && b[..|b| - 1] == Digits(n / 10);
      DigitsInjective(m / 10, n / 10);
    } else {
      DigitsAreDigits(m / 10);
      DigitsAreDigits(n / 10);
    }
  }

  lemma ShownSign(n: int)
    ensures |Show(n)| > 0 && (Show(n)[0] == '-' <==> n < 0)
    ensures forall c <- Show(n) :: IsDigit(c) || c == '-'
  {
    DigitsAreDigits(if n < 0 then -n else n);
    if n >= 0 {
      assert IsDigit(Show(n)[0]);
    }
  }

  lemma Unsigned(d: string)
    ensures ("-" + d)[1..] == d
  {
  }

  /** Different integers print differently. */
  lemma ShowInjective(m: int, n: int)
    requires Show(m) == Show(n)
    ensures m == n
  {
    ShownSign(m);
    ShownSign(n);
    if m < 0 {
      Unsigned(Digits(-m));
      Unsigned(Digits(-n));
      DigitsInjective(-m, -n);
    } else {
      DigitsInjective(m, n);
    }
  }
}
