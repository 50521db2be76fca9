/** Decimal printing of integers, and reading it back. */
module Decimal {
  function DigitChar(d: nat): char
    requires d < 10
  {
    '0' + d as char
  }

  function Digits(n: nat): string {
    if n < 10 then [DigitChar(n)] else Digits(n / 10) + [DigitChar(n % 10)]
  }

  function Print(n: int): string {
    if n < 0 then "-" + Digits(-n) else Digits(n)
  }

  predicate IsDigit(c: char) { '0' <= c <= '9' }

  predicate AllDigits(s: string) { forall i :: 0 <= i < |s| ==> IsDigit(s[i]) }

  function DigitValue(c: char): nat
    requires IsDigit(c)
  {
    c as int - '0' as int
  }

  function ParseInt(s: string): nat
    requires AllDigits(s)
  {
    if s == "" then 0 else 10 * ParseInt(s[..|s| - 1]) + DigitValue(s[|s| - 1])
  }

  lemma {:induction false} DigitsReadBack(n: nat)
    ensures Digits(n) != "" && AllDigits(Digits(n)) && ParseInt(Digits(n)) == n
  {
    if n < 10 {
      assert Digits(n)[..0] == "";
    } else {
      DigitsReadBack(n / 10);
      var ds := Digits(n);
      assert ds[..|ds| - 1] == Digits(n / 10) && ds[|ds| - 1] == DigitChar(n % 10);
    }
  }

  /** No superfluous zero is printed in front. */
  lemma {:induction false} NoLeadingZero(n: nat)
    ensures Digits(n) != "" && (Digits(n)[0] == '0' <==> n == 0) && (n == 0 ==> Digits(n) == "0")
  {
    if n >= 10 {
      NoLeadingZero(n / 10);
    }
  }

  lemma PrintReadsBack(n: int)
    ensures Print(n) != ""
    ensures n < 0 ==> Print(n)[0] == '-' && AllDigits(Print(n)[1..]) && ParseInt(Print(n)[1..]) == -n
    ensures n >= 0 ==> IsDigit(Print(n)[0]) && AllDigits(Print(n)) && ParseInt(Print(n)) == n
  {
    hide Digits, ParseInt;
    DigitsReadBack(if n < 0 then -n else n);
    if n < 0 {
      assert Print(n)[1..] == Digits(-n);
    }
  }

  /** Different integers print differently. */
  lemma PrintIsInjective(m: int, n: int)
    ensures Print(m) == Print(n) <==> m == n
  {
    hide Print, ParseInt;
    PrintReadsBack(m);
    PrintReadsBack(n);
  }
}
