/** Decimal numbers as text. */
module Decimal {
  function Digit(d: nat): char
    requires d < 10
  {
    '0' + d as char
  }

  predicate IsDigit(c: char) {
    '0' <= c <= '9'
  }

  function Digits(n: nat): (s: string)
    ensures s != "" && (forall i :: 0 <= i < |s| ==> IsDigit(s[i]))
    ensures s[0] == '0' <==> n == 0
    ensures n == 0 ==> s == "0"
  {
    if n < 10 then [Digit(n)] else Digits(n / 10) + [Digit(n % 10)]
  }

  function ToString(n: int): string {
    if n < 0 then "-" + Digits(-n) else Digits(n)
  }

  predicate AllDigits(s: string) {
    s != "" && forall i :: 0 <= i < |s| ==> IsDigit(s[i])
  }

  /** The number that a string of digits stands for. */
  function Value(s: string): nat
    requires forall i :: 0 <= i < |s| ==> IsDigit(s[i])
  {
    if s == "" then 0
    else
      assert IsDigit(s[|s| - 1]);
      10 * Value(s[..|s| - 1]) + (s[|s| - 1] as int - '0' as int)
  }

  predicate IsNumber(s: string) {
    AllDigits(s) || (s != "" && s[0] == '-' && AllDigits(s[1..]))
  }

  function Parse(s: string): int
    requires IsNumber(s)
  {
    var v: int := Value(if s[0] == '-' then s[1..] else s);
    if s[0] == '-' then -v else v
  }

  lemma {:induction false} DigitsValue(n: nat)
    ensures Value(Digits(n)) == n
    decreases n
  {
    if n >= 10 {
      DigitsValue(n / 10);
      var s := Digits(n);
      assert s[..|s| - 1] == Digits(n / 10);
    } else {
      var s := Digits(n);
      assert s[..0] == "";
    }
  }

  /** Reading back what was written gives the number. */
  lemma ParseToString(n: int)
    ensures IsNumber(ToString(n)) && Parse(ToString(n)) == n
    ensures forall i :: 0 <= i < |ToString(n)| ==> ToString(n)[i] != '\n'
    ensures ToString(n) != "" && (ToString(n)[0] == '0' <==> n == 0) && (n == 0 ==> ToString(n) == "0")
  {
    if n < 0 {
      DigitsValue(-n);
      assert ToString(n)[1..] == Digits(-n);
    } else {
      DigitsValue(n);
    }
  }
}
