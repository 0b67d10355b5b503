/** Decimal numerals, as strconv writes them. */
module Decimals {

  function Digits(n: nat): string {
    var d := ['0', '1', '2', '3', '4', '5', '6', '7', '8', '9'][n % 10];
    if n < 10 then [d] else Digits(n / 10) + [d]
  }

  lemma {:induction false} DigitsInjective(a: nat, b: nat)
    requires Digits(a) == Digits(b)
    ensures a == b
  {
    DigitsShape(a);
    DigitsShape(b);
    if a >= 10 && b >= 10 {
      assert Digits(a)[..|Digits(a)| - 1] == Digits(a / 10);
      assert Digits(b)[..|Digits(b)| - 1] == Digits(b / 10);
      DigitsInjective(a / 10, b / 10);
    }
  }

  lemma DigitsShape(a: nat)
    ensures |Digits(a)| >= 1
    ensures |Digits(a)| == 1 <==> a < 10
    ensures Digits(a)[0] != '-' && Digits(a)[0] != 'n'
    ensures Digits(a)[|Digits(a)| - 1] == ['0', '1', '2', '3', '4', '5', '6', '7', '8', '9'][a % 10]
  {
  }

  /** The number a numeral stands for. */
  function Value(s: string): int {
    if s == "" then 0 else 10 * Value(s[..|s| - 1]) + (s[|s| - 1] as int - '0' as int)
  }

  /** In base ten. */
  lemma {:induction false} DigitsValue(n: nat)
    ensures Value(Digits(n)) == n
  {
    var s, d := Digits(n), ['0', '1', '2', '3', '4', '5', '6', '7', '8', '9'][n % 10];
    assert d as int - '0' as int == n % 10;
    if n >= 10 {
      DigitsValue(n / 10);
      assert s[..|s| - 1] == Digits(n / 10);
    } else {
      assert s == [d] && s[..0] == "";
    }
  }
}
