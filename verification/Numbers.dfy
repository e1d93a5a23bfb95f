/** Decimal text of integers. */
module Numbers {
  predicate IsDigit(c: char) {
    '0' <= c <= '9'
  }

  function Digit(d: int): char
    requires 0 <= d < 10
  {
    "0123456789"[d]
  }

  function DigitVal(c: char): int
    requires IsDigit(c)
  {
    c as int - '0' as int
  }

  predicate AllDigits(s: string) {
    forall i :: 0 <= i < |s| ==> IsDigit(s[i])
  }

  function NatText(n: nat): (s: string)
    ensures s != "" && AllDigits(s)
  {
    if n < 10 then [Digit(n)] else NatText(n / 10) + [Digit(n % 10)]
  }

  /** What %1.17g prints for a C int. */
  function IntText(n: int): string {
    if n < 0 then "-" + NatText(-n) else NatText(n)
  }

  /** The value of a run of digits. */
  function Val(s: string): nat
    requires AllDigits(s)
  {
    if s == "" then 0 else Val(s[..|s|-1]) * 10 + DigitVal(s[|s|-1])
  }

  lemma {:induction false} ValNatText(n: nat)
    ensures Val(NatText(n)) == n
    ensures NatText(n)[0] == '0' <==> n == 0
    ensures n == 0 ==> NatText(n) == "0"
  {
    var s := NatText(n);
    if n >= 10 {
      ValNatText(n / 10);
      assert s[..|s|-1] == NatText(n / 10);
    } else {
      assert s[..|s|-1] == "";
    }
  }

  /** How many digits t begins with. */
  function Digits(t: string): (d: nat)
    ensures d <= |t| && AllDigits(t[..d])
    ensures d < |t| ==> !IsDigit(t[d])
  {
    if t == "" || !IsDigit(t[0]) then 0 else 1 + Digits(t[1..])
  }

  lemma {:induction false} DigitsOf(s: string, rest: string)
    requires AllDigits(s) && (rest == "" || !IsDigit(rest[0]))
    ensures Digits(s + rest) == |s|
  {
    if s == "" {
      assert s + rest == rest;
    } else {
      assert (s + rest)[1..] == s[1..] + rest;
      DigitsOf(s[1..], rest);
    }
  }

  lemma NatTextInjective(a: nat, b: nat)
    requires NatText(a) == NatText(b)
    ensures a == b
  {
    ValNatText(a);
    ValNatText(b);
  }
}
