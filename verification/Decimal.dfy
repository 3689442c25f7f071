/** Printing integers with %d and reading them back with atoi. */
module Decimal {
  import opened Chars

  function Digit(d: nat): char
    requires d < 10
  {
    '0' + d as char
  }

  function Digits(n: nat): string {
    if n < 10 then [Digit(n)] else Digits(n / 10) + [Digit(n % 10)]
  }

  function Print(n: int): string {
    if n < 0 then "-" + Digits(-n) else Digits(n)
  }

  function Value(s: string): nat
    requires forall c :: c in s ==> IsDigit(c)
  {
    if s == "" then 0
    else
      var c := s[|s| - 1];
      assert c in s && IsDigit(c);
      10 * Value(s[..|s| - 1]) + (c as int - '0' as int)
  }

  function DigitPrefix(s: string): nat
    ensures DigitPrefix(s) <= |s| && forall c :: c in s[..DigitPrefix(s)] ==> IsDigit(c)
  {
    if s == "" || !IsDigit(s[0]) then 0
    else
      assert s[..1 + DigitPrefix(s[1..])] == [s[0]] + s[1..][..DigitPrefix(s[1..])];
      1 + DigitPrefix(s[1..])
  }

  function Atoi(s: string): int {
    if s == "" then 0
    else if IsSpace(s[0]) then Atoi(s[1..])
    else if s[0] == '-' then 0 - Value(s[1..][..DigitPrefix(s[1..])]) as int
    else if s[0] == '+' then Value(s[1..][..DigitPrefix(s[1..])])
    else Value(s[..DigitPrefix(s)])
  }

  lemma {:induction false} DigitsAreDigits(n: nat)
    ensures Digits(n) != "" && forall c :: c in Digits(n) ==> IsDigit(c)
  {
    if n >= 10 {
      DigitsAreDigits(n / 10);
    }
  }

  lemma {:induction false} DigitsValue(n: nat)
    ensures (forall c :: c in Digits(n) ==> IsDigit(c)) && Value(Digits(n)) == n
  {
    DigitsAreDigits(n);
    if n >= 10 {
      DigitsValue(n / 10);
      assert Digits(n)[..|Digits(n)| - 1] == Digits(n / 10);
    } else {
      assert Value("") == 0;
      assert Digits(n)[..0] == "";
    }
  }

  lemma {:induction false} AllDigits(s: string)
    requires forall c :: c in s ==> IsDigit(c)
    ensures DigitPrefix(s) == |s|
  {
    if s != "" {
      AllDigits(s[1..]);
    }
  }

  /** atoi undoes %d. */
  lemma AtoiPrint(n: int)
    ensures Atoi(Print(n)) == n
  {
    var m := if n < 0 then -n else n;
    DigitsAreDigits(m);
    DigitsValue(m);
    AllDigits(Digits(m));
    assert Digits(m)[..|Digits(m)|] == Digits(m);
    if n < 0 {
      assert Print(n)[1..] == Digits(m);
    } else {
      assert Digits(m)[0] in Digits(m);
    }
  }
}
