/** Hexadecimal digits. */
module Base16 {
  function Digit(d: int): char
    requires 0 <= d < 16
  {
    if d < 10 then ('0' as int + d) as char else ('a' as int + d - 10) as char
  }

  /** The value of a digit, or -1. */
  function DigitValue(c: char): int {
    if '0' <= c <= '9' then c as int - '0' as int
    else if 'a' <= c <= 'f' then c as int - 'a' as int + 10
    else if 'A' <= c <= 'F' then c as int - 'A' as int + 10
    else -1
  }
}

/** Numbers in decimal. */
module Decimals {
  function Digit(d: int): char
    requires 0 <= d < 10
  {
    ('0' as int + d) as char
  }

  function Decimal(n: nat): string {
    if n < 10 then [Digit(n)] else Decimal(n / 10) + [Digit(n % 10)]
  }

  function DecimalValue(t: string): int {
    if t == "" then 0 else 10 * DecimalValue(t[..|t| - 1]) + t[|t| - 1] as int - '0' as int
  }

  lemma DecimalReads(n: nat)
    ensures DecimalValue(Decimal(n)) == n
  {
    var t := Decimal(n);
    if n < 10 {
      assert t[..0] == "" && DecimalValue("") == 0;
    } else {
      assert t[..|t| - 1] == Decimal(n / 10);
      DecimalReads(n / 10);
    }
  }

  predicate IsDigit(c: char) {
    '0' <= c <= '9'
  }

  lemma DecimalDigits(n: nat)
    ensures Decimal(n) != "" && forall c <- Decimal(n) :: IsDigit(c)
  {
  }

  lemma DecimalFirst(n: nat)
    requires n > 0
    ensures Decimal(n)[0] != '0'
  {
  }

  function Pow10(n: nat): (p: nat)
    ensures p > 0
  {
    if n == 0 then 1 else 10 * Pow10(n - 1)
  }

  lemma ValueBounds(t: string)
    requires forall c <- t :: IsDigit(c)
    ensures 0 <= DecimalValue(t) < Pow10(|t|)
  {
    if t != "" {
      var init, last := t[..|t| - 1], t[|t| - 1];
      assert t == init + [last] && last in t && IsDigit(last);
      ValueBounds(init);
    }
  }

  lemma ValueConcat(a: string, b: string)
    ensures DecimalValue(a + b) == DecimalValue(a) * Pow10(|b|) + DecimalValue(b)
  {
    if b == "" {
      assert a + b == a;
    } else {
      var init := b[..|b| - 1];
      assert (a + b)[..|a + b| - 1] == a + init;
      ValueConcat(a, init);
      assert 10 * (DecimalValue(a) * Pow10(|init|)) == DecimalValue(a) * (10 * Pow10(|init|));
    }
  }
}
