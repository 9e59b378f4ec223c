/** Decimal numerals, as printf writes them and strtoul reads them. */
module Decimal {
  predicate IsDigit(c: char) {
    '0' <= c <= '9'
  }

  predicate AllDigits(s: string) {
    forall i :: 0 <= i < |s| ==> IsDigit(s[i])
  }

  function DigitChar(d: nat): char
    requires d < 10
  {
    '0' + d as char
  }

  /** The value of a numeral. */
  function Value(s: string): nat
    requires AllDigits(s)
  {
    if s == "" then 0 else Value(s[..|s| - 1]) * 10 + (s[|s| - 1] - '0') as nat
  }

  /** The numeral of a number: no leading zero, except for zero itself. */
  function Print(n: nat): string {
    if n < 10 then [DigitChar(n)] else Print(n / 10) + [DigitChar(n % 10)]
  }

  lemma {:induction false} PrintIsNumeral(n: nat)
    ensures AllDigits(Print(n)) && Print(n) != "" && (Print(n)[0] == '0' <==> n == 0)
    ensures Value(Print(n)) == n
  {
    if n < 10 {
      assert Print(n)[..0] == "";
    } else {
      PrintIsNumeral(n / 10);
      assert Print(n)[..|Print(n)| - 1] == Print(n / 10);
    }
  }

  /** What printf writes: digits without a leading zero. */
  predicate Numeral(s: string) {
    s != "" && AllDigits(s) && (s[0] == '0' ==> s == "0")
  }

  /** Printing is the only way to write a numeral. */
  lemma {:induction false} PrintValue(s: string)
    requires Numeral(s)
    ensures Print(Value(s)) == s
    decreases |s|
  {
    var n := |s| - 1;
    assert s == s[..n] + [s[n]];
    if n == 0 {
      assert Value(s[..0]) == 0;
    } else {
      PrintValue(s[..n]);
      assert Value(s[..n]) != 0;
    }
  }

  lemma PrintZero()
    ensures Print(0) == "0"
  {
  }

  function Pow10(k: nat): (p: nat)
    ensures p > 0
  {
    if k == 0 then 1 else 10 * Pow10(k - 1)
  }

  /** A number below a power of ten has at most that many digits. */
  lemma {:induction false} PrintLength(n: nat, k: nat)
    requires n < Pow10(k) && k > 0
    ensures |Print(n)| <= k
  {
    if n >= 10 {
      PrintLength(n / 10, k - 1);
    }
  }

  /** And a number that is not below it has more. */
  lemma {:induction false} PrintTooLong(n: nat, k: nat)
    requires n >= Pow10(k)
    ensures |Print(n)| > k
    decreases k
  {
    if k > 0 {
      assert n / 10 >= Pow10(k - 1) && n >= 10;
      PrintTooLong(n / 10, k - 1);
    }
  }

  /** Numbers of 32 bits have at most 10 digits, numbers of 64 bits at most 20. */
  lemma PowersOfTen()
    ensures Pow10(10) >= 0x1_0000_0000 && Pow10(20) == 100_000_000_000_000_000_000
  {
    assert Pow10(5) == 100000;
    assert Pow10(10) == 100000 * 100000;
    assert Pow10(15) == 100000 * 100000 * 100000;
  }

  /** Base ten, the most significant digit first. */
  lemma PrintOnTheWire()
    ensures Print(7) == "7" && Print(10) == "10" && Print(2048) == "2048"
  {
    assert Print(2) == "2" && Print(20) == "20" && Print(204) == "204";
  }
}
