/** Decimal numbers as "%lu" prints them and strtol reads them. */
module Decimal {

  const LONG_MAX := 0x7fff_ffff_ffff_ffff

  predicate IsDigit(c: char) { '0' <= c <= '9' }

  function DigitValue(c: char): nat
    requires IsDigit(c)
  {
    c as int - 48
  }

  function Digit(n: nat): (c: char)
    requires n < 10
    ensures IsDigit(c) && DigitValue(c) == n
  {
    (48 + n) as char
  }

  /** "%lu" */
  function Print(n: nat): (s: string)
    ensures s != "" && forall c :: c in s ==> IsDigit(c)
  {
    if n < 10 then [Digit(n)] else Print(n / 10) + [Digit(n % 10)]
  }

  function Value(s: string): nat
    requires forall c :: c in s ==> IsDigit(c)
  {
    if s == "" then 0 else 10 * Value(s[..|s| - 1]) + DigitValue(s[|s| - 1])
  }

  /** The digits a string starts with. */
  function Leading(s: string): (r: string)
    ensures forall c :: c in r ==> IsDigit(c)
  {
    if s == "" || !IsDigit(s[0]) then "" else [s[0]] + Leading(s[1..])
  }

  /** strtol, base 10, of a string without sign: what does not fit in a long is cut to LONG_MAX. */
  function Strtol(s: string): nat {
    var v := Value(Leading(s));
    if v > LONG_MAX then LONG_MAX else v
  }

  lemma {:induction false} ValueOfPrint(n: nat)
    ensures Value(Print(n)) == n
  {
    if n >= 10 {
      ValueOfPrint(n / 10);
      assert Print(n)[..|Print(n)| - 1] == Print(n / 10);
    }
  }

  lemma {:induction false} LeadingDigits(s: string, rest: string)
    requires forall c :: c in s ==> IsDigit(c)
    requires rest == "" || !IsDigit(rest[0])
    ensures Leading(s + rest) == s
  {
    if s == "" { assert s + rest == rest; } else {
      LeadingDigits(s[1..], rest);
      assert (s + rest)[1..] == s[1..] + rest;
    }
  }

  /** A number that was printed is read back exactly if it fits in a long. */
  lemma PrintThenRead(n: nat)
    ensures Strtol(Print(n)) == n <==> n <= LONG_MAX
    ensures n > LONG_MAX ==> Strtol(Print(n)) == LONG_MAX
  {
    LeadingDigits(Print(n), "");
    assert Print(n) + "" == Print(n);
    ValueOfPrint(n);
  }

  function Pow10(k: nat): nat { if k == 0 then 1 else 10 * Pow10(k - 1) }

  /** How long the printed number is. */
  lemma {:induction false} PrintLength(n: nat, k: nat)
    requires n < Pow10(k) && k > 0
    ensures |Print(n)| <= k
  {
    if n >= 10 { PrintLength(n / 10, k - 1); }
  }

  /** A size_t takes at most 20 digits, so a buffer of 23 holds it and its terminator. */
  lemma SizeFits(n: nat)
    requires n < 0x1_0000_0000_0000_0000
    ensures |Print(n)| <= 20
  {
    assert Pow10(5) == 100000;
    assert Pow10(10) == 10000000000;
    assert Pow10(15) == 1000000000000000;
    assert Pow10(20) == 100000000000000000000;
    PrintLength(n, 20);
  }
}
