/** Decimal numerals: what printing a number and reading it back agree on. */
module Decimal {

  const MaxInt64: int := 0x7FFF_FFFF_FFFF_FFFF

  predicate IsDigit(c: char) {
    '0' <= c <= '9'
  }

  predicate AllDigits(s: string) {
    forall i | 0 <= i < |s| :: IsDigit(s[i])
  }

  function Digit(d: nat): (c: char)
    requires d < 10
    ensures IsDigit(c) && c as int - '0' as int == d
  {
    ('0' as int + d) as char
  }

  function Show(n: nat): string {
    if n < 10 then [Digit(n)] else Show(n / 10) + [Digit(n % 10)]
  }

  function Value(s: string): nat
    requires AllDigits(s)
  {
    if s == [] then 0 else 10 * Value(s[..|s| - 1]) + (s[|s| - 1] as int - '0' as int)
  }

  lemma ValueSnoc(s: string, c: char)
    requires AllDigits(s) && IsDigit(c)
    ensures AllDigits(s + [c]) && Value(s + [c]) == 10 * Value(s) + (c as int - '0' as int)
  {
    assert (s + [c])[..|s|] == s;
  }

  lemma {:induction false} ShowThenValue(n: nat)
    ensures Show(n) != [] && AllDigits(Show(n)) && Value(Show(n)) == n
  {
    var s := Show(n);
    if n < 10 {
      ValueSnoc([], Digit(n));
    } else {
      ShowThenValue(n / 10);
      ValueSnoc(Show(n / 10), Digit(n % 10));
    }
  }

  function Pow10(k: nat): nat {
    if k == 0 then 1 else 10 * Pow10(k - 1)
  }

  lemma {:induction false} ShowLength(n: nat, k: nat)
    requires k > 0 && n < Pow10(k)
    ensures |Show(n)| <= k
  {
    assert Pow10(1) == 10;
    if n >= 10 {
      assert n / 10 < Pow10(k - 1);
      ShowLength(n / 10, k - 1);
    }
  }
}
