/** Decimal text of natural numbers, as `str(n)` writes it. */
module Decimal {

  function Digit(d: nat): char
    requires d < 10
  {
    ('0' as int + d) as char
  }

  function Of(n: nat): (s: string)
    ensures s != ""
  {
    if n < 10 then [Digit(n)] else Of(n / 10) + [Digit(n % 10)]
  }

  predicate IsDigit(c: char) {
    '0' <= c <= '9'
  }

  predicate IsNumber(s: string) {
    s != "" && forall i | 0 <= i < |s| :: IsDigit(s[i])
  }

  function Value(s: string): nat
    requires IsNumber(s)
  {
    var last := s[|s| - 1] as int - '0' as int;
    if |s| == 1 then last else 10 * Value(s[..|s| - 1]) + last
  }

  /** The number can be read back from its text. */
  lemma {:induction false} ValueOf(n: nat)
    ensures IsNumber(Of(n)) && Value(Of(n)) == n
  {
    if n >= 10 {
      ValueOf(n / 10);
      assert Of(n)[..|Of(n)| - 1] == Of(n / 10);
    }
  }

  lemma Injective(m: nat, n: nat)
    requires Of(m) == Of(n)
    ensures m == n
  {
    ValueOf(m);
    ValueOf(n);
  }
}
