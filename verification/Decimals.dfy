/** Numbers as text. */
module Decimals {
  function Decimal(n: nat): (digits: string)
    ensures digits != ""
  {
    if n < 10 then [Digit(n)] else Decimal(n / 10) + [Digit(n % 10)]
  }

  predicate IsDigit(c: char) { '0' <= c <= '9' }

  /** The number that digits stand for. */
  function Value(digits: string): nat {
    if digits == "" then 0
    else
      var c := digits[|digits| - 1];
      Value(digits[..|digits| - 1]) * 10 + if IsDigit(c) then (c - '0') as nat else 0
  }

  lemma ValueMore(digits: string, c: char)
    requires IsDigit(c)
    ensures Value(digits + [c]) == Value(digits) * 10 + (c - '0') as nat
  {
    assert (digits + [c])[..|digits|] == digits;
  }

  function Digit(n: nat): (c: char)
    requires n < 10
    ensures IsDigit(c) && (c - '0') as nat == n
  {
    n as char + '0'
  }

  /** A number printed is read back. */
  lemma {:induction false} ValueOfDecimal(n: nat)
    ensures Value(Decimal(n)) == n
    ensures forall c :: c in Decimal(n) ==> IsDigit(c)
  {
    var front := if n < 10 then "" else Decimal(n / 10);
    assert Decimal(n) == front + [Digit(n % 10)];
    if n >= 10 {
      ValueOfDecimal(n / 10);
    }
    hide Decimal, Digit, IsDigit;
    ValueMore(front, Digit(n % 10));
  }
}
