/**
 C's division and remainder on integers of any size: the quotient is truncated toward
 zero, and the remainder has the sign of the dividend.
 */
module CDivision {

  function Abs(a: int): nat { if a < 0 then -a else a }

  /** C's `/`, which truncates toward zero, and its `%` */
  function Quotient(a: int, b: int): int
    requires b != 0
  {
    if (a < 0) == (b < 0) then Abs(a) / Abs(b) else -(Abs(a) / Abs(b))
  }

  function Remainder(a: int, b: int): int
    requires b != 0
  {
    if a < 0 then -(Abs(a) % Abs(b)) else Abs(a) % Abs(b)
  }

  /** Quotient and remainder are the ones the C standard fixes. */
  lemma QuotientRemainder(a: int, b: int)
    requires b != 0
    ensures a == Quotient(a, b) * b + Remainder(a, b)
    ensures Abs(Remainder(a, b)) < Abs(b) && (Remainder(a, b) == 0 || (Remainder(a, b) < 0) == (a < 0))
  {
    var q, r := Abs(a) / Abs(b), Abs(a) % Abs(b);
    assert Abs(a) == Abs(b) * q + r;
    Signs(Abs(b), q);
  }

  lemma Signs(b: int, q: int)
    ensures (-q) * b == -(b * q) && q * (-b) == -(b * q) && (-q) * (-b) == b * q && q * b == b * q
  {
  }
}
