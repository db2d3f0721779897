/**
 Facts about division and divisors of integers that the other modules share.
 */
module Divisibility {

  lemma NotNegative(a: int, b: int)
    requires a >= 0 && b >= 0
    ensures a * b >= 0
  {
  }

  lemma OneMore(y: int, q: int, q': int)
    requires y > 0 && q > q'
    ensures y * q >= y * q' + y
  {
    var d := q - q' - 1;
    NotNegative(y, d);
    assert y * q == y * q' + y + y * d;
  }

  lemma DivMod(x: int, y: int)
    requires y > 0
    ensures x == y * (x / y) + x % y && 0 <= x % y < y
  {
  }

  lemma SameDivision(y: int, q: int, r: int, q': int, r': int)
    requires y > 0 && y * q + r == y * q' + r' && 0 <= r < y && 0 <= r' < y
    ensures q == q' && r == r'
  {
    if q > q' { OneMore(y, q, q'); }
    if q < q' { OneMore(y, q', q); }
  }

  /** A quotient and a remainder in range are the quotient and the remainder. */
  lemma DivideUnique(x: int, y: int, q: int, r: int)
    requires y > 0 && x == y * q + r && 0 <= r < y
    ensures x / y == q && x % y == r
  {
    DivMod(x, y);
    SameDivision(y, x / y, x % y, q, r);
  }

  lemma SmallQuotient(x: nat, y: int)
    requires y >= 1
    ensures 0 <= x / y <= x && (y >= 2 ==> 2 * (x / y) <= x)
  {
    DivMod(x, y);
    if x / y < 0 { OneMore(y, 0, x / y); }
    if x / y > 0 && y >= 2 { assert (y - 2) * (x / y) >= 0; }
    if x / y > 0 { assert (y - 1) * (x / y) >= 0; }
  }

  /** `b` times some number is `x`. */
  ghost predicate Divides(b: nat, x: nat) { exists q: nat :: x == b * q }

  lemma DividesIsModulo(b: nat, x: nat)
    requires b > 0
    ensures Divides(b, x) <==> x % b == 0
  {
    DivMod(x, b);
    if Divides(b, x) {
      var q: nat :| x == b * q;
      DivideUnique(x, b, q, 0);
    }
    SmallQuotient(x, b);
  }

  lemma DividesSum(b: nat, x: nat, y: nat)
    requires Divides(b, x)
    ensures Divides(b, y) <==> Divides(b, x + y)
  {
    var p: nat :| x == b * p;
    if Divides(b, y) {
      var q: nat :| y == b * q;
      assert x + y == b * (p + q);
    }
    if Divides(b, x + y) {
      var q: nat :| x + y == b * q;
      assert y == b * (q - p);
      if q < p {
        NotNegative(b, p - q);
        assert y == b * 0;
      }
    }
  }

  /** The greatest common divisor, by Euclid's algorithm. */
  function Gcd(a: nat, b: nat): (g: nat)
    ensures a > 0 || b > 0 ==> g > 0
    decreases b
  {
    if b == 0 then a else Gcd(b, a % b)
  }

  lemma DividesMultiple(g: nat, b: nat, q: nat)
    requires Divides(g, b)
    ensures Divides(g, b * q)
  {
    var i: nat :| b == g * i;
    assert b * q == g * (i * q);
  }

  lemma {:induction false} GcdDivides(a: nat, b: nat)
    ensures Divides(Gcd(a, b), a) && Divides(Gcd(a, b), b)
    decreases b
  {
    if b == 0 {
      assert a == a * 1 && b == a * 0;
    } else {
      var g := Gcd(b, a % b);
      GcdDivides(b, a % b);
      SmallQuotient(a, b);
      DividesMultiple(g, b, a / b);
      DividesSum(g, b * (a / b), a % b);
      DivMod(a, b);
    }
  }

  lemma DivisorIsLess(g: nat, x: nat)
    requires Divides(g, x) && x > 0
    ensures 0 < g <= x
  {
    var q: nat :| x == g * q;
    if q > 1 { OneMore(g, q, 1); }
  }

  /** Every divisor of q but q itself divides h. */
  ghost predicate ProperDivisorsDivide(q: nat, h: nat) { forall d | 1 <= d < q && q % d == 0 :: h % d == 0 }

  /** Then a greatest common divisor with q is q, or divides h. */
  lemma GcdWith(m: nat, q: nat, h: nat)
    requires q > 0 && ProperDivisorsDivide(q, h)
    ensures Gcd(m, q) > 0 && (h % Gcd(m, q) == 0 || m % q == 0)
  {
    var g := Gcd(m, q);
    GcdDivides(m, q);
    DivisorIsLess(g, q);
    DividesIsModulo(g, q);
    DividesIsModulo(g, m);
  }
}
