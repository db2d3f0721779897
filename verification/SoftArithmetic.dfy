/**
 The firmware's software multiplication and division
 (firmware/rosco_m68k_firmware/stage1/common.c), on 32-bit unsigned numbers.
 */
module SoftArithmetic {
  import opened LongMultiply
  import opened LongDivide
  import opened CDivision
  import opened Divisibility

  /** Bitwise or. */
  function Or(a: nat, b: nat): nat {
    if a == 0 && b == 0 then 0 else 2 * Or(a / 2, b / 2) + (if a % 2 == 1 || b % 2 == 1 then 1 else 0)
  }

  /** x << k on numbers of any size */
  function Shl(x: nat, k: nat): nat { if k == 0 then x else 2 * Shl(x, k - 1) }

  lemma {:induction false} OrWithZero(a: nat)
    ensures Or(a, 0) == a
  {
    if a > 0 { OrWithZero(a / 2); }
  }

  /** Setting a bit below all the bits that are set adds it. */
  lemma {:induction false} OrAddsBit(c: nat, j: nat)
    ensures Or(Shl(c, j + 1), Shl(1, j)) == Shl(c, j + 1) + Shl(1, j)
  {
    if j == 0 {
      OrWithZero(c);
    } else {
      OrAddsBit(c, j - 1);
    }
  }

  lemma {:induction false} ShlBounds(x: nat, k: nat)
    ensures x >= 1 ==> Shl(x, k) >= Shl(1, k) && Shl(x, k) >= x
    ensures x == 0 ==> Shl(x, k) == 0
    ensures Shl(1, k) >= 1
  {
    if k > 0 { ShlBounds(x, k - 1); }
  }

  lemma {:induction false} ShlGrows(j: nat, k: nat)
    requires j <= k
    ensures Shl(1, j) <= Shl(1, k)
  {
    if j < k { ShlGrows(j, k - 1); }
  }

  lemma BitOf32(k: nat)
    requires k <= 32
    ensures k < 32 ==> Shl(1, k) <= 0x8000_0000
    ensures Shl(1, 32) == TWO32
  {
    assert Shl(1, 8) == 256;
    assert Shl(1, 16) == 0x1_0000;
    assert Shl(1, 24) == 0x100_0000;
    assert Shl(1, 31) == 0x8000_0000;
    if k < 32 { ShlGrows(k, 31); }
  }

  lemma {:induction false} ShlTwice(c: nat, j: nat)
    ensures Shl(c, j + 1) == Shl(2 * c, j) && Shl(2 * c + 1, j) == Shl(2 * c, j) + Shl(1, j)
  {
    if j > 0 { ShlTwice(c, j - 1); }
  }

  lemma {:induction false} BitTimes(x: nat, j: nat)
    ensures Shl(1, j) * x == Shl(x, j)
  {
    if j > 0 {
      BitTimes(x, j - 1);
      assert (2 * Shl(1, j - 1)) * x == 2 * (Shl(1, j - 1) * x);
    }
  }

  /** The first loop of divmod: the divisor is shifted until it is not below the dividend or its top bit is set. */
  method AlignDivisor(num: int, den0: int) returns (den: int, bit: int, ghost k: nat)
    requires Is32(num) && Is32(den0)
    ensures den0 > 0 ==> k <= 31 && bit == Shl(1, k) && den == Shl(den0, k) && num < 2 * den
    ensures den0 == 0 ==> den == 0 && bit == (if num > 0 then 0 else 1)
  {
    den, bit, k := den0, 1, 0;
    while den < num && bit != 0 && !Msb(den)
      invariant k <= 32 && den == Shl(den0, k) && bit == (if k == 32 then 0 else Shl(1, k))
      invariant 0 <= den < TWO32
      invariant den0 > 0 ==> k < 32
      invariant den0 == 0 && num == 0 ==> k == 0
      decreases 32 - k
    {
      BitOf32(k);
      den := Wrap32(den * 2);
      bit := Wrap32(bit * 2);
      k := k + 1;
      ShlBounds(den0, k);
      BitOf32(k);
    }
    ShlBounds(den0, k);
  }

  /** Still dividing: bit j is the next quotient bit to try, and `res` holds the higher ones. */
  predicate Dividing(num0: int, den0: int, num: int, den: int, bit: int, res: nat, j: nat, c: nat)
    requires den0 >= 0
  {
    && bit == Shl(1, j) && den == Shl(den0, j) && 0 <= num < 2 * den
    && res == Shl(c, j + 1) && num0 == res * den0 + num
  }

  lemma Unpack(num0: int, den0: int, num: int, den: int, bit: int, res: nat, j: nat, c: nat)
    requires den0 >= 0 && Dividing(num0, den0, num, den, bit, res, j, c)
    ensures bit >= 1 && (j == 0 ==> bit == 1 && den == den0)
  {
    ShlBounds(1, j);
  }

  /** One step of the second loop, up to the shifts at its end. */
  lemma DivideStep(num0: int, den0: int, num: int, den: int, bit: int, res: nat, j: nat, c: nat)
    requires den0 > 0 && Dividing(num0, den0, num, den, bit, res, j, c)
    ensures var c' := if num >= den then 2 * c + 1 else 2 * c;
            var num', res' := if num >= den then num - den else num, if num >= den then Or(res, bit) else res;
            res' == Shl(c', j) && num0 == res' * den0 + num' && 0 <= num' < den
  {
    OrAddsBit(c, j);
    ShlTwice(c, j);
    BitTimes(den0, j);
    hide Or, Shl;
    SumTimes(res, bit, den0);
  }

  lemma SumTimes(a: int, b: int, c: int)
    ensures (a + b) * c == a * c + b * c
  {
  }

  /** Halving `bit` and `den` for the next step. */
  lemma NextDivide(num0: int, den0: int, num: int, den: int, bit: int, res: nat, j: nat, c: nat)
    requires den0 > 0 && j > 0 && bit == Shl(1, j) && den == Shl(den0, j)
    requires res == Shl(c, j) && num0 == res * den0 + num && 0 <= num < den
    ensures Dividing(num0, den0, num, den / 2, bit / 2, res, j - 1, c)
  {
  }

  /**
   divmod, for every pair of 32-bit numbers; a zero divisor gives back the dividend and the
   quotient 0, or 1 for 0/0.
   */
  method DivMod32(num: int, den: int, mod: bool) returns (r: int)
    requires Is32(num) && Is32(den)
    ensures den != 0 ==> r == if mod then num % den else num / den
    ensures den == 0 ==> r == if mod then num else if num == 0 then 1 else 0
  {
    hide Shl, Or, Dividing;
    ghost var c: nat := 0;
    var n := num;
    var res: nat := 0;
    var d, bit, k := AlignDivisor(num, den);
    ghost var j: int := if den == 0 then bit - 1 else k;
    StartDividing(num, den, d, bit, k);
    while bit != 0
      invariant j >= -1 && bit >= 0 && (bit == 0 <==> j == -1)
      invariant den > 0 && j == -1 ==> num == res * den + n && 0 <= n < den
      invariant den > 0 && j >= 0 ==> Dividing(num, den, n, d, bit, res, j, c)
      invariant den == 0 ==> d == 0 && n == num && j <= 0 && (j == 0 ==> bit == 1)
      invariant den == 0 ==> res == if num == 0 && j == -1 then 1 else 0
      decreases j
    {
      ghost var n0, res0 := n, res;
      if den > 0 {
        DivideStep(num, den, n, d, bit, res, j, c);
        Unpack(num, den, n, d, bit, res, j, c);
      }
      FirstBit();
      c := if n >= d then 2 * c + 1 else 2 * c;
      if n >= d {
        n, res := n - d, Or(res, bit);
      }
      if den > 0 && j > 0 {
        UnpackShifts(num, den, n0, d, bit, res0, j);
        NextDivide(num, den, n, d, bit, res, j, c);
        Unpack(num, den, n, d / 2, bit / 2, res, j - 1, c);
      }
      bit := bit / 2;
      d := d / 2;
      j := j - 1;
    }
    if den > 0 { DivideUnique(num, den, res, n); }
    r := if mod then n else res;
  }

  lemma FirstBit()
    ensures Or(0, 1) == 1
  {
    OrAddsBit(0, 0);
  }

  lemma UnpackShifts(num0: int, den0: int, num: int, den: int, bit: int, res: nat, j: nat)
    requires den0 >= 0 && exists c: nat :: Dividing(num0, den0, num, den, bit, res, j, c)
    ensures bit == Shl(1, j) && den == Shl(den0, j)
  {
  }

  lemma StartDividing(num: int, den0: int, den: int, bit: int, k: nat)
    requires Is32(num) && den0 >= 0
    ensures den0 > 0 && bit == Shl(1, k) && den == Shl(den0, k) && num < 2 * den ==>
              Dividing(num, den0, num, den, bit, 0, k, 0) && bit >= 1
  {
    ShlBounds(0, k + 1);
    hide Shl;
  }

  // ---------------------------------------------------------------------------
  // The signed entry points, which divide as if their operands were unsigned
  // ---------------------------------------------------------------------------

  /** __udivsi3 and __divsi3 */
  method Divsi3(dividend: int, divisor: int) returns (r: int)
    requires Is32(dividend) && Is32(divisor)
    ensures divisor != 0 ==> r == dividend / divisor
    ensures divisor != 0 ==>
              (Signed32(r) == Quotient(Signed32(dividend), Signed32(divisor)) <==>
                 SignedQuotientHolds(dividend, divisor))
  {
    r := DivMod32(dividend, divisor, false);
    if divisor != 0 { UnsignedQuotient(dividend, divisor); }
  }

  /** __umodsi3 and __modsi3 */
  method Modsi3(dividend: int, divisor: int) returns (r: int)
    requires Is32(dividend) && Is32(divisor)
    ensures divisor != 0 ==> r == dividend % divisor
    ensures divisor != 0 ==>
              (Signed32(r) == Remainder(Signed32(dividend), Signed32(divisor)) <==>
                 SignedRemainderHolds(dividend, divisor))
  {
    r := DivMod32(dividend, divisor, true);
    if divisor != 0 { UnsignedRemainder(dividend, divisor); }
  }

  /** When an unsigned division gives the signed quotient. */
  predicate SignedQuotientHolds(a: int, b: int) {
    || (!Msb(a) && !Msb(b))
    || b == 1
    || (Msb(b) && (a == b || a < TWO32 - b))
  }

  /** When it gives the signed remainder. */
  predicate SignedRemainderHolds(a: int, b: int)
    requires Is32(a) && Is32(b)
  {
    || (!Msb(a) && !Msb(b))
    || (Msb(b) && (a == b || a < TWO32 - b))
    || (Msb(a) && !Msb(b) && AlignedTo(a, b))
  }

  // A negative dividend and a positive divisor leave the remainder alone only where both
  // remainders are zero: the divisor then divides 2^32.

  predicate PowerOfTwo(b: nat) { b == 1 || (b > 1 && b % 2 == 0 && PowerOfTwo(b / 2)) }

  /** `b` is 2^k, and the low k bits of `a` are zero. */
  predicate AlignedTo(a: nat, b: nat)
    decreases b
  {
    b == 1 || (b > 1 && b % 2 == 0 && a % 2 == 0 && AlignedTo(a / 2, b / 2))
  }

  lemma {:induction false} AlignedMeans(a: nat, b: nat)
    requires b > 0
    ensures AlignedTo(a, b) <==> PowerOfTwo(b) && Divides(b, a)
  {
    if b == 1 {
      assert a == b * a;
    } else if b % 2 == 0 {
      AlignedMeans(a / 2, b / 2);
      HalvesDivide(b / 2, a);
    }
  }

  lemma HalvesDivide(h: nat, a: nat)
    ensures Divides(2 * h, a) <==> a % 2 == 0 && Divides(h, a / 2)
  {
    if Divides(2 * h, a) {
      var q: nat :| a == (2 * h) * q;
      assert a == 2 * (h * q);
    }
    if a % 2 == 0 && Divides(h, a / 2) {
      var q: nat :| a / 2 == h * q;
      assert a == (2 * h) * q;
    }
  }

  lemma OddHalves(b: nat, m: nat)
    requires b % 2 == 1 && Divides(b, 2 * m)
    ensures Divides(b, m)
  {
    var q: nat :| 2 * m == b * q;
    var h := b / 2;
    assert b * q == 2 * (h * q) + q;
    assert q % 2 == 0;
    assert b * q == 2 * (b * (q / 2));
  }

  lemma {:induction false} DivisorOfPower(b: nat, n: nat)
    requires Divides(b, Shl(1, n))
    ensures PowerOfTwo(b)
    decreases n
  {
    ShlBounds(1, n);
    if b == 0 {
      var q: nat :| Shl(1, n) == b * q;
    } else if n == 0 {
      var q: nat :| 1 == b * q;
      if b > 1 && q > 0 { OneMore(q, b, 1); }
    } else if b % 2 == 1 {
      OddHalves(b, Shl(1, n - 1));
      DivisorOfPower(b, n - 1);
    } else {
      HalvesDivide(b / 2, Shl(1, n));
      DivisorOfPower(b / 2, n - 1);
    }
  }

  lemma {:induction false} PowerDivides(b: nat, n: nat)
    requires PowerOfTwo(b) && b <= Shl(1, n)
    ensures Divides(b, Shl(1, n))
    decreases n
  {
    if b == 1 {
      assert Shl(1, n) == b * Shl(1, n);
    } else {
      PowerDivides(b / 2, n - 1);
      HalvesDivide(b / 2, Shl(1, n));
    }
  }

  /** Both remainders vanish exactly when the divisor is a power of two and the dividend aligned to it. */
  lemma BothRemaindersZero(a: int, b: int)
    requires Is32(a) && Is32(b) && b != 0 && !Msb(b)
    ensures a % b == 0 && (TWO32 - a) % b == 0 <==> AlignedTo(a, b)
  {
    BitOf32(32);
    hide Shl;
    AlignedMeans(a, b);
    DividesIsModulo(b, a);
    DividesIsModulo(b, TWO32 - a);
    if a % b == 0 && (TWO32 - a) % b == 0 {
      DividesSum(b, a, TWO32 - a);
      DivisorOfPower(b, 32);
    }
    if AlignedTo(a, b) {
      PowerDivides(b, 32);
      DividesSum(b, a, TWO32 - a);
    }
  }

  /** -4 / 2 gives 0x7ffffffe, and -3 % 2 gives 1. */
  lemma SignedDivisionFails()
    ensures 0xffff_fffc / 2 == 0x7fff_fffe && Quotient(Signed32(0xffff_fffc), 2) == -2
            && !SignedQuotientHolds(0xffff_fffc, 2)
    ensures 0xffff_fffd % 2 == 1 && Remainder(Signed32(0xffff_fffd), 2) == -1 && !SignedRemainderHolds(0xffff_fffd, 2)
  {
    assert !AlignedTo(0xffff_fffd, 2);
  }

  lemma SmallOverLarge(a: int, b: int)
    requires 0 <= a < b
    ensures a / b == 0 && a % b == a
  {
    DivideUnique(a, b, 0, a);
  }

  lemma OnceOver(a: int, b: int)
    requires 0 < b <= a < 2 * b
    ensures a / b == 1 && a % b == a - b
  {
    DivideUnique(a, b, 1, a - b);
  }

  lemma UnsignedQuotient(a: int, b: int)
    requires Is32(a) && Is32(b) && b != 0
    ensures Signed32(a / b) == Quotient(Signed32(a), Signed32(b)) <==> SignedQuotientHolds(a, b)
  {
    if Msb(b) {
      NegativeDivisor(a, b);
    } else if Msb(a) {
      NegativeDividend(a, b);
    } else {
      SmallQuotient(a, b);
    }
  }

  lemma NegativeDivisor(a: int, b: int)
    requires Is32(a) && Is32(b) && Msb(b)
    ensures Signed32(a / b) == Quotient(Signed32(a), Signed32(b)) <==> SignedQuotientHolds(a, b)
  {
    var m := TWO32 - b;
    if a < b { SmallOverLarge(a, b); } else { OnceOver(a, b); }
    if Msb(a) {
      var n := TWO32 - a;
      if n < m { SmallOverLarge(n, m); } else if n == m { DivideUnique(n, m, 1, 0); } else { AtLeastOne(n, m); }
    } else {
      if a < m { SmallOverLarge(a, m); } else { AtLeastOne(a, m); }
    }
  }

  lemma AtLeastOne(n: int, m: int)
    requires 0 < m <= n
    ensures n / m >= 1
  {
    DivMod(n, m);
    if n / m < 1 { OneMore(m, 1, n / m); }
  }

  lemma NegativeDividend(a: int, b: int)
    requires Is32(a) && Is32(b) && b != 0 && Msb(a) && !Msb(b)
    ensures Signed32(a / b) == Quotient(Signed32(a), Signed32(b)) <==> SignedQuotientHolds(a, b)
  {
    var n := TWO32 - a;
    SmallQuotient(a, b);
    SmallQuotient(n, b);
    AtLeastOne(a, b);
    if n >= b { AtLeastOne(n, b); } else { SmallOverLarge(n, b); }
  }

  lemma RemainderBothNegative(a: int, b: int)
    requires Is32(a) && Is32(b) && Msb(a) && Msb(b)
    ensures Signed32(a % b) == Remainder(Signed32(a), Signed32(b)) <==> SignedRemainderHolds(a, b)
  {
    var m, n := TWO32 - b, TWO32 - a;
    if a < b { SmallOverLarge(a, b); } else { OnceOver(a, b); }
    DivMod(n, m);
    if n < m { SmallOverLarge(n, m); } else if n == m { DivideUnique(n, m, 1, 0); }
  }

  lemma RemainderNegativeDivisor(a: int, b: int)
    requires Is32(a) && Is32(b) && !Msb(a) && Msb(b)
    ensures Signed32(a % b) == Remainder(Signed32(a), Signed32(b)) <==> SignedRemainderHolds(a, b)
  {
    var m := TWO32 - b;
    SmallOverLarge(a, b);
    DivMod(a, m);
    if a < m { SmallOverLarge(a, m); }
  }

  lemma RemainderNegativeDividend(a: int, b: int)
    requires Is32(a) && Is32(b) && b != 0 && Msb(a) && !Msb(b)
    ensures Signed32(a % b) == Remainder(Signed32(a), Signed32(b)) <==> SignedRemainderHolds(a, b)
  {
    hide AlignedTo;
    DivMod(a, b);
    DivMod(TWO32 - a, b);
    BothRemaindersZero(a, b);
  }

  lemma UnsignedRemainder(a: int, b: int)
    requires Is32(a) && Is32(b) && b != 0
    ensures Signed32(a % b) == Remainder(Signed32(a), Signed32(b)) <==> SignedRemainderHolds(a, b)
  {
    hide AlignedTo;
    if Msb(a) && Msb(b) {
      RemainderBothNegative(a, b);
    } else if Msb(b) {
      RemainderNegativeDivisor(a, b);
    } else if Msb(a) {
      RemainderNegativeDividend(a, b);
    }
  }

  // ---------------------------------------------------------------------------
  // Multiplication
  // ---------------------------------------------------------------------------

  lemma WrapShift(r: int, a: int, b: int)
    requires a > 0
    ensures var r' := if a % 2 == 1 then Wrap32(r + b) else r;
            Wrap32(r' + (a / 2) * Wrap32(b * 2)) == Wrap32(r + a * b)
  {
    var r' := if a % 2 == 1 then r + b else r;
    var h, t := a / 2, Wrap32(b * 2);
    var lost := (b * 2) / TWO32;
    assert t == b * 2 - TWO32 * lost;
    assert h * t == h * (b * 2) - TWO32 * (h * lost);
    assert a * b == h * (b * 2) + (a % 2) * b by { assert a == 2 * h + a % 2; DistributeHalf(h, a % 2, b); }
    WrapMultiple(r' + h * (b * 2), -(h * lost));
    if a % 2 == 1 {
      var over := (r + b) / TWO32;
      assert Wrap32(r + b) == r + b - TWO32 * over;
      WrapMultiple(r + b + h * t, -over);
    }
  }

  lemma DistributeHalf(h: int, odd: int, b: int)
    ensures (2 * h + odd) * b == h * (b * 2) + odd * b
  {
  }

  lemma WrapMultiple(x: int, k: int)
    ensures Wrap32(x + TWO32 * k) == Wrap32(x)
  {
  }

  /** __mulsi3: the product modulo 2^32 */
  method Mulsi3(a0: int, b0: int) returns (r: int)
    requires Is32(a0) && Is32(b0)
    ensures r == Wrap32(a0 * b0)
  {
    hide Wrap32;
    var a, b := a0, b0;
    r := 0;
    while a != 0
      invariant a >= 0 && Wrap32(r + a * b) == Wrap32(a0 * b0) && Is32(r)
      decreases a
    {
      WrapShift(r, a, b);
      if a % 2 == 1 {
        r := Wrap32(r + b);
      }
      a := a / 2;
      b := Wrap32(b * 2);
    }
    Within(r);
  }

  lemma Within(r: int)
    requires Is32(r)
    ensures Wrap32(r) == r
  {
  }
}
