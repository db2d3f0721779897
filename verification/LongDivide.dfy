/**
 DIVS.L and DIVU.L (tools/r68k/musashi/m68k_in.c, divl). The handler is written twice:
 once with 64-bit division, and once, for compilers without it, as 64 steps of
 shift-and-subtract. The module proves when the two agree.
 */
module LongDivide {
  import opened LongMultiply
  import opened CDivision
  import opened Divisibility

  /**
   A zero divide trap; V set and nothing else changed; or the data registers and the N and
   Z flags (V and C are cleared).
   */
  datatype Outcome = ZeroDivide | Overflowed | Divided(d: seq<int>, n: bool, z: bool)

  predicate DataRegisters(d: seq<int>) { |d| == 8 && forall i | 0 <= i < 8 :: Is32(d[i]) }

  // ---------------------------------------------------------------------------
  // The arm with 64-bit division
  // ---------------------------------------------------------------------------

  function Dividend(d: seq<int>, dr: nat, dq: nat, signed: bool, quad: bool): int
    requires DataRegisters(d) && dr < 8 && dq < 8
  {
    if quad then (if signed then Signed64(TWO32 * d[dr] + d[dq]) else TWO32 * d[dr] + d[dq])
    else if signed then Signed32(d[dq]) else d[dq]
  }

  function Divisor(divisor: int, signed: bool): int { if signed then Signed32(divisor) else divisor }

  /** A signed 64-bit division C leaves undefined: the least number by minus one. */
  predicate Undefined(d: seq<int>, divisor: int, dr: nat, dq: nat, signed: bool, quad: bool)
    requires DataRegisters(d) && dr < 8 && dq < 8
  {
    signed && quad && d[dr] == 0x8000_0000 && d[dq] == 0 && divisor == 0xffff_ffff
  }

  lemma UndefinedMeans(d: seq<int>, divisor: int, dr: nat, dq: nat, signed: bool, quad: bool)
    requires DataRegisters(d) && Is32(divisor) && dr < 8 && dq < 8
    ensures Undefined(d, divisor, dr, dq, signed, quad) <==>
              && signed && quad
              && Dividend(d, dr, dq, signed, quad) == -0x8000_0000_0000_0000 && Divisor(divisor, signed) == -1
  {
  }

  /** The quotient is written after the remainder, so it is the one that stays when both go to one register. */
  function Store(d: seq<int>, dr: nat, dq: nat, quotient: int, remainder: int): Outcome
    requires |d| == 8 && dr < 8 && dq < 8
  {
    var q := Wrap32(quotient);
    Divided(d[dr := Wrap32(remainder)][dq := q], Msb(q), q == 0)
  }

  function DivWide(d: seq<int>, divisor: int, dr: nat, dq: nat, signed: bool, quad: bool): Outcome
    requires DataRegisters(d) && Is32(divisor) && dr < 8 && dq < 8 && !Undefined(d, divisor, dr, dq, signed, quad)
  {
    if divisor == 0 then ZeroDivide
    else
      var a, b := Dividend(d, dr, dq, signed, quad), Divisor(divisor, signed);
      var q := Quotient(a, b);
      if quad && (if signed then q != Signed32(Wrap32(q)) else q > 0xffff_ffff) then Overflowed
      else Store(d, dr, dq, q, Remainder(a, b))
  }

  // ---------------------------------------------------------------------------
  // Shift and subtract
  // ---------------------------------------------------------------------------

  function Pow2(k: nat): (r: int)
    ensures r >= 1
  {
    if k == 0 then 1 else 2 * Pow2(k - 1)
  }

  /** x >> i */
  function Shr(x: int, i: nat): int { x / Pow2(i) }

  /** Bit i of x: `(x >> i) & 1` */
  function BitOf(x: int, i: nat): int { Shr(x, i) % 2 }

  lemma Regroup(x: int, p: int, r: int, h: int, b: int)
    requires x == p * (2 * h + b) + r && 0 <= r < p && 0 <= b <= 1
    ensures x == (2 * p) * h + (p * b + r) && 0 <= p * b + r < 2 * p
  {
    assert b == 0 || b == 1;
  }

  lemma HalveTwice(x: int, p: int)
    requires p >= 1
    ensures x / (2 * p) == (x / p) / 2
  {
    var q, r := x / p, x % p;
    DivMod(x, p);
    Regroup(x, p, r, q / 2, q % 2);
    DivideUnique(x, 2 * p, q / 2, p * (q % 2) + r);
  }

  /** Shifting in the next bit of a number, read from the top. */
  lemma NextBit(x: int, i: nat)
    ensures Shr(x, i) == 2 * Shr(x, i + 1) + BitOf(x, i) && 0 <= BitOf(x, i) <= 1
  {
    HalveTwice(x, Pow2(i));
  }

  /** Shifting out every bit, and none. */
  lemma ShiftAll(x: int, k: nat)
    requires 0 <= x < Pow2(k)
    ensures Shr(x, k) == 0 && Shr(x, 0) == x
  {
    DivideUnique(x, Pow2(k), 0, x);
  }

  lemma Pow2Of32()
    ensures Pow2(32) == TWO32 && Pow2(31) == 0x8000_0000
  {
    assert Pow2(8) == 256;
    assert Pow2(16) == 0x1_0000;
    assert Pow2(24) == 0x100_0000;
  }

  /** What has been read of a 64-bit dividend when the low half's bits from `i` up have been. */
  function Prefix(hi: int, lo: int, i: nat): int
    requires i <= 32
  {
    hi * Pow2(32 - i) + Shr(lo, i)
  }

  lemma PrefixStep(hi: int, lo: int, i: nat)
    requires i < 32
    ensures Prefix(hi, lo, i) == 2 * Prefix(hi, lo, i + 1) + BitOf(lo, i)
  {
    hide Shr, BitOf;
    NextBit(lo, i);
    assert Pow2(32 - i) == 2 * Pow2(32 - (i + 1));
    assert hi * (2 * Pow2(31 - i)) == 2 * (hi * Pow2(31 - i));
  }

  /** A quotient that takes more than the bits read so far would mean a high half not below the divisor. */
  lemma QuotientFits(hi: int, lo: int, divisor: int, i: nat, quotient: int, remainder: int)
    requires i <= 32 && Is32(lo) && 0 <= hi < divisor && 0 <= remainder && 0 <= quotient
    requires quotient * divisor + remainder == Prefix(hi, lo, i)
    ensures quotient < Pow2(32 - i)
  {
    hide Shr, Pow2;
    LowPart(lo, i);
    TooLarge(Pow2(32 - i), hi, Shr(lo, i), divisor, quotient, remainder);
  }

  lemma TooLarge(p: int, hi: int, low: int, divisor: int, quotient: int, remainder: int)
    requires p >= 1 && 0 <= hi < divisor && 0 <= low < p && 0 <= remainder
    requires quotient * divisor + remainder == hi * p + low
    ensures quotient < p
  {
    if quotient >= p {
      assert (quotient - p) * divisor >= 0;
      OneMore(p, divisor, hi);
    }
  }

  lemma {:induction false} LowPart(lo: int, i: nat)
    requires i <= 32 && Is32(lo)
    ensures 0 <= Shr(lo, i) < Pow2(32 - i) && Shr(lo, i) <= lo
    decreases i
  {
    hide Shr, BitOf;
    Pow2Of32();
    if i == 0 {
      ShiftAll(lo, 32);
    } else {
      LowPart(lo, i - 1);
      NextBit(lo, i - 1);
    }
  }

  lemma {:induction false} Pow2Grows(j: nat, k: nat)
    requires j <= k
    ensures Pow2(j) <= Pow2(k)
  {
    if j < k { Pow2Grows(j, k - 1); }
  }

  lemma FirstHalfStep(hi: int, i: nat)
    requires Is32(hi) && i < 32
    ensures Wrap32(Wrap32(Shr(hi, i + 1) * 2) + BitOf(hi, i)) == Shr(hi, i) && 0 <= Shr(hi, i) <= hi
  {
    hide Shr, BitOf, Pow2;
    NextBit(hi, i);
    LowPart(hi, i + 1);
    LowPart(hi, i);
  }

  /** Shifting a bit into a remainder below the divisor, whose top bit may fall out of the register. */
  lemma SubtractStep(r: int, bit: int, divisor: int)
    requires 0 <= r < divisor < TWO32 && 0 <= bit <= 1
    ensures var t, w := 2 * r + bit, Wrap32(Wrap32(r * 2) + bit);
            && (w >= divisor || Msb(r) <==> t >= divisor)
            && (if t >= divisor then Wrap32(w - divisor) == t - divisor < divisor else w == t)
  {
  }

  lemma QuotientStepExact(hi: int, lo: int, divisor: int, i: nat, q: int, r: int, subtract: bool)
    requires i < 32 && Is32(lo) && 0 <= hi < divisor < TWO32 && 0 <= q < Pow2(32 - (i + 1)) && 0 <= r < divisor
    requires q * divisor + r == Prefix(hi, lo, i + 1)
    requires subtract <==> 2 * r + BitOf(lo, i) >= divisor
    ensures var q' := if subtract then 2 * q + 1 else 2 * q;
            var r' := if subtract then 2 * r + BitOf(lo, i) - divisor else 2 * r + BitOf(lo, i);
            q' * divisor + r' == Prefix(hi, lo, i) && 0 <= q' < Pow2(32 - i)
  {
    hide Prefix, BitOf, Pow2;
    PrefixStep(hi, lo, i);
    NextBit(lo, i);
    var q' := if subtract then 2 * q + 1 else 2 * q;
    var r' := if subtract then 2 * r + BitOf(lo, i) - divisor else 2 * r + BitOf(lo, i);
    Distribute(q, divisor);
    QuotientFits(hi, lo, divisor, i, q', r');
  }

  lemma DoublingFits(q: int)
    requires 0 <= q < 0x8000_0000
    ensures Wrap32(q * 2) == 2 * q && Wrap32(Wrap32(q * 2) + 1) == 2 * q + 1
  {
  }

  lemma QuotientStep(hi: int, lo: int, divisor: int, i: nat, q: int, r: int, subtract: bool)
    requires i < 32 && Is32(lo) && 0 <= hi < divisor < TWO32 && 0 <= q < Pow2(32 - (i + 1)) && 0 <= r < divisor
    requires q * divisor + r == Prefix(hi, lo, i + 1)
    requires subtract <==> 2 * r + BitOf(lo, i) >= divisor
    ensures var q' := if subtract then Wrap32(Wrap32(q * 2) + 1) else Wrap32(q * 2);
            var r' := if subtract then 2 * r + BitOf(lo, i) - divisor else 2 * r + BitOf(lo, i);
            q' * divisor + r' == Prefix(hi, lo, i) && 0 <= q' < Pow2(32 - i)
  {
    hide Prefix, BitOf, Pow2, Wrap32;
    Pow2Grows(32 - (i + 1), 31);
    Pow2Of32();
    DoublingFits(q);
    QuotientStepExact(hi, lo, divisor, i, q, r, subtract);
  }

  lemma Distribute(q: int, divisor: int)
    ensures (2 * q + 1) * divisor == 2 * (q * divisor) + divisor && (2 * q) * divisor == 2 * (q * divisor)
  {
  }

  lemma StartOfSecondHalf(hi: int, lo: int)
    requires Is32(lo) && Is32(hi)
    ensures Prefix(hi, lo, 32) == hi && Prefix(hi, lo, 0) == TWO32 * hi + lo && Shr(hi, 0) == hi && Shr(hi, 32) == 0
    ensures Pow2(0) == 1 && Pow2(32) == TWO32 && Wrap32(0) == 0
  {
    Pow2Of32();
    ShiftAll(lo, 32);
    ShiftAll(hi, 32);
  }

  /** The two loops: with the high half below the divisor they divide the 64-bit number exactly. */
  method ShiftSubtract(hi: int, lo: int, divisor: int) returns (quotient: int, remainder: int)
    requires Is32(hi) && Is32(lo) && Is32(divisor) && hi < divisor
    ensures Is32(quotient) && 0 <= remainder < divisor && TWO32 * hi + lo == quotient * divisor + remainder
  {
    hide Pow2, Prefix, BitOf, Wrap32, Shr;
    quotient, remainder := 0, 0;
    StartOfSecondHalf(hi, lo);
    for i := 32 downto 0
      invariant quotient == 0 && remainder == Shr(hi, i) && 0 <= remainder <= hi
    {
      FirstHalfStep(hi, i);
      quotient := Wrap32(quotient * 2);
      remainder := Wrap32(Wrap32(remainder * 2) + BitOf(hi, i));
      if remainder >= divisor {
        remainder, quotient := Wrap32(remainder - divisor), Wrap32(quotient + 1);
      }
    }
    for i := 32 downto 0
      invariant 0 <= remainder < divisor && quotient * divisor + remainder == Prefix(hi, lo, i)
      invariant 0 <= quotient < Pow2(32 - i)
    {
      NextBit(lo, i);
      SubtractStep(remainder, BitOf(lo, i), divisor);
      QuotientStep(hi, lo, divisor, i, quotient, remainder, 2 * remainder + BitOf(lo, i) >= divisor);
      var overflow := Msb(remainder);
      quotient := Wrap32(quotient * 2);
      remainder := Wrap32(Wrap32(remainder * 2) + BitOf(lo, i));
      if remainder >= divisor || overflow {
        remainder, quotient := Wrap32(remainder - divisor), Wrap32(quotient + 1);
      }
    }
  }

  // ---------------------------------------------------------------------------
  // The arm for 32-bit compilers
  // ---------------------------------------------------------------------------

  const MIN32: int := -0x8000_0000

  lemma HighHalfBelow(hi: int, lo: int, divisor: int)
    requires Is32(hi) && Is32(lo) && Is32(divisor) && divisor > 0
    ensures (TWO32 * hi + lo) / divisor >= TWO32 <==> hi >= divisor
  {
    var a := TWO32 * hi + lo;
    var q := a / divisor;
    DivMod(a, divisor);
    if q < TWO32 {
      OneMore(divisor, TWO32, q);
    } else {
      assert divisor * (q - TWO32) >= 0;
    }
  }

  /** The overflow test and the loops: an unsigned division whose quotient must fit 32 bits. */
  method DivideMagnitudes(hi: int, lo: int, divisor: int) returns (overflow: bool, quotient: int, remainder: int)
    requires Is32(hi) && Is32(lo) && Is32(divisor) && divisor > 0
    ensures overflow <==> (TWO32 * hi + lo) / divisor >= TWO32
    ensures !overflow ==> quotient == (TWO32 * hi + lo) / divisor && remainder == (TWO32 * hi + lo) % divisor
    ensures !overflow ==> Is32(quotient) && Is32(remainder)
  {
    HighHalfBelow(hi, lo, divisor);
    overflow, quotient, remainder := hi >= divisor, 0, 0;
    if !overflow {
      quotient, remainder := ShiftSubtract(hi, lo, divisor);
      DivideUnique(TWO32 * hi + lo, divisor, quotient, remainder);
    }
  }

  /** Signs differ, and 2^31 * |b| <= |a| < (2^31 + 1) * |b| */
  predicate LeastInterval(a: int, b: int) {
    (a < 0) != (b < 0) && 0x8000_0000 * Abs(b) <= Abs(a) < 0x8000_0001 * Abs(b)
  }

  /** These are the operands whose quotient is the least number that fits. */
  lemma LeastQuotient(a: int, b: int)
    requires b != 0
    ensures Quotient(a, b) == MIN32 <==> LeastInterval(a, b)
  {
    var x, y := Abs(a), Abs(b);
    DivMod(x, y);
    if 0x8000_0000 * y <= x < 0x8000_0001 * y {
      DivideUnique(x, y, 0x8000_0000, x - 0x8000_0000 * y);
    }
  }

  /**
   Where the two arms part: a signed 64/32 division of operands of different signs with
   the dividend in one interval, where the quotient is -2^31, except 2^31 / -1; and -2^31 /
   -1 as a 32/32 division that keeps only the quotient,
   where the shift-and-subtract arm writes the remainder last.
   */
  predicate ArmsDiffer(d: seq<int>, divisor: int, dr: nat, dq: nat, signed: bool, quad: bool)
    requires DataRegisters(d) && Is32(divisor) && dr < 8 && dq < 8
  {
    && signed && divisor != 0
    && if quad then
         && LeastInterval(Dividend(d, dr, dq, signed, quad), Divisor(divisor, signed))
         && !(d[dr] == 0 && d[dq] == 0x8000_0000 && divisor == 0xffff_ffff)
       else
         d[dq] == 0x8000_0000 && divisor == 0xffff_ffff && dr == dq
  }

  /** The handler's arm for 32-bit compilers, against the other one. */
  method DivNarrow(d: seq<int>, divisor: int, dr: nat, dq: nat, signed: bool, quad: bool) returns (r: Outcome)
    requires DataRegisters(d) && Is32(divisor) && dr < 8 && dq < 8
    ensures Undefined(d, divisor, dr, dq, signed, quad) ==> r == Overflowed
    ensures !Undefined(d, divisor, dr, dq, signed, quad) ==>
              (r == DivWide(d, divisor, dr, dq, signed, quad) <==> !ArmsDiffer(d, divisor, dr, dq, signed, quad))
    ensures ArmsDiffer(d, divisor, dr, dq, signed, quad)
            ==> r == if quad then Overflowed else Divided(d[dq := 0], true, false)
  {
    hide LeastInterval;
    if divisor == 0 {
      return ZeroDivide;
    }
    if quad {
      if signed {
        r := DivNarrowSigned(d, divisor, dr, dq);
        hide DivWide, ArmsDiffer, Undefined;
        if ArmsDiffer(d, divisor, dr, dq, true, true) && !Undefined(d, divisor, dr, dq, true, true) {
          DifferentIsDivided(d, divisor, dr, dq);
        }
      } else {
        r := DivNarrowUnsigned(d, divisor, dr, dq);
      }
    } else if signed {
      if d[dq] == 0x8000_0000 && divisor == 0xffff_ffff {
        r := Divided(d[dq := 0x8000_0000][dr := 0], true, false);
        LeastByMinusOne(d, dr, dq);
        return;
      }
      r := Store(d, dr, dq, Quotient(Signed32(d[dq]), Signed32(divisor)),
          Remainder(Signed32(d[dq]), Signed32(divisor)));
    } else {
      r := Store(d, dr, dq, d[dq] / divisor, d[dq] % divisor);
    }
  }

  lemma DifferentIsDivided(d: seq<int>, divisor: int, dr: nat, dq: nat)
    requires DataRegisters(d) && Is32(divisor) && dr < 8 && dq < 8
    requires ArmsDiffer(d, divisor, dr, dq, true, true) && !Undefined(d, divisor, dr, dq, true, true)
    ensures DivWide(d, divisor, dr, dq, true, true).Divided?
  {
    LeastQuotient(Dividend(d, dr, dq, true, true), Signed32(divisor));
    WideSigned(d, divisor, dr, dq);
    hide DivWide, Quotient, Remainder, LeastInterval, Dividend, Undefined;
  }

  method DivNarrowUnsigned(d: seq<int>, divisor: int, dr: nat, dq: nat) returns (r: Outcome)
    requires DataRegisters(d) && Is32(divisor) && dr < 8 && dq < 8 && divisor != 0
    ensures r == DivWide(d, divisor, dr, dq, false, true)
  {
    var overflow, quotient, remainder := DivideMagnitudes(d[dr], d[dq], divisor);
    if overflow {
      return Overflowed;
    }
    r := Store(d, dr, dq, quotient, remainder);
  }

  lemma LeastByMinusOne(d: seq<int>, dr: nat, dq: nat)
    requires DataRegisters(d) && dr < 8 && dq < 8 && d[dq] == 0x8000_0000
    ensures DivWide(d, 0xffff_ffff, dr, dq, true, false) == Divided(d[dr := 0][dq := 0x8000_0000], true, false)
    ensures dr == dq ==> d[dq := 0x8000_0000][dr := 0] == d[dq := 0]
    ensures dr == dq ==> d[dr := 0][dq := 0x8000_0000][dq] == 0x8000_0000 && d[dq := 0][dq] == 0
  {
    assert Quotient(MIN32, -1) == 0x8000_0000 && Remainder(MIN32, -1) == 0;
  }

  /** The signed division of the other arm, on the magnitudes. */
  lemma WideSigned(d: seq<int>, divisor: int, dr: nat, dq: nat)
    requires DataRegisters(d) && Is32(divisor) && dr < 8 && dq < 8 && divisor != 0
             && !Undefined(d, divisor, dr, dq, true, true)
    ensures var a, b := Dividend(d, dr, dq, true, true), Signed32(divisor);
            var q := Quotient(a, b);
            DivWide(d, divisor, dr, dq, true, true)
            == if MIN32 <= q <= 0x7fff_ffff then Store(d, dr, dq, q, Remainder(a, b)) else Overflowed
  {
    hide Quotient, Remainder, Dividend, Store;
    Fits32(Quotient(Dividend(d, dr, dq, true, true), Signed32(divisor)));
  }

  lemma Fits32(q: int)
    ensures q == Signed32(Wrap32(q)) <==> MIN32 <= q <= 0x7fff_ffff
  {
  }

  /** The signs given back to quotient and remainder. */
  lemma Resigned(a: int, b: int, q: int, r: int)
    requires b != 0 && q == Abs(a) / Abs(b) && r == Abs(a) % Abs(b) && Is32(q) && Is32(r)
    ensures var q1 := if a < 0 then Negated(q) else q;
            Wrap32(if b < 0 then Negated(q1) else q1) == Wrap32(Quotient(a, b))
    ensures Wrap32(if a < 0 then Negated(r) else r) == Wrap32(Remainder(a, b))
  {
    NegatedTwice(q);
    NegatedTwice(r);
    hide Wrap32, Negated;
  }

  lemma NegatedTwice(q: int)
    requires Is32(q)
    ensures Wrap32(q) == q && Wrap32(Negated(q)) == Wrap32(-q) && Wrap32(Negated(Negated(q))) == Wrap32(q)
  {
  }

  /** The magnitudes the signed division works on. */
  lemma Magnitudes(hi: int, lo: int, divisor: int)
    requires Is32(hi) && Is32(lo) && Is32(divisor)
    ensures var a, b := Signed64(TWO32 * hi + lo), Signed32(divisor);
            && (a < 0 <==> Msb(hi)) && (b < 0 <==> Msb(divisor))
            && Abs(a) == (if Msb(hi) then TWO32 * Wrap32(Negated(hi) - (if lo != 0 then 1 else 0)) + Negated(lo)
                else TWO32 * hi + lo)
            && Abs(b) == (if Msb(divisor) then Negated(divisor) else divisor)
  {
    NegateHalves(lo, hi);
  }

  /** 2^63 / 1 does not fit, and neither does any quotient of magnitude above 2^31; -2^31 does, but not here. */
  lemma SignedCases(d: seq<int>, divisor: int, dr: nat, dq: nat, m: int)
    requires DataRegisters(d) && Is32(divisor) && dr < 8 && dq < 8 && divisor != 0
    requires !(d[dr] == 0 && d[dq] == 0x8000_0000 && divisor == 0xffff_ffff)
    requires m == Abs(Dividend(d, dr, dq, true, true)) / Abs(Signed32(divisor))
    ensures Undefined(d, divisor, dr, dq, true, true) || ArmsDiffer(d, divisor, dr, dq, true, true) ==> m > 0x7fff_ffff
    ensures m > 0x7fff_ffff && !Undefined(d, divisor, dr, dq, true, true)
            && !ArmsDiffer(d, divisor, dr, dq, true, true) ==>
              DivWide(d, divisor, dr, dq, true, true) == Overflowed
    ensures 0 <= m <= 0x7fff_ffff ==>
              var a, b := Dividend(d, dr, dq, true, true), Signed32(divisor);
              DivWide(d, divisor, dr, dq, true, true) == Store(d, dr, dq, Quotient(a, b), Remainder(a, b))
  {
    var a, b := Dividend(d, dr, dq, true, true), Signed32(divisor);
    if Undefined(d, divisor, dr, dq, true, true) {
      assert a == -0x8000_0000_0000_0000 && b == -1;
    } else {
      WideSigned(d, divisor, dr, dq);
    }
    LeastQuotient(a, b);
    hide DivWide, Store, Remainder, Dividend, Signed32, Wrap32, LeastInterval;
  }

  /** Both ways of parting do happen. */
  lemma ArmsCanDiffer()
    ensures ArmsDiffer([0xffff_ffff, 0x8000_0000, 0, 0, 0, 0, 0, 0], 1, 0, 1, true, true)
    ensures ArmsDiffer([0x8000_0000, 0, 0, 0, 0, 0, 0, 0], 0xffff_ffff, 0, 0, true, false)
  {
    assert LeastInterval(MIN32, 1);
  }

  lemma QuotientAtLeast(x: nat, y: int, k: nat)
    requires y > 0
    ensures x / y >= k <==> x >= k * y
  {
    DivMod(x, y);
    SmallQuotient(x, y);
    if x / y < k { OneMore(y, k, x / y); } else if x / y > k { OneMore(y, x / y, k); }
  }

  /** The operands have no quotient of 32 bits. */
  predicate NoQuotient(a: int, b: int, signed: bool) {
    Abs(a) >= (if !signed then TWO32 else if (a < 0) == (b < 0) then 0x8000_0000 else 0x8000_0001) * Abs(b)
  }

  /** A zero divisor traps, and a 64/32 division overflows exactly when its quotient has no 32 bits. */
  lemma DivlOutcome(d: seq<int>, divisor: int, dr: nat, dq: nat, signed: bool, quad: bool)
    requires DataRegisters(d) && Is32(divisor) && dr < 8 && dq < 8 && !Undefined(d, divisor, dr, dq, signed, quad)
    ensures DivWide(d, divisor, dr, dq, signed, quad).ZeroDivide? <==> divisor == 0
    ensures DivWide(d, divisor, dr, dq, signed, quad).Overflowed? <==>
              divisor != 0 && quad && NoQuotient(Dividend(d, dr, dq, signed, quad), Divisor(divisor, signed), signed)
  {
    var a, b := Dividend(d, dr, dq, signed, quad), Divisor(divisor, signed);
    if divisor != 0 && quad {
      Fits32(Quotient(a, b));
      QuotientAtLeast(Abs(a), Abs(b), TWO32);
      QuotientAtLeast(Abs(a), Abs(b), 0x8000_0000);
      QuotientAtLeast(Abs(a), Abs(b), 0x8000_0001);
      SmallQuotient(Abs(a), Abs(b));
      hide Dividend, Store, Wrap32;
    }
  }

  lemma ZeroQuotient(a: int, b: int)
    requires b != 0
    ensures Quotient(a, b) == 0 <==> Abs(a) < Abs(b)
  {
    QuotientAtLeast(Abs(a), Abs(b), 1);
    SmallQuotient(Abs(a), Abs(b));
  }

  /** -2^31 / -1, the one 32/32 signed division whose quotient no register holds */
  predicate LeastByOne(d: seq<int>, divisor: int, dq: nat, signed: bool, quad: bool)
    requires DataRegisters(d) && dq < 8
  {
    signed && !quad && d[dq] == 0x8000_0000 && divisor == 0xffff_ffff
  }

  /**
   The registers hold the quotient and the remainder of the operands, or the quotient alone
   if they are the same register, except that -2^31 / -1 as a 32/32 division gives back
   2^31. Z says that the quotient is zero, the divisor being larger than the dividend, and
   N that its register's top bit is set; no other register changes.
   */
  lemma DivlIsDivision(d: seq<int>, divisor: int, dr: nat, dq: nat, signed: bool, quad: bool)
    requires DataRegisters(d) && Is32(divisor) && dr < 8 && dq < 8 && !Undefined(d, divisor, dr, dq, signed, quad)
    requires DivWide(d, divisor, dr, dq, signed, quad).Divided?
    ensures var r := DivWide(d, divisor, dr, dq, signed, quad);
            var a, b := Dividend(d, dr, dq, signed, quad), Divisor(divisor, signed);
            var q := Divisor(r.d[dq], signed);
            && |r.d| == 8 && (forall i | 0 <= i < 8 && i != dr && i != dq :: r.d[i] == d[i])
            && (r.z <==> r.d[dq] == 0) && (r.z <==> Abs(a) < Abs(b)) && (r.n <==> r.d[dq] >= 0x8000_0000)
            && if LeastByOne(d, divisor, dq, signed, quad) then
                 r.d[dq] == 0x8000_0000 && (dr != dq ==> r.d[dr] == 0)
               else
                 && Abs(a - q * b) < Abs(b) && (a == q * b || (a - q * b < 0) == (a < 0))
                 && (dr != dq ==> Divisor(r.d[dr], signed) == a - q * b)
  {
    var a, b := Dividend(d, dr, dq, signed, quad), Divisor(divisor, signed);
    if LeastByOne(d, divisor, dq, signed, quad) {
      assert Quotient(a, b) == 0x8000_0000 && Remainder(a, b) == 0;
    } else {
      ZeroQuotient(a, b);
      QuotientRemainder(a, b);
      QuotientInRange(d, divisor, dr, dq, signed, quad);
      Held(Quotient(a, b), signed);
      Held(Remainder(a, b), signed);
      hide Quotient, Remainder, Dividend, Wrap32;
    }
  }

  lemma Held(x: int, signed: bool)
    requires if signed then MIN32 <= x <= 0x7fff_ffff else Is32(x)
    ensures Divisor(Wrap32(x), signed) == x
  {
  }

  lemma QuotientInRange(d: seq<int>, divisor: int, dr: nat, dq: nat, signed: bool, quad: bool)
    requires DataRegisters(d) && Is32(divisor) && dr < 8 && dq < 8 && !Undefined(d, divisor, dr, dq, signed, quad)
    requires DivWide(d, divisor, dr, dq, signed, quad).Divided?
    requires !(signed && !quad && d[dq] == 0x8000_0000 && divisor == 0xffff_ffff)
    ensures var a, b := Dividend(d, dr, dq, signed, quad), Divisor(divisor, signed);
            && (if signed then MIN32 <= Quotient(a, b) <= 0x7fff_ffff else Is32(Quotient(a, b)))
            && (if signed then MIN32 <= Remainder(a, b) <= 0x7fff_ffff else Is32(Remainder(a, b)))
  {
    var a, b := Dividend(d, dr, dq, signed, quad), Divisor(divisor, signed);
    hide Quotient, Remainder, Store;
    QuotientRemainder(a, b);
    QuotientSize(a, b);
    Fits32(Quotient(a, b));
  }

  lemma QuotientSize(a: int, b: int)
    requires b != 0
    ensures b == 1 ==> Quotient(a, b) == a
    ensures b == -1 ==> Quotient(a, b) == -a
    ensures Abs(b) >= 2 ==> 2 * Abs(Quotient(a, b)) <= Abs(a)
    ensures a >= 0 && b > 0 ==> Quotient(a, b) >= 0
  {
    SmallQuotient(Abs(a), Abs(b));
  }

  method DivNarrowSigned(d: seq<int>, divisor: int, dr: nat, dq: nat) returns (r: Outcome)
    requires DataRegisters(d) && Is32(divisor) && dr < 8 && dq < 8 && divisor != 0
    ensures Undefined(d, divisor, dr, dq, true, true) || ArmsDiffer(d, divisor, dr, dq, true, true) ==> r == Overflowed
    ensures !Undefined(d, divisor, dr, dq, true, true) && !ArmsDiffer(d, divisor, dr, dq, true, true) ==>
              r == DivWide(d, divisor, dr, dq, true, true)
  {
    var hi, lo, magnitude := d[dr], d[dq], divisor;
    if hi == 0 && lo == 0x8000_0000 && divisor == 0xffff_ffff {
      r := Divided(d[dr := 0][dq := 0x8000_0000], true, false);
      assert Quotient(0x8000_0000, -1) == MIN32 && Remainder(0x8000_0000, -1) == 0;
      WideSigned(d, divisor, dr, dq);
      return;
    }
    hide Quotient, Remainder, DivWide, ArmsDiffer, Undefined, Wrap32, Negated, Signed32, Signed64;
    Magnitudes(hi, lo, divisor);
    var dividendNeg, divisorNeg := Msb(hi), Msb(divisor);
    if dividendNeg {
      hi, lo := Wrap32(Negated(hi) - (if lo != 0 then 1 else 0)), Negated(lo);
    }
    if divisorNeg {
      magnitude := Negated(divisor);
    }
    var overflow, quotient, remainder := DivideMagnitudes(hi, lo, magnitude);
    ghost var a, b := Dividend(d, dr, dq, true, true), Signed32(divisor);
    SignedCases(d, divisor, dr, dq, Abs(a) / Abs(b));
    if overflow || quotient > 0x7fff_ffff {
      return Overflowed;
    }
    Resigned(a, b, quotient, remainder);
    if dividendNeg {
      remainder, quotient := Negated(remainder), Negated(quotient);
    }
    if divisorNeg {
      quotient := Negated(quotient);
    }
    r := Store(d, dr, dq, quotient, remainder);
  }
}
