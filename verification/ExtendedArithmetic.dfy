/**
 The extend-flag arithmetic of the Musashi core (tools/r68k/musashi/m68k_in.c addx,
 subx; m68kcpu.h flag macros): chains of ADDX.L and SUBX.L over memory are
 multi-precision addition and subtraction.
 */
module ExtendedArithmetic {
  import opened Memory68k
  import opened Cpu68k

  // ---------------------------------------------------------------------------
  // One limb
  // ---------------------------------------------------------------------------

  const TWO32: int := 0x1_0000_0000

  /** XFLAG_AS_1 */
  function XAs1(x: bv32): bv32 { (x >> 8) & 1 }

  /** The bit of FLAG_X and FLAG_C that counts. */
  function Carry(flag: bv32): (r: int)
    ensures r == 0 || r == 1
  {
    if flag & 0x100 == 0 then 0 else 1
  }

  /** CFLAG_ADD_32 */
  function CflagAdd(s: bv32, d: bv32, r: bv32): bv32 { ((s & d) | (!r & (s | d))) >> 23 }

  /** CFLAG_SUB_32 */
  function CflagSub(s: bv32, d: bv32, r: bv32): bv32 { ((s & r) | (!d & (s | r))) >> 23 }

  function AddLimb(s: bv32, d: bv32, x: bv32): bv32 { s + d + XAs1(x) }

  function SubLimb(s: bv32, d: bv32, x: bv32): bv32 { d - s - XAs1(x) }

  function Wide(a: bv32, b: bv32, c: bv32): bv64 { (a as bv64) + (b as bv64) + (c as bv64) }

  function CarryOut(flag: bv32): bv64 { if flag & 0x100 == 0 then 0 else 0x1_0000_0000 }

  function Extended(r: bv32, carry: bv64): bv64 { (r as bv64) + carry }

  function WithCarry(r: bv32, flag: bv32): bv64 { Extended(r, CarryOut(flag)) }

  function Nat64(a: bv64): int { a as int }

  // The sum of two limbs and a carry bit, with one definition put back at a time.

  lemma AddBits(s: bv32, d: bv32, b: bv32)
    requires b == 0 || b == 1
    ensures (s as bv64) + (d as bv64) + (b as bv64)
         == ((s + d + b) as bv64) + if (((s & d) | (!(s + d + b) & (s | d))) >> 23) & 0x100
             == 0 then 0 else 0x1_0000_0000
  {
  }

  lemma AddBitsWide(s: bv32, d: bv32, b: bv32)
    requires b == 0 || b == 1
    ensures Wide(s, d, b)
         == Extended(s + d + b, if (((s & d) | (!(s + d + b) & (s | d))) >> 23) & 0x100 == 0 then 0 else 0x1_0000_0000)
  {
    AddBits(s, d, b);
  }

  lemma AddBitsCarry(s: bv32, d: bv32, b: bv32)
    requires b == 0 || b == 1
    ensures Wide(s, d, b) == Extended(s + d + b, CarryOut(((s & d) | (!(s + d + b) & (s | d))) >> 23))
  {
    hide Wide, Extended;
    AddBitsWide(s, d, b);
  }

  lemma AddBitsFlag(s: bv32, d: bv32, b: bv32)
    requires b == 0 || b == 1
    ensures Wide(s, d, b) == Extended(s + d + b, CarryOut(CflagAdd(s, d, s + d + b)))
  {
    hide Wide, Extended, CarryOut;
    AddBitsCarry(s, d, b);
  }

  lemma XAs1IsCarry(x: bv32)
    ensures Nat(XAs1(x)) == Carry(x) && (XAs1(x) == 0 || XAs1(x) == 1)
  {
  }

  lemma AddWide(s: bv32, d: bv32, x: bv32)
    ensures Wide(s, d, XAs1(x)) == WithCarry(AddLimb(s, d, x), CflagAdd(s, d, AddLimb(s, d, x)))
  {
    hide Wide, Extended, CarryOut, CflagAdd, XAs1, Carry, Nat;
    XAs1IsCarry(x);
    AddBitsFlag(s, d, XAs1(x));
  }

  lemma WideValue(a: bv32, b: bv32, c: bv32)
    requires c == 0 || c == 1
    ensures Nat64(Wide(a, b, c)) == Nat(a) + Nat(b) + Nat(c)
  {
  }

  lemma CarryOutCases(flag: bv32)
    ensures (CarryOut(flag) == 0 && Carry(flag) == 0) || (CarryOut(flag) == 0x1_0000_0000 && Carry(flag) == 1)
  {
  }

  lemma ExtendValue(a: bv32)
    ensures Nat64((a as bv64) + 0) == Nat(a) && Nat64((a as bv64) + 0x1_0000_0000) == Nat(a) + TWO32
  {
  }

  lemma ExtendedValue(a: bv32)
    ensures Nat64(Extended(a, 0)) == Nat(a) && Nat64(Extended(a, 0x1_0000_0000)) == Nat(a) + TWO32
  {
    hide Nat, Nat64;
    ExtendValue(a);
  }

  lemma WithCarryValue(a: bv32, flag: bv32)
    ensures Nat64(WithCarry(a, flag)) == Nat(a) + TWO32 * Carry(flag)
  {
    hide Nat, Nat64, CarryOut, Carry, Extended;
    CarryOutCases(flag);
    ExtendedValue(a);
  }

  lemma AddLimbValue(s: bv32, d: bv32, x: bv32)
    ensures var r := AddLimb(s, d, x);
            Nat(r) + TWO32 * Carry(CflagAdd(s, d, r)) == Nat(s) + Nat(d) + Carry(x)
  {
    hide Nat, Nat64, Wide, WithCarry, AddLimb, CflagAdd, XAs1;
    AddWide(s, d, x);
    XAs1IsCarry(x);
    WideValue(s, d, XAs1(x));
    WithCarryValue(AddLimb(s, d, x), CflagAdd(s, d, AddLimb(s, d, x)));
  }

  lemma AddBack(s: bv32, d: bv32, x: bv32)
    ensures AddLimb(s, d - s - XAs1(x), x) == d
  {
    hide XAs1;
  }

  lemma SubIsAddBack(s: bv32, d: bv32, x: bv32)
    ensures AddLimb(s, SubLimb(s, d, x), x) == d
  {
    hide AddLimb, XAs1;
    AddBack(s, d, x);
  }

  lemma BorrowIsCarry(s: bv32, d: bv32, r: bv32)
    ensures CflagSub(s, d, r) == CflagAdd(s, r, d)
  {
  }

  lemma SubLimbValue(s: bv32, d: bv32, x: bv32)
    ensures var r := SubLimb(s, d, x);
            Nat(r) - TWO32 * Carry(CflagSub(s, d, r)) == Nat(d) - Nat(s) - Carry(x)
  {
    hide Nat, AddLimb, SubLimb, CflagAdd, CflagSub, Carry;
    var r := SubLimb(s, d, x);
    BorrowIsCarry(s, d, r);
    SubIsAddBack(s, d, x);
    AddLimbValue(s, r, x);
  }

  // ---------------------------------------------------------------------------
  // Numbers of n limbs in memory
  // ---------------------------------------------------------------------------

  /** An address register after `k` predecrements by four. */
  function Below(a: bv32, k: nat): bv32 {
    if k == 0 then a else Minus(Below(a, k - 1), 4)
  }

  function LimbAddress(mask: bv32, a: bv32, k: nat): bv32 { Bus(mask, Below(a, k)) }

  function Limb(m: Memory, mask: bv32, a: bv32, k: nat): bv32 { Read32(m, LimbAddress(mask, a, k)) }

  function Base(n: nat): (r: int)
    ensures r >= 1
  {
    if n == 0 then 1 else TWO32 * Base(n - 1)
  }

  /** The n-limb number that ends just below `a`, least significant limb last in memory. */
  function Number(m: Memory, mask: bv32, a: bv32, n: nat): int {
    if n == 0 then 0 else Number(m, mask, a, n - 1) + Base(n - 1) * Nat(Limb(m, mask, a, n))
  }

  lemma {:induction false} NumberBounds(m: Memory, mask: bv32, a: bv32, n: nat)
    ensures 0 <= Number(m, mask, a, n) < Base(n)
  {
    hide Nat, Limb;
    if n > 0 {
      NumberBounds(m, mask, a, n - 1);
      TimesDigit(Base(n - 1), Nat(Limb(m, mask, a, n)), TWO32);
    }
  }

  lemma TimesDigit(base: int, digit: int, radix: int)
    requires base >= 1 && 0 <= digit < radix
    ensures 0 <= base * digit && base * digit + base <= radix * base
  {
    assert base * digit + base == base * (digit + 1);
    assert base * (digit + 1) <= base * radix;
  }

  /** Writing limb i of the number below `a` leaves the n limbs below `b` alone. */
  predicate ApartFrom(mask: bv32, a: bv32, b: bv32, n: nat) {
    forall i, k | 1 <= i <= n && 1 <= k <= n :: LongsApart(LimbAddress(mask, a, i), LimbAddress(mask, b, k))
  }

  lemma TwoOperandsApart()
    ensures ApartFrom(0xffffff, 0x1000, 0x2000, 2) && LimbsApart(0xffffff, 0x1000, 2)
  {
    assert LimbAddress(0xffffff, 0x1000, 1) == 0xffc && LimbAddress(0xffffff, 0x2000, 1) == 0x1ffc;
    assert LimbAddress(0xffffff, 0x1000, 2) == 0xff8 && LimbAddress(0xffffff, 0x2000, 2) == 0x1ff8;
  }

  /** Different limbs of the number below `a` do not overlap. */
  predicate LimbsApart(mask: bv32, a: bv32, n: nat) {
    forall i, k | 1 <= i <= n && 1 <= k <= n && i != k :: LongsApart(LimbAddress(mask, a, i), LimbAddress(mask, a, k))
  }

  lemma {:induction false} SameLimbs(m: Memory, m': Memory, mask: bv32, a: bv32, n: nat)
    requires forall k | 1 <= k <= n :: Limb(m', mask, a, k) == Limb(m, mask, a, k)
    ensures Number(m', mask, a, n) == Number(m, mask, a, n)
  {
    hide Nat, Limb, Base;
    if n > 0 { SameLimbs(m, m', mask, a, n - 1); }
  }

  /** After `i` of the `n` instructions: sign is +1 for a chain of ADDX and -1 for a chain of SUBX. */
  ghost predicate Chained(m0: Memory, m: Memory, mask: bv32, a: bv32, b: bv32, n: nat, i: nat, sign: int,
                          x0: bv32, x: bv32, z0: bv32, z: bv32)
    requires i <= n
  {
    && Number(m, mask, a, i) + sign * (Base(i) * Carry(x))
       == Number(m0, mask, a, i) + sign * (Number(m0, mask, b, i) + Carry(x0))
    && (z == 0 <==> z0 == 0 && Number(m, mask, a, i) == 0)
    && (forall k | 1 <= k <= n :: Limb(m, mask, b, k) == Limb(m0, mask, b, k))
    && (forall k | i < k <= n :: Limb(m, mask, a, k) == Limb(m0, mask, a, k))
  }

  /** What one instruction does to the limbs. */
  lemma WriteLimb(m: Memory, mask: bv32, a: bv32, b: bv32, n: nat, i: nat, r: bv32)
    requires 1 <= i <= n && ApartFrom(mask, a, b, n) && LimbsApart(mask, a, n)
    ensures var m' := Write32(m, LimbAddress(mask, a, i), r);
            && Limb(m', mask, a, i) == r
            && (forall k | 1 <= k <= n && k != i :: Limb(m', mask, a, k) == Limb(m, mask, a, k))
            && (forall k | 1 <= k <= n :: Limb(m', mask, b, k) == Limb(m, mask, b, k))
  {
    hide Write32, Read32, LimbAddress, LongsApart;
    var p := LimbAddress(mask, a, i);
    ReadBack32(m, p, r);
    forall k | 1 <= k <= n && k != i
      ensures Limb(Write32(m, p, r), mask, a, k) == Limb(m, mask, a, k)
    {
      LongKeepsLong(m, p, r, LimbAddress(mask, a, k));
    }
    forall k | 1 <= k <= n
      ensures Limb(Write32(m, p, r), mask, b, k) == Limb(m, mask, b, k)
    {
      LongKeepsLong(m, p, r, LimbAddress(mask, b, k));
    }
  }

  lemma CarryStep(radix: int, base: int, sign: int, r: int, s: int, d: int, carry: int, carry': int)
    requires r + sign * (radix * carry') == d + sign * (s + carry)
    ensures base * r + sign * ((radix * base) * carry') == base * d + sign * (base * s) + sign * (base * carry)
  {
    SameMultiple(base, r + sign * (radix * carry'), d + sign * (s + carry));
  }

  lemma SameMultiple(base: int, a: int, b: int)
    requires a == b
    ensures base * a == base * b
  {
  }

  /** One more limb: the induction step of both chains. */
  lemma ChainStep(m0: Memory, m: Memory, mask: bv32, a: bv32, b: bv32, n: nat, i: nat, sign: int,
                  x0: bv32, x: bv32, x': bv32, z0: bv32, z: bv32, z': bv32, r: bv32)
    requires i < n && (sign == 1 || sign == -1) && ApartFrom(mask, a, b, n) && LimbsApart(mask, a, n)
    requires Chained(m0, m, mask, a, b, n, i, sign, x0, x, z0, z)
    requires Nat(r) + sign * (TWO32 * Carry(x'))
          == Nat(Limb(m, mask, a, i + 1)) + sign * (Nat(Limb(m, mask, b, i + 1)) + Carry(x))
    requires z' == 0 <==> z == 0 && Nat(r) == 0
    ensures Chained(m0, Write32(m, LimbAddress(mask, a, i + 1), r), mask, a, b, n, i + 1, sign, x0, x', z0, z')
  {
    hide Nat, Limb, Write32, LimbAddress, ApartFrom, LimbsApart, Carry, Number, Base;
    var m' := Write32(m, LimbAddress(mask, a, i + 1), r);
    WriteLimb(m, mask, a, b, n, i + 1, r);
    SameLimbs(m, m', mask, a, i);
    NumberBounds(m, mask, a, i);
    NumberStep(m', mask, a, i);
    NumberStep(m0, mask, a, i);
    NumberStep(m0, mask, b, i);
    var s, d := Nat(Limb(m0, mask, b, i + 1)), Nat(Limb(m0, mask, a, i + 1));
    assert Nat(Limb(m, mask, b, i + 1)) == s && Nat(Limb(m, mask, a, i + 1)) == d;
    SumStep(TWO32, Base(i), sign, Number(m, mask, a, i), Number(m0, mask, a, i), Number(m0, mask, b, i), Nat(r), s, d,
        Carry(x0), Carry(x), Carry(x'));
    ZeroStep(Base(i), Number(m, mask, a, i), Nat(r));
  }

  lemma NumberStep(m: Memory, mask: bv32, a: bv32, i: nat)
    ensures Number(m, mask, a, i + 1) == Number(m, mask, a, i) + Base(i) * Nat(Limb(m, mask, a, i + 1))
    ensures Base(i + 1) == TWO32 * Base(i) && Base(i) >= 1
  {
    hide Nat, Limb;
  }

  /** One more digit of a sum or difference, in any radix. */
  lemma SumStep(radix: int, base: int, sign: int, low: int, lowA: int, lowB: int, r: int, s: int, d: int, carry0: int,
                carry: int, carry': int)
    requires low + sign * (base * carry) == lowA + sign * (lowB + carry0)
    requires r + sign * (radix * carry') == d + sign * (s + carry)
    ensures low + base * r + sign * ((radix * base) * carry')
         == lowA + base * d + sign * (lowB + base * s + carry0)
  {
    CarryStep(radix, base, sign, r, s, d, carry, carry');
    assert sign * (lowB + base * s + carry0) == sign * (lowB + carry0) + sign * (base * s);
  }

  lemma ZeroStep(base: int, low: int, r: int)
    requires base >= 1 && low >= 0 && r >= 0
    ensures low + base * r == 0 <==> low == 0 && r == 0
  {
    if r > 0 { assert base * r >= 1; }
  }

  // ---------------------------------------------------------------------------
  // Signs
  // ---------------------------------------------------------------------------

  /** VFLAG_ADD_32, VFLAG_SUB_32 and NFLAG_32 */
  function VflagAdd(s: bv32, d: bv32, r: bv32): bv32 { ((s ^ r) & (d ^ r)) >> 24 }
  function VflagSub(s: bv32, d: bv32, r: bv32): bv32 { ((s ^ d) & (r ^ d)) >> 24 }
  function Nflag(r: bv32): bv32 { r >> 24 }

  predicate Negative(a: bv32) { a & 0x8000_0000 != 0 }

  lemma NegativeIsHigh(a: bv32)
    ensures Negative(a) <==> Nat(a) >= 0x8000_0000
  {
  }

  function Bit(b: bool): int { if b then 1 else 0 }

  /** The sign and carry flags, read from the operands' and the result's signs. */
  lemma AddFlagBits(s: bv32, d: bv32, r: bv32)
    ensures Set80(Nflag(r)) <==> Negative(r)
    ensures Set80(VflagAdd(s, d, r)) <==> Negative(s) == Negative(d) != Negative(r)
    ensures Carry(CflagAdd(s, d, r)) == Bit((Negative(s) && Negative(d))
            || (!Negative(r) && (Negative(s) || Negative(d))))
  {
  }

  lemma SubFlagBits(s: bv32, d: bv32, r: bv32)
    ensures Set80(Nflag(r)) <==> Negative(r)
    ensures Set80(VflagSub(s, d, r)) <==> Negative(s) != Negative(d) && Negative(d) != Negative(r)
    ensures Carry(CflagSub(s, d, r)) == Bit((Negative(s) && Negative(r))
            || (!Negative(d) && (Negative(s) || Negative(r))))
  {
  }

  /** The two's complement reading of n limbs. */
  function Signed(m: Memory, mask: bv32, a: bv32, n: nat): int {
    Number(m, mask, a, n) - if 2 * Number(m, mask, a, n) >= Base(n) then Base(n) else 0
  }

  /** A value that n limbs can hold in two's complement. */
  predicate Fits(value: int, n: nat) { -Base(n) <= 2 * value < Base(n) }

  lemma TopHalf(base: int, low: int, digit: int)
    requires base >= 1 && 0 <= low < base && 0 <= digit < TWO32
    ensures 2 * (low + base * digit) >= TWO32 * base <==> digit >= 0x8000_0000
  {
    if digit >= 0x8000_0000 {
      assert base * (2 * digit) >= base * TWO32;
    } else {
      assert base * (2 * digit + 2) <= base * TWO32;
    }
  }

  lemma SignIsTopBit(m: Memory, mask: bv32, a: bv32, n: nat)
    requires n > 0
    ensures 2 * Number(m, mask, a, n) >= Base(n) <==> Negative(Limb(m, mask, a, n))
    ensures Signed(m, mask, a, n) == Number(m, mask, a, n) - Base(n) * Bit(Negative(Limb(m, mask, a, n)))
  {
    hide Limb, Nat, Negative, Number, Base;
    NumberStep(m, mask, a, n - 1);
    NumberBounds(m, mask, a, n - 1);
    NegativeIsHigh(Limb(m, mask, a, n));
    TopHalf(Base(n - 1), Number(m, mask, a, n - 1), Nat(Limb(m, mask, a, n)));
  }

  /** Two values that differ by a multiple of the modulus are equal if both are in range. */
  lemma InRangeExactlyWhenEqual(base: int, number: int, negative: bool, wraps: int)
    requires base >= 2 && 0 <= number < base && (negative <==> 2 * number >= base)
    ensures -base <= 2 * (number + base * wraps) < base <==> wraps == -Bit(negative)
  {
    if wraps >= 1 {
      assert base * wraps >= base;
    } else if wraps <= -2 {
      assert base * wraps <= -2 * base;
    }
  }

  /** Overflow of the whole number shows in the last limb's V flag. */
  lemma Overflow(m0: Memory, m: Memory, mask: bv32, a: bv32, b: bv32, n: nat, sign: int, carry0: int, carry: int)
    requires n > 0 && (sign == 1 || sign == -1)
    requires Number(m, mask, a, n) + sign * (Base(n) * carry)
             == Number(m0, mask, a, n) + sign * (Number(m0, mask, b, n) + carry0)
    ensures Fits(Signed(m0, mask, a, n) + sign * (Signed(m0, mask, b, n) + carry0), n)
       <==> sign * carry - Bit(Negative(Limb(m0, mask, a, n))) - sign * Bit(Negative(Limb(m0, mask, b, n)))
            == -Bit(Negative(Limb(m, mask, a, n)))
  {
    hide Limb, Nat, Negative, Number, Base, Signed;
    SignIsTopBit(m0, mask, a, n);
    SignIsTopBit(m0, mask, b, n);
    SignIsTopBit(m, mask, a, n);
    NumberBounds(m, mask, a, n);
    NumberStep(m, mask, a, n - 1);
    var base, ba, bb := Base(n), Bit(Negative(Limb(m0, mask, a, n))), Bit(Negative(Limb(m0, mask, b, n)));
    var wraps := sign * carry - ba - sign * bb;
    Collect(base, sign, carry, carry0, ba, bb, Number(m, mask, a, n), Number(m0, mask, a, n), Number(m0, mask, b, n));
    InRangeExactlyWhenEqual(base, Number(m, mask, a, n), Negative(Limb(m, mask, a, n)), wraps);
  }

  lemma Collect(base: int, sign: int, carry: int, carry0: int, ba: int, bb: int, number: int, a: int, b: int)
    requires number + sign * (base * carry) == a + sign * (b + carry0)
    ensures a - base * ba + sign * (b - base * bb + carry0) == number + base * (sign * carry - ba - sign * bb)
  {
    calc {
      a - base * ba + sign * (b - base * bb + carry0);
      a + sign * (b + carry0) - base * ba - sign * (base * bb);
      number + sign * (base * carry) - base * ba - sign * (base * bb);
      number + base * (sign * carry - ba - sign * bb);
    }
  }

  // ---------------------------------------------------------------------------
  // The chains
  // ---------------------------------------------------------------------------

  /** FLAG_Z |= res: the Z flag stays clear once some limb was not zero. */
  function Either(z: bv32, r: bv32): bv32 { z | r }

  lemma EitherIsZero(z: bv32, r: bv32)
    ensures Either(z, r) == 0 <==> z == 0 && Nat(r) == 0
  {
    assert r == 0 <==> Nat(r) == 0;
  }

  /** Address register `r` after its predecrement. */
  function Stepped(dar: seq<bv32>, r: nat): bv32
    requires |dar| == 16 && r < 8
  {
    Minus(dar[8 + r], 4)
  }

  function Predecremented(dar: seq<bv32>, ax: nat, ay: nat): (r: seq<bv32>)
    requires |dar| == 16 && ax < 8 && ay < 8
    ensures |r| == 16
  {
    var d := dar[8 + ay := Stepped(dar, ay)];
    d[8 + ax := Stepped(d, ax)]
  }

  /** A register file with two address registers replaced. */
  function SetPair(dar: seq<bv32>, ax: nat, ay: nat, va: bv32, vb: bv32): (r: seq<bv32>)
    requires |dar| == 16 && ax < 8 && ay < 8
    ensures |r| == 16
  {
    dar[8 + ay := vb][8 + ax := va]
  }

  lemma SetPairSame(dar: seq<bv32>, ax: nat, ay: nat)
    requires |dar| == 16 && ax < 8 && ay < 8
    ensures SetPair(dar, ax, ay, dar[8 + ax], dar[8 + ay]) == dar
  {
  }

  lemma SetPairAgain(dar: seq<bv32>, ax: nat, ay: nat, va: bv32, vb: bv32, va': bv32, vb': bv32)
    requires |dar| == 16 && ax < 8 && ay < 8 && ax != ay
    ensures SetPair(dar, ax, ay, va, vb)[8 + ax] == va && SetPair(dar, ax, ay, va, vb)[8 + ay] == vb
    ensures SetPair(SetPair(dar, ax, ay, va, vb), ax, ay, va', vb') == SetPair(dar, ax, ay, va', vb')
  {
  }

  /** No byte outside the destination changed. */
  ghost predicate Untouched(m0: Memory, m: Memory, mask: bv32, a: bv32, n: nat) {
    forall p: bv32 | forall k | 1 <= k <= n :: OutsideLong(LimbAddress(mask, a, k), p) :: Byte(m, p) == Byte(m0, p)
  }

  lemma StillUntouched(m0: Memory, m: Memory, mask: bv32, a: bv32, n: nat, i: nat, r: bv32)
    requires 1 <= i <= n && Untouched(m0, m, mask, a, n)
    ensures Untouched(m0, Write32(m, LimbAddress(mask, a, i), r), mask, a, n)
  {
    hide Write32, LimbAddress, OutsideLong, Byte;
    forall p: bv32 | forall k | 1 <= k <= n :: OutsideLong(LimbAddress(mask, a, k), p)
      ensures Byte(Write32(m, LimbAddress(mask, a, i), r), p) == Byte(m0, p)
    {
      Frame32(m, LimbAddress(mask, a, i), r, p);
    }
  }

  /** What the flags say about limb i, the last one written. */
  ghost predicate LastLimb(m0: Memory, m: Memory, mask: bv32, a: bv32, b: bv32, i: nat, x: bv32, v: bv32, n: bv32,
                           sign: int) {
    var s, d, r := Negative(Limb(m0, mask, b, i)), Negative(Limb(m0, mask, a, i)), Negative(Limb(m, mask, a, i));
    && (Set80(n) <==> r)
    && (sign == 1 ==> (Set80(v) <==> s == d != r) && Carry(x) == Bit((s && d) || (!r && (s || d))))
    && (sign == -1 ==> (Set80(v) <==> s != d && d != r) && Carry(x) == Bit((s && r) || (!d && (s || r))))
  }

  lemma ChainStart(m0: Memory, mask: bv32, a: bv32, b: bv32, n: nat, sign: int, x0: bv32, z0: bv32)
    ensures Chained(m0, m0, mask, a, b, n, 0, sign, x0, x0, z0, z0) && Untouched(m0, m0, mask, a, n)
  {
    hide Carry, Limb, OutsideLong;
  }

  lemma ChainEnd(m0: Memory, m: Memory, mask: bv32, a: bv32, b: bv32, n: nat, sign: int, x0: bv32, x: bv32, z0: bv32,
                 z: bv32)
    requires Chained(m0, m, mask, a, b, n, n, sign, x0, x, z0, z) && (sign == 1 || sign == -1)
    ensures Number(m, mask, a, n) + sign * (Base(n) * Carry(x))
            == Number(m0, mask, a, n) + sign * (Number(m0, mask, b, n) + Carry(x0))
    ensures z == 0 <==> z0 == 0 && Number(m, mask, a, n) == 0
    ensures Number(m, mask, b, n) == Number(m0, mask, b, n) && 0 <= Number(m, mask, a, n) < Base(n)
  {
    hide Carry, Limb, Number, Base;
    SameLimbs(m0, m, mask, b, n);
    NumberBounds(m, mask, a, n);
  }

  lemma LastFlags(m0: Memory, m: Memory, mask: bv32, a: bv32, b: bv32, n: nat, sign: int, carry0: int, x: bv32, v: bv32,
                  nFlag: bv32)
    requires n > 0 && (sign == 1 || sign == -1) && LastLimb(m0, m, mask, a, b, n, x, v, nFlag, sign)
    requires Number(m, mask, a, n) + sign * (Base(n) * Carry(x))
             == Number(m0, mask, a, n) + sign * (Number(m0, mask, b, n) + carry0)
    ensures Set80(nFlag) <==> 2 * Number(m, mask, a, n) >= Base(n)
    ensures Set80(v) <==> !Fits(Signed(m0, mask, a, n) + sign * (Signed(m0, mask, b, n) + carry0), n)
  {
    hide Carry, Limb, Number, Base, Negative, Set80, Fits, Signed;
    SignIsTopBit(m, mask, a, n);
    Overflow(m0, m, mask, a, b, n, sign, carry0, Carry(x));
  }

  /** ADDX.L -(Ay), -(Ax) */
  method Addx32(cpu: Cpu, ax: nat, ay: nat)
    requires cpu.Valid() && ax < 8 && ay < 8
    modifies cpu`dar, cpu`mem, cpu`x, cpu`n, cpu`notZ, cpu`v, cpu`c
    ensures cpu.Valid() && cpu.dar == Predecremented(old(cpu.dar), ax, ay)
    ensures var src, dst := Read32(old(cpu.mem), cpu.Address(Stepped(old(cpu.dar), ay))),
            Read32(old(cpu.mem), cpu.Address(cpu.dar[8 + ax]));
            var r := AddLimb(src, dst, old(cpu.x));
            && cpu.mem == Write32(old(cpu.mem), cpu.Address(cpu.dar[8 + ax]), r)
            && cpu.x == cpu.c == CflagAdd(src, dst, r) && cpu.v == VflagAdd(src, dst, r)
            && cpu.n == Nflag(r) && cpu.notZ == Either(old(cpu.notZ), r)
  {
    hide KnownCpu, Modes, TraceAndMask, IsLevel, Read32, Write32, AddLimb, CflagAdd, VflagAdd, Nflag, Either, Minus,
         Bus;
    var dar := cpu.dar[8 + ay := Stepped(cpu.dar, ay)];
    var src := Read32(cpu.mem, cpu.Address(dar[8 + ay]));
    dar := dar[8 + ax := Stepped(dar, ax)];
    var ea := cpu.Address(dar[8 + ax]);
    var dst := Read32(cpu.mem, ea);
    var res := AddLimb(src, dst, cpu.x);
    var carry := CflagAdd(src, dst, res);
    cpu.n, cpu.v, cpu.x, cpu.c := Nflag(res), VflagAdd(src, dst, res), carry, carry;
    cpu.dar, cpu.notZ, cpu.mem := dar, Either(cpu.notZ, res), Write32(cpu.mem, ea, res);
  }

  /**
   A chain of n ADDX.L adds n-limb numbers: the sum modulo 2^(32n), its carry in X and C, Z
   only if all of it is zero.
   */
  method AddxChain(cpu: Cpu, ax: nat, ay: nat, n: nat)
    requires cpu.Valid() && ax < 8 && ay < 8 && ax != ay
    requires ApartFrom(cpu.addressMask, cpu.dar[8 + ax], cpu.dar[8 + ay], n)
             && LimbsApart(cpu.addressMask, cpu.dar[8 + ax], n)
    modifies cpu`dar, cpu`mem, cpu`x, cpu`n, cpu`notZ, cpu`v, cpu`c
    ensures cpu.Valid() && cpu.dar == SetPair(old(cpu.dar), ax, ay, Below(old(cpu.dar)[8 + ax], n),
            Below(old(cpu.dar)[8 + ay], n))
    ensures var mask, a, b := cpu.addressMask, old(cpu.dar)[8 + ax], old(cpu.dar)[8 + ay];
            && Number(cpu.mem, mask, a, n) + Base(n) * Carry(cpu.x)
               == Number(old(cpu.mem), mask, a, n) + Number(old(cpu.mem), mask, b, n) + Carry(old(cpu.x))
            && 0 <= Number(cpu.mem, mask, a, n) < Base(n)
            && Number(cpu.mem, mask, b, n) == Number(old(cpu.mem), mask, b, n)
            && (cpu.notZ == 0 <==> old(cpu.notZ) == 0 && Number(cpu.mem, mask, a, n) == 0)
            && Untouched(old(cpu.mem), cpu.mem, mask, a, n)
            && (n > 0 ==>
                 && cpu.c == cpu.x
                 && (Set80(cpu.n) <==> 2 * Number(cpu.mem, mask, a, n) >= Base(n))
                 && (Set80(cpu.v) <==>
                      !Fits(Signed(old(cpu.mem), mask, a, n) + Signed(old(cpu.mem), mask, b, n) + Carry(old(cpu.x)),
                          n)))
  {
    hide KnownCpu, Modes, TraceAndMask, IsLevel, Read32, Write32, AddLimb, CflagAdd, VflagAdd, Nflag, Either, Minus,
         Bus, Number, Base, Carry, Chained,
         ApartFrom, LimbsApart, Untouched, Set80, Fits, Signed, Nat, LastLimb, SetPair;
    ghost var mask, a, b, m0, x0, z0 := cpu.addressMask, cpu.dar[8 + ax], cpu.dar[8 + ay], cpu.mem, cpu.x, cpu.notZ;
    SetPairSame(cpu.dar, ax, ay);
    ChainStart(m0, mask, a, b, n, 1, x0, z0);
    for i := 0 to n
      invariant cpu.Valid() && cpu.addressMask == mask
      invariant cpu.dar == SetPair(old(cpu.dar), ax, ay, Below(a, i), Below(b, i))
      invariant Chained(m0, cpu.mem, mask, a, b, n, i, 1, x0, cpu.x, z0, cpu.notZ)
      invariant Untouched(m0, cpu.mem, mask, a, n)
      invariant i > 0 ==> cpu.c == cpu.x && LastLimb(m0, cpu.mem, mask, a, b, i, cpu.x, cpu.v, cpu.n, 1)
    {
      SetPairAgain(old(cpu.dar), ax, ay, Below(a, i), Below(b, i), Below(a, i + 1), Below(b, i + 1));
      AddxNext(cpu, ax, ay, m0, a, b, n, i, x0, z0);
    }
    ChainEnd(m0, cpu.mem, mask, a, b, n, 1, x0, cpu.x, z0, cpu.notZ);
    if n > 0 {
      LastFlags(m0, cpu.mem, mask, a, b, n, 1, Carry(x0), cpu.x, cpu.v, cpu.n);
    }
  }

  method AddxNext(cpu: Cpu, ax: nat, ay: nat, ghost m0: Memory, ghost a: bv32, ghost b: bv32, ghost n: nat,
                  ghost i: nat,
                  ghost x0: bv32, ghost z0: bv32)
    requires cpu.Valid() && ax < 8 && ay < 8 && ax != ay && i < n
    requires ApartFrom(cpu.addressMask, a, b, n) && LimbsApart(cpu.addressMask, a, n)
    requires cpu.dar[8 + ax] == Below(a, i) && cpu.dar[8 + ay] == Below(b, i)
    requires Chained(m0, cpu.mem, cpu.addressMask, a, b, n, i, 1, x0, cpu.x, z0, cpu.notZ)
             && Untouched(m0, cpu.mem, cpu.addressMask, a, n)
    modifies cpu`dar, cpu`mem, cpu`x, cpu`n, cpu`notZ, cpu`v, cpu`c
    ensures cpu.Valid() && cpu.dar == SetPair(old(cpu.dar), ax, ay, Below(a, i + 1), Below(b, i + 1)) && cpu.c == cpu.x
    ensures Chained(m0, cpu.mem, cpu.addressMask, a, b, n, i + 1, 1, x0, cpu.x, z0, cpu.notZ)
    ensures Untouched(m0, cpu.mem, cpu.addressMask, a, n)
    ensures LastLimb(m0, cpu.mem, cpu.addressMask, a, b, i + 1, cpu.x, cpu.v, cpu.n, 1)
  {
    hide KnownCpu, Modes, TraceAndMask, IsLevel, Read32, Write32, AddLimb, CflagAdd, VflagAdd, Nflag, Either, Minus,
         Bus, Chained, ApartFrom, LimbsApart,
         Untouched, LastLimb;
    AddxOneMore(m0, cpu.mem, cpu.addressMask, a, b, n, i, x0, cpu.x, z0, cpu.notZ);
    Addx32(cpu, ax, ay);
  }

  /** One more instruction of the chain, on values. */
  lemma AddxOneMore(m0: Memory, m: Memory, mask: bv32, a: bv32, b: bv32, n: nat, i: nat, x0: bv32, x: bv32, z0: bv32,
                    z: bv32)
    requires i < n && ApartFrom(mask, a, b, n) && LimbsApart(mask, a, n)
    requires Chained(m0, m, mask, a, b, n, i, 1, x0, x, z0, z) && Untouched(m0, m, mask, a, n)
    ensures var src, dst := Limb(m, mask, b, i + 1), Limb(m, mask, a, i + 1);
            var r := AddLimb(src, dst, x);
            var m' := Write32(m, LimbAddress(mask, a, i + 1), r);
            && Chained(m0, m', mask, a, b, n, i + 1, 1, x0, CflagAdd(src, dst, r), z0, Either(z, r))
            && Untouched(m0, m', mask, a, n)
            && LastLimb(m0, m', mask, a, b, i + 1, CflagAdd(src, dst, r), VflagAdd(src, dst, r), Nflag(r), 1)
  {
    hide Limb, Nat, AddLimb, Write32, LimbAddress, CflagAdd, VflagAdd, Nflag, Either, ApartFrom, LimbsApart, Untouched,
         Number, Base, Carry, Negative, Set80;
    var src, dst := Limb(m, mask, b, i + 1), Limb(m, mask, a, i + 1);
    var r := AddLimb(src, dst, x);
    AddLimbValue(src, dst, x);
    EitherIsZero(z, r);
    ChainStep(m0, m, mask, a, b, n, i, 1, x0, x, CflagAdd(src, dst, r), z0, z, Either(z, r), r);
    WriteLimb(m, mask, a, b, n, i + 1, r);
    StillUntouched(m0, m, mask, a, n, i + 1, r);
    AddFlagBits(src, dst, r);
  }

  /** SUBX.L -(Ay), -(Ax) */
  method Subx32(cpu: Cpu, ax: nat, ay: nat)
    requires cpu.Valid() && ax < 8 && ay < 8
    modifies cpu`dar, cpu`mem, cpu`x, cpu`n, cpu`notZ, cpu`v, cpu`c
    ensures cpu.Valid() && cpu.dar == Predecremented(old(cpu.dar), ax, ay)
    ensures var src, dst := Read32(old(cpu.mem), cpu.Address(Stepped(old(cpu.dar), ay))),
            Read32(old(cpu.mem), cpu.Address(cpu.dar[8 + ax]));
            var r := SubLimb(src, dst, old(cpu.x));
            && cpu.mem == Write32(old(cpu.mem), cpu.Address(cpu.dar[8 + ax]), r)
            && cpu.x == cpu.c == CflagSub(src, dst, r) && cpu.v == VflagSub(src, dst, r)
            && cpu.n == Nflag(r) && cpu.notZ == Either(old(cpu.notZ), r)
  {
    hide KnownCpu, Modes, TraceAndMask, IsLevel, Read32, Write32, SubLimb, CflagSub, VflagSub, Nflag, Either, Minus,
         Bus;
    var dar := cpu.dar[8 + ay := Stepped(cpu.dar, ay)];
    var src := Read32(cpu.mem, cpu.Address(dar[8 + ay]));
    dar := dar[8 + ax := Stepped(dar, ax)];
    var ea := cpu.Address(dar[8 + ax]);
    var dst := Read32(cpu.mem, ea);
    var res := SubLimb(src, dst, cpu.x);
    var carry := CflagSub(src, dst, res);
    cpu.n, cpu.v, cpu.x, cpu.c := Nflag(res), VflagSub(src, dst, res), carry, carry;
    cpu.dar, cpu.notZ, cpu.mem := dar, Either(cpu.notZ, res), Write32(cpu.mem, ea, res);
  }

  /** A chain of n SUBX.L subtracts n-limb numbers: the difference modulo 2^(32n), its borrow in X and C. */
  method SubxChain(cpu: Cpu, ax: nat, ay: nat, n: nat)
    requires cpu.Valid() && ax < 8 && ay < 8 && ax != ay
    requires ApartFrom(cpu.addressMask, cpu.dar[8 + ax], cpu.dar[8 + ay], n)
             && LimbsApart(cpu.addressMask, cpu.dar[8 + ax], n)
    modifies cpu`dar, cpu`mem, cpu`x, cpu`n, cpu`notZ, cpu`v, cpu`c
    ensures cpu.Valid() && cpu.dar == SetPair(old(cpu.dar), ax, ay, Below(old(cpu.dar)[8 + ax], n),
            Below(old(cpu.dar)[8 + ay], n))
    ensures var mask, a, b := cpu.addressMask, old(cpu.dar)[8 + ax], old(cpu.dar)[8 + ay];
            && Number(cpu.mem, mask, a, n) - Base(n) * Carry(cpu.x)
               == Number(old(cpu.mem), mask, a, n) - Number(old(cpu.mem), mask, b, n) - Carry(old(cpu.x))
            && 0 <= Number(cpu.mem, mask, a, n) < Base(n)
            && Number(cpu.mem, mask, b, n) == Number(old(cpu.mem), mask, b, n)
            && (cpu.notZ == 0 <==> old(cpu.notZ) == 0 && Number(cpu.mem, mask, a, n) == 0)
            && Untouched(old(cpu.mem), cpu.mem, mask, a, n)
            && (n > 0 ==>
                 && cpu.c == cpu.x
                 && (Set80(cpu.n) <==> 2 * Number(cpu.mem, mask, a, n) >= Base(n))
                 && (Set80(cpu.v) <==>
                      !Fits(Signed(old(cpu.mem), mask, a, n) - Signed(old(cpu.mem), mask, b, n) - Carry(old(cpu.x)),
                          n)))
  {
    hide KnownCpu, Modes, TraceAndMask, IsLevel, Read32, Write32, SubLimb, CflagSub, VflagSub, Nflag, Either, Minus,
         Bus, Number, Base, Carry, Chained,
         ApartFrom, LimbsApart, Untouched, Set80, Fits, Signed, Nat, LastLimb, SetPair;
    ghost var mask, a, b, m0, x0, z0 := cpu.addressMask, cpu.dar[8 + ax], cpu.dar[8 + ay], cpu.mem, cpu.x, cpu.notZ;
    SetPairSame(cpu.dar, ax, ay);
    ChainStart(m0, mask, a, b, n, -1, x0, z0);
    for i := 0 to n
      invariant cpu.Valid() && cpu.addressMask == mask
      invariant cpu.dar == SetPair(old(cpu.dar), ax, ay, Below(a, i), Below(b, i))
      invariant Chained(m0, cpu.mem, mask, a, b, n, i, -1, x0, cpu.x, z0, cpu.notZ)
      invariant Untouched(m0, cpu.mem, mask, a, n)
      invariant i > 0 ==> cpu.c == cpu.x && LastLimb(m0, cpu.mem, mask, a, b, i, cpu.x, cpu.v, cpu.n, -1)
    {
      SetPairAgain(old(cpu.dar), ax, ay, Below(a, i), Below(b, i), Below(a, i + 1), Below(b, i + 1));
      SubxNext(cpu, ax, ay, m0, a, b, n, i, x0, z0);
    }
    ChainEnd(m0, cpu.mem, mask, a, b, n, -1, x0, cpu.x, z0, cpu.notZ);
    if n > 0 {
      LastFlags(m0, cpu.mem, mask, a, b, n, -1, Carry(x0), cpu.x, cpu.v, cpu.n);
    }
  }

  method SubxNext(cpu: Cpu, ax: nat, ay: nat, ghost m0: Memory, ghost a: bv32, ghost b: bv32, ghost n: nat,
                  ghost i: nat,
                  ghost x0: bv32, ghost z0: bv32)
    requires cpu.Valid() && ax < 8 && ay < 8 && ax != ay && i < n
    requires ApartFrom(cpu.addressMask, a, b, n) && LimbsApart(cpu.addressMask, a, n)
    requires cpu.dar[8 + ax] == Below(a, i) && cpu.dar[8 + ay] == Below(b, i)
    requires Chained(m0, cpu.mem, cpu.addressMask, a, b, n, i, -1, x0, cpu.x, z0, cpu.notZ)
             && Untouched(m0, cpu.mem, cpu.addressMask, a, n)
    modifies cpu`dar, cpu`mem, cpu`x, cpu`n, cpu`notZ, cpu`v, cpu`c
    ensures cpu.Valid() && cpu.dar == SetPair(old(cpu.dar), ax, ay, Below(a, i + 1), Below(b, i + 1)) && cpu.c == cpu.x
    ensures Chained(m0, cpu.mem, cpu.addressMask, a, b, n, i + 1, -1, x0, cpu.x, z0, cpu.notZ)
    ensures Untouched(m0, cpu.mem, cpu.addressMask, a, n)
    ensures LastLimb(m0, cpu.mem, cpu.addressMask, a, b, i + 1, cpu.x, cpu.v, cpu.n, -1)
  {
    hide KnownCpu, Modes, TraceAndMask, IsLevel, Read32, Write32, SubLimb, CflagSub, VflagSub, Nflag, Either, Minus,
         Bus, Chained, ApartFrom, LimbsApart,
         Untouched, LastLimb;
    SubxOneMore(m0, cpu.mem, cpu.addressMask, a, b, n, i, x0, cpu.x, z0, cpu.notZ);
    Subx32(cpu, ax, ay);
  }

  /** One more instruction of the chain, on values. */
  lemma SubxOneMore(m0: Memory, m: Memory, mask: bv32, a: bv32, b: bv32, n: nat, i: nat, x0: bv32, x: bv32, z0: bv32,
                    z: bv32)
    requires i < n && ApartFrom(mask, a, b, n) && LimbsApart(mask, a, n)
    requires Chained(m0, m, mask, a, b, n, i, -1, x0, x, z0, z) && Untouched(m0, m, mask, a, n)
    ensures var src, dst := Limb(m, mask, b, i + 1), Limb(m, mask, a, i + 1);
            var r := SubLimb(src, dst, x);
            var m' := Write32(m, LimbAddress(mask, a, i + 1), r);
            && Chained(m0, m', mask, a, b, n, i + 1, -1, x0, CflagSub(src, dst, r), z0, Either(z, r))
            && Untouched(m0, m', mask, a, n)
            && LastLimb(m0, m', mask, a, b, i + 1, CflagSub(src, dst, r), VflagSub(src, dst, r), Nflag(r), -1)
  {
    hide Limb, Nat, SubLimb, Write32, LimbAddress, CflagSub, VflagSub, Nflag, Either, ApartFrom, LimbsApart, Untouched,
         Number, Base, Carry, Negative, Set80;
    var src, dst := Limb(m, mask, b, i + 1), Limb(m, mask, a, i + 1);
    var r := SubLimb(src, dst, x);
    SubLimbValue(src, dst, x);
    EitherIsZero(z, r);
    ChainStep(m0, m, mask, a, b, n, i, -1, x0, x, CflagSub(src, dst, r), z0, z, Either(z, r), r);
    WriteLimb(m, mask, a, b, n, i + 1, r);
    StillUntouched(m0, m, mask, a, n, i + 1, r);
    SubFlagBits(src, dst, r);
  }
}
