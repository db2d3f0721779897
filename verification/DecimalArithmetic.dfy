/**
 The decimal arithmetic of the Musashi core (tools/r68k/musashi/m68k_in.c, abcd, sbcd):
 chains of ABCD and SBCD over memory are decimal addition and subtraction.
 */
module DecimalArithmetic {
  import opened Memory68k
  import opened Cpu68k
  import EA = ExtendedArithmetic

  // ---------------------------------------------------------------------------
  // One byte: two decimal digits
  // ---------------------------------------------------------------------------

  predicate Bcd(b: int) { 0 <= b < 256 && b % 16 <= 9 && b / 16 <= 9 }

  function Dec(b: int): int { 10 * (b / 16) + b % 16 }

  function LowNibble(b: int): int { b % 16 }

  function HighNibble(b: int): int { b - b % 16 }

  /** An unsigned int keeps 32 bits. */
  function Wrap(r: int): int { r % 0x1_0000_0000 }

  function Carried(sum: int): (int, bool) { ((if sum > 0x99 then sum - 0xa0 else sum) % 256, sum > 0x99) }

  /** abcd: the result byte, and whether it carries. */
  function AddBytes(s: int, d: int, x: int): (int, bool) {
    var units := LowNibble(s) + LowNibble(d) + x;
    Carried((if units > 9 then units + 6 else units) + HighNibble(s) + HighNibble(d))
  }

  function Adjusted(units: int): int { if units > 9 then Wrap(units - 6) else units }

  function Borrowed(diff: int): (int, bool) { ((if diff > 0x99 then Wrap(diff + 0xa0) else diff) % 256, diff > 0x99) }

  /** sbcd: the result byte, and whether it borrows. Below zero the unsigned int wraps. */
  function SubBytes(s: int, d: int, x: int): (int, bool) {
    Borrowed(Wrap(Adjusted(Wrap(LowNibble(d) - LowNibble(s) - x)) + HighNibble(d) - HighNibble(s)))
  }

  function Bit(carry: bool): int { if carry then 1 else 0 }

  lemma Nibbles(b: int, high: int, low: int)
    requires b == 16 * high + low && 0 <= low < 16
    ensures LowNibble(b) == low && HighNibble(b) == 16 * high && Dec(b) == 10 * high + low && b % 16 == low
            && b / 16 == high
  {
  }

  lemma Wraps(r: int)
    ensures 0 <= r < 0x1_0000_0000 ==> Wrap(r) == r
    ensures -0x1_0000_0000 <= r < 0 ==> Wrap(r) == r + 0x1_0000_0000
  {
  }

  /** A byte result whose digits are known. */
  lemma ByteOf(r: int, high: int, low: int)
    requires r % 256 == 16 * high + low && 0 <= high <= 9 && 0 <= low <= 9
    ensures Bcd(r % 256) && Dec(r % 256) == 10 * high + low
  {
    Nibbles(r % 256, high, low);
  }

  lemma AddBytesValue(s: int, d: int, x: int)
    requires Bcd(s) && Bcd(d) && 0 <= x <= 1
    ensures var (r, carry) := AddBytes(s, d, x); Bcd(r) && Dec(r) + 100 * Bit(carry) == Dec(s) + Dec(d) + x
  {
    var sh, sl, dh, dl := s / 16, s % 16, d / 16, d % 16;
    Nibbles(s, sh, sl);
    Nibbles(d, dh, dl);
    hide LowNibble, HighNibble, Dec, Bcd, Carried, Bit;
    var ten := if sl + dl + x > 9 then 1 else 0;
    TensCarry(sh + dh + ten, sl + dl + x - 10 * ten);
  }

  lemma TensCarry(tens: int, low: int)
    requires 0 <= tens <= 19 && 0 <= low <= 9
    ensures var (r, carry) := Carried(16 * tens + low); Bcd(r) && Dec(r) + 100 * Bit(carry) == 10 * tens + low
  {
    hide Dec, Bcd;
    if tens > 9 {
      ByteOf(16 * tens + low - 0xa0, tens - 10, low);
    } else {
      ByteOf(16 * tens + low, tens, low);
    }
  }

  lemma SubBytesValue(s: int, d: int, x: int)
    requires Bcd(s) && Bcd(d) && 0 <= x <= 1
    ensures var (r, borrow) := SubBytes(s, d, x); Bcd(r) && Dec(r) - 100 * Bit(borrow) == Dec(d) - Dec(s) - x
  {
    var sh, sl, dh, dl := s / 16, s % 16, d / 16, d % 16;
    Nibbles(s, sh, sl);
    Nibbles(d, dh, dl);
    hide LowNibble, HighNibble, Dec, Bcd, Wrap;
    hide Adjusted, Borrowed, Bit;
    var ten := if dl - sl - x < 0 then 1 else 0;
    var low := dl - sl - x + 10 * ten;
    var tens := dh - sh - ten;
    Units(dl, sl, x);
    var fixed := Adjusted(Wrap(dl - sl - x));
    WrapsAround(fixed + 16 * dh - 16 * sh, 16 * tens + low);
    TensBorrow(tens, low);
  }

  /** The units digit, with 16 borrowed for the 10 that is taken off the tens. */
  lemma Units(dl: int, sl: int, x: int)
    requires 0 <= dl <= 9 && 0 <= sl <= 9 && 0 <= x <= 1
    ensures Adjusted(Wrap(dl - sl - x)) == if dl - sl - x < 0 then dl - sl - x - 6 + 0x1_0000_0000 else dl - sl - x
  {
    hide Wrap;
    Wraps(dl - sl - x);
    Wraps(dl - sl - x + 0x1_0000_0000 - 6);
  }

  lemma TensBorrow(tens: int, low: int)
    requires -10 <= tens <= 9 && 0 <= low <= 9
    ensures var (r, borrow) := Borrowed(Wrap(16 * tens + low));
            Bcd(r) && Dec(r) - 100 * Bit(borrow) == 10 * tens + low
  {
    hide Wrap, Dec, Bcd;
    var diff := Wrap(16 * tens + low);
    Wraps(16 * tens + low);
    if tens < 0 {
      WrapsAround(diff + 0xa0, 16 * (tens + 10) + low);
      Wraps(16 * (tens + 10) + low);
      ByteOf(16 * (tens + 10) + low, tens + 10, low);
    } else {
      ByteOf(diff, tens, low);
    }
  }

  lemma WrapsAround(a: int, b: int)
    requires a == b || a == b + 0x1_0000_0000
    ensures Wrap(a) == Wrap(b)
  {
  }

  // ---------------------------------------------------------------------------
  // Numbers of 2n digits in memory
  // ---------------------------------------------------------------------------

  /** A number in memory below an address register, and how far each predecrement takes the register. */
  datatype Operand = Operand(top: bv32, step: bv32)

  /** EA_AX_PD_8 steps by one, EA_A7_PD_8 by two. */
  function Step(reg: nat): bv32 { if reg == 7 then 2 else 1 }

  /** The operand that address register `reg` points above */
  function OperandOf(dar: seq<bv32>, reg: nat): Operand
    requires |dar| == 16 && reg < 8
  {
    Operand(dar[8 + reg], Step(reg))
  }

  /** The address register after `k` predecrements. */
  function Below(a: Operand, k: nat): bv32 { if k == 0 then a.top else Minus(Below(a, k - 1), a.step) }

  function Place(mask: bv32, a: Operand, k: nat): bv32 { Bus(mask, Below(a, k)) }

  function Number8(b: bv8): (r: int)
    ensures 0 <= r < 256
  {
    b as int
  }

  function Digits(m: Memory, mask: bv32, a: Operand, k: nat): (r: int)
    ensures 0 <= r < 256
  {
    Number8(Byte(m, Place(mask, a, k)))
  }

  function Power(n: nat): (r: int)
    ensures r >= 1
  {
    if n == 0 then 1 else 100 * Power(n - 1)
  }

  /** The decimal number in the n bytes below `a`, its last digits last in memory. */
  function Decimal(m: Memory, mask: bv32, a: Operand, n: nat): int {
    if n == 0 then 0 else Decimal(m, mask, a, n - 1) + Power(n - 1) * Dec(Digits(m, mask, a, n))
  }

  predicate AllBcd(m: Memory, mask: bv32, a: Operand, n: nat) { forall k | 1 <= k <= n :: Bcd(Digits(m, mask, a, k)) }

  /** The bytes below `a` are different from one another and from those below `b`. */
  predicate Apart(mask: bv32, a: Operand, b: Operand, n: nat) {
    && (forall i, k | 1 <= i <= n && 1 <= k <= n && i != k :: Place(mask, a, i) != Place(mask, a, k))
    && (forall i, k | 1 <= i <= n && 1 <= k <= n :: Place(mask, a, i) != Place(mask, b, k))
  }

  /** Four digits below each of two registers, in a memory that holds the digits 4 and 5 in every byte. */
  lemma FourDigits(m: Memory)
    requires forall p :: m(p) == 0x45
    ensures var a, b := Operand(0x1000, 1), Operand(0x2000, 2);
            Apart(0xffffff, a, b, 2) && AllBcd(m, 0xffffff, a, 2) && Decimal(m, 0xffffff, a, 2) == 4545
  {
    var a, b := Operand(0x1000, 1), Operand(0x2000, 2);
    assert Below(a, 1) == 0xfff && Below(a, 2) == Minus(Below(a, 1), 1) == 0xffe;
    assert Below(b, 1) == 0x1ffe && Below(b, 2) == Minus(Below(b, 1), 2) == 0x1ffc;
    assert Place(0xffffff, a, 1) == 0xfff && Place(0xffffff, a, 2) == 0xffe;
    assert Place(0xffffff, b, 1) == 0x1ffe && Place(0xffffff, b, 2) == 0x1ffc;
    assert Digits(m, 0xffffff, a, 1) == Digits(m, 0xffffff, a, 2) == 0x45;
    assert Dec(0x45) == 45 && Bcd(0x45);
    assert Power(1) == 100 && Power(0) == 1;
    assert Decimal(m, 0xffffff, a, 0) == 0 && Decimal(m, 0xffffff, a, 1) == 45;
  }

  lemma {:induction false} DecimalBounds(m: Memory, mask: bv32, a: Operand, n: nat)
    requires AllBcd(m, mask, a, n)
    ensures 0 <= Decimal(m, mask, a, n) < Power(n)
  {
    hide Digits;
    if n > 0 {
      DecimalBounds(m, mask, a, n - 1);
      assert Bcd(Digits(m, mask, a, n));
      EA.TimesDigit(Power(n - 1), Dec(Digits(m, mask, a, n)), 100);
    }
  }

  lemma {:induction false} SameDigits(m: Memory, m': Memory, mask: bv32, a: Operand, n: nat)
    requires forall k | 1 <= k <= n :: Digits(m', mask, a, k) == Digits(m, mask, a, k)
    ensures Decimal(m', mask, a, n) == Decimal(m, mask, a, n)
  {
    hide Digits, Power, Dec;
    if n > 0 { SameDigits(m, m', mask, a, n - 1); }
  }

  lemma DecimalStep(m: Memory, mask: bv32, a: Operand, i: nat)
    ensures Decimal(m, mask, a, i + 1) == Decimal(m, mask, a, i) + Power(i) * Dec(Digits(m, mask, a, i + 1))
    ensures Power(i + 1) == 100 * Power(i) && Power(i) >= 1
  {
    hide Digits, Dec;
  }

  // ---------------------------------------------------------------------------
  // The chains
  // ---------------------------------------------------------------------------

  /** The byte with number r, found by counting. */
  function ToByte(r: int): bv8
    requires 0 <= r < 256
  {
    if r == 0 then 0 else ToByte(r - 1) + 1
  }

  lemma NextNumber(b: bv8)
    requires Number8(b) < 255
    ensures Number8(b + 1) == Number8(b) + 1
  {
  }

  lemma ZeroNumber()
    ensures Number8(0) == 0
  {
  }

  lemma {:induction false} ToByteBack(r: int)
    requires 0 <= r < 256
    ensures Number8(ToByte(r)) == r
  {
    hide Number8;
    ZeroNumber();
    if r > 0 {
      ToByteBack(r - 1);
      NextNumber(ToByte(r - 1));
    }
  }

  /** After `i` of the `n` instructions: sign is +1 for ABCD and -1 for SBCD. */
  ghost predicate Chained(m0: Memory, m: Memory, mask: bv32, a: Operand, b: Operand, n: nat, i: nat, sign: int,
                          x0: bv32, x: bv32, z0: bv32, z: bv32)
    requires i <= n
  {
    && Decimal(m, mask, a, i) + sign * (Power(i) * EA.Carry(x))
       == Decimal(m0, mask, a, i) + sign * (Decimal(m0, mask, b, i) + EA.Carry(x0))
    && (z == 0 <==> z0 == 0 && Decimal(m, mask, a, i) == 0)
    && (forall k | 1 <= k <= n :: Digits(m, mask, b, k) == Digits(m0, mask, b, k))
    && (forall k | i < k <= n :: Digits(m, mask, a, k) == Digits(m0, mask, a, k))
    && AllBcd(m, mask, a, n) && Untouched(m0, m, mask, a, n)
  }

  /** No byte outside the destination changed. */
  ghost predicate Untouched(m0: Memory, m: Memory, mask: bv32, a: Operand, n: nat) {
    forall p: bv32 | forall k | 1 <= k <= n :: p != Place(mask, a, k) :: Byte(m, p) == Byte(m0, p)
  }

  lemma StillUntouched(m0: Memory, m: Memory, mask: bv32, a: Operand, n: nat, i: nat, r: bv8)
    requires 1 <= i <= n && Untouched(m0, m, mask, a, n)
    ensures Untouched(m0, Put(m, Place(mask, a, i), r), mask, a, n)
  {
    hide Place;
    forall p: bv32 | forall k | 1 <= k <= n :: p != Place(mask, a, k)
      ensures Byte(Put(m, Place(mask, a, i), r), p) == Byte(m0, p)
    {
      assert p != Place(mask, a, i);
    }
  }

  lemma WriteDigits(m: Memory, mask: bv32, a: Operand, b: Operand, n: nat, i: nat, r: int)
    requires 1 <= i <= n && Apart(mask, a, b, n) && 0 <= r < 256
    ensures var m' := Put(m, Place(mask, a, i), ToByte(r));
            && Digits(m', mask, a, i) == r
            && (forall k | 1 <= k <= n && k != i :: Digits(m', mask, a, k) == Digits(m, mask, a, k))
            && (forall k | 1 <= k <= n :: Digits(m', mask, b, k) == Digits(m, mask, b, k))
  {
    hide Place, ToByte, Number8;
    ToByteBack(r);
  }

  lemma ZeroDigits(r: int)
    requires Bcd(r)
    ensures Dec(r) == 0 <==> r == 0
    ensures Dec(r) >= 0
  {
  }

  /** One more byte: the induction step of both chains. */
  lemma ChainStep(m0: Memory, m: Memory, mask: bv32, a: Operand, b: Operand, n: nat, i: nat, sign: int,
                  x0: bv32, x: bv32, x': bv32, z0: bv32, z: bv32, z': bv32, r: int)
    requires i < n && (sign == 1 || sign == -1) && Apart(mask, a, b, n) && Bcd(r)
    requires Chained(m0, m, mask, a, b, n, i, sign, x0, x, z0, z)
    requires Dec(r) + sign * (100 * EA.Carry(x'))
          == Dec(Digits(m, mask, a, i + 1)) + sign * (Dec(Digits(m, mask, b, i + 1)) + EA.Carry(x))
    requires z' == 0 <==> z == 0 && r == 0
    ensures Chained(m0, Put(m, Place(mask, a, i + 1), ToByte(r)), mask, a, b, n, i + 1, sign, x0, x', z0, z')
  {
    hide Digits, Place, Apart, EA.Carry, Decimal, Power, Dec, Put, ToByte, Bcd, Untouched;
    BcdIsByte(r);
    StillUntouched(m0, m, mask, a, n, i + 1, ToByte(r));
    var m' := Put(m, Place(mask, a, i + 1), ToByte(r));
    WriteDigits(m, mask, a, b, n, i + 1, r);
    SameDigits(m, m', mask, a, i);
    DecimalBounds(m, mask, a, i);
    DecimalStep(m', mask, a, i);
    DecimalStep(m0, mask, a, i);
    DecimalStep(m0, mask, b, i);
    var s, d := Dec(Digits(m0, mask, b, i + 1)), Dec(Digits(m0, mask, a, i + 1));
    EA.SumStep(100, Power(i), sign, Decimal(m, mask, a, i), Decimal(m0, mask, a, i), Decimal(m0, mask, b, i), Dec(r), s,
        d,
               EA.Carry(x0), EA.Carry(x), EA.Carry(x'));
    ZeroDigits(r);
    EA.ZeroStep(Power(i), Decimal(m, mask, a, i), Dec(r));
  }

  lemma BcdIsByte(r: int)
    requires Bcd(r)
    ensures 0 <= r < 256
  {
  }

  function XFlag(carry: bool): bv32 { if carry then 0x100 else 0 }

  lemma XFlagCarries(carry: bool)
    ensures EA.Carry(XFlag(carry)) == Bit(carry)
  {
  }

  /** FLAG_Z |= res */
  function EitherByte(z: bv32, r: bv8): bv32 { z | (r as bv32) }

  lemma EitherIsZero(z: bv32, r: int)
    requires 0 <= r < 256
    ensures EitherByte(z, ToByte(r)) == 0 <==> z == 0 && r == 0
  {
    hide ToByte;
    ToByteBack(r);
    ByteIsZero(ToByte(r));
    EitherBits(z, ToByte(r));
    hide EitherByte, Number8;
  }

  lemma ByteIsZero(b: bv8)
    ensures Number8(b) == 0 <==> b == 0
  {
  }

  lemma EitherBits(z: bv32, b: bv8)
    ensures EitherByte(z, b) == 0 <==> z == 0 && b == 0
  {
  }

  /** What abcd does to two bytes, valid digits or not */
  method AddDigits(src: int, dst: int, x: int) returns (r: int, carry: bool)
    ensures (r, carry) == AddBytes(src, dst, x)
  {
    var res := src % 16 + dst % 16 + x;
    if res > 9 { res := res + 6; }
    res := res + src / 16 * 16 + dst / 16 * 16;
    carry := res > 0x99;
    if carry { res := res - 0xa0; }
    r := res % 256;
  }

  /** What sbcd does to two bytes, in an unsigned int */
  method SubtractDigits(src: int, dst: int, x: int) returns (r: int, borrow: bool)
    ensures (r, borrow) == SubBytes(src, dst, x)
  {
    var res := (dst % 16 - src % 16 - x) % 0x1_0000_0000;
    if res > 9 { res := (res - 6) % 0x1_0000_0000; }
    res := (res + dst / 16 * 16 - src / 16 * 16) % 0x1_0000_0000;
    borrow := res > 0x99;
    if borrow { res := (res + 0xa0) % 0x1_0000_0000; }
    r := res % 256;
  }

  /** ABCD -(Ay), -(Ax); A7 steps by two */
  method Abcd8(cpu: Cpu, ax: nat, ay: nat)
    requires cpu.Valid() && ax < 8 && ay < 8 && ax != ay
    modifies cpu`dar, cpu`mem, cpu`x, cpu`notZ, cpu`c
    ensures cpu.Valid() && cpu.dar == old(cpu.dar)[8 + ay :=
            Minus(old(cpu.dar)[8 + ay], if ay == 7 then 2 else 1)][8 + ax :=
            Minus(old(cpu.dar)[8 + ax], if ax == 7 then 2 else 1)]
    ensures var src, dst := Number8(Byte(old(cpu.mem), cpu.Address(cpu.dar[8 + ay]))),
            Number8(Byte(old(cpu.mem), cpu.Address(cpu.dar[8 + ax])));
            var (r, carry) := AddBytes(src, dst, EA.Carry(old(cpu.x)));
            && cpu.mem == Put(old(cpu.mem), cpu.Address(cpu.dar[8 + ax]), ToByte(r))
            && cpu.x == cpu.c == XFlag(carry) && cpu.notZ == EitherByte(old(cpu.notZ), ToByte(r))
  {
    hide KnownCpu, Modes, TraceAndMask, IsLevel, Minus, Bus, AddBytes, XFlag, EitherByte, ToByte, Number8, Put,
         Byte, EA.Carry;
    var dar := cpu.dar[8 + ay := Minus(cpu.dar[8 + ay], Step(ay))];
    var src := Number8(Byte(cpu.mem, cpu.Address(dar[8 + ay])));
    dar := dar[8 + ax := Minus(dar[8 + ax], Step(ax))];
    var ea := cpu.Address(dar[8 + ax]);
    var dst := Number8(Byte(cpu.mem, ea));
    AddBytesIsByte(src, dst, EA.Carry(cpu.x));
    var r, carry := AddDigits(src, dst, EA.Carry(cpu.x));
    cpu.x, cpu.c, cpu.notZ := XFlag(carry), XFlag(carry), EitherByte(cpu.notZ, ToByte(r));
    cpu.dar, cpu.mem := dar, Put(cpu.mem, ea, ToByte(r));
  }

  lemma AddBytesIsByte(s: int, d: int, x: int)
    ensures 0 <= AddBytes(s, d, x).0 < 256
  {
  }

  /**
   A chain of n ABCD adds 2n-digit decimal numbers: the sum modulo 100^n, its carry in X
   and C, every byte of it valid.
   */
  method AbcdChain(cpu: Cpu, ax: nat, ay: nat, n: nat)
    requires cpu.Valid() && ax < 8 && ay < 8 && ax != ay
             && Apart(cpu.addressMask, OperandOf(cpu.dar, ax), OperandOf(cpu.dar, ay), n)
    requires AllBcd(cpu.mem, cpu.addressMask, OperandOf(cpu.dar, ax), n)
             && AllBcd(cpu.mem, cpu.addressMask, OperandOf(cpu.dar, ay), n)
    modifies cpu`dar, cpu`mem, cpu`x, cpu`notZ, cpu`c
    ensures cpu.Valid()
    ensures var mask, a, b := cpu.addressMask, OperandOf(old(cpu.dar), ax), OperandOf(old(cpu.dar), ay);
            && cpu.dar == EA.SetPair(old(cpu.dar), ax, ay, Below(a, n), Below(b, n))
            && Untouched(old(cpu.mem), cpu.mem, mask, a, n) && AllBcd(cpu.mem, mask, a, n)
                && 0 <= Decimal(cpu.mem, mask, a, n) < Power(n)
            && Decimal(cpu.mem, mask, a, n) + Power(n) * EA.Carry(cpu.x)
               == Decimal(old(cpu.mem), mask, a, n) + Decimal(old(cpu.mem), mask, b, n) + EA.Carry(old(cpu.x))
            && Decimal(cpu.mem, mask, b, n) == Decimal(old(cpu.mem), mask, b, n)
            && (cpu.notZ == 0 <==> old(cpu.notZ) == 0 && Decimal(cpu.mem, mask, a, n) == 0)
            && (n > 0 ==> cpu.c == cpu.x)
  {
    hide KnownCpu, Modes, TraceAndMask, IsLevel, Minus, Bus, AllBcd, Apart, Chained, Untouched, Decimal, Power,
         EA.Carry, EA.SetPair, Step;
    ghost var mask, a, b := cpu.addressMask, OperandOf(cpu.dar, ax), OperandOf(cpu.dar, ay);
    ghost var m0, x0, z0 := cpu.mem, cpu.x, cpu.notZ;
    EA.SetPairSame(cpu.dar, ax, ay);
    ChainStart(m0, mask, a, b, n, 1, x0, z0);
    for i := 0 to n
      invariant cpu.Valid() && cpu.addressMask == mask
      invariant cpu.dar == EA.SetPair(old(cpu.dar), ax, ay, Below(a, i), Below(b, i))
      invariant Chained(m0, cpu.mem, mask, a, b, n, i, 1, x0, cpu.x, z0, cpu.notZ)
      invariant i > 0 ==> cpu.c == cpu.x
    {
      EA.SetPairAgain(old(cpu.dar), ax, ay, Below(a, i), Below(b, i), Below(a, i + 1), Below(b, i + 1));
      AbcdNext(cpu, ax, ay, m0, a, b, n, i, x0, z0);
    }
    ChainEnd(m0, cpu.mem, mask, a, b, n, 1, x0, cpu.x, z0, cpu.notZ);
  }

  method AbcdNext(cpu: Cpu, ax: nat, ay: nat, ghost m0: Memory, ghost a: Operand, ghost b: Operand, ghost n: nat,
                  ghost i: nat,
                 ghost x0: bv32, ghost z0: bv32)
    requires cpu.Valid() && ax < 8 && ay < 8 && ax != ay && i < n && Apart(cpu.addressMask, a, b, n)
    requires a.step == Step(ax) && b.step == Step(ay) && cpu.dar[8 + ax] == Below(a, i)
             && cpu.dar[8 + ay] == Below(b, i)
    requires AllBcd(m0, cpu.addressMask, b, n)
    requires Chained(m0, cpu.mem, cpu.addressMask, a, b, n, i, 1, x0, cpu.x, z0, cpu.notZ)
    modifies cpu`dar, cpu`mem, cpu`x, cpu`notZ, cpu`c
    ensures cpu.Valid() && cpu.dar == EA.SetPair(old(cpu.dar), ax, ay, Below(a, i + 1), Below(b, i + 1))
            && cpu.c == cpu.x
    ensures Chained(m0, cpu.mem, cpu.addressMask, a, b, n, i + 1, 1, x0, cpu.x, z0, cpu.notZ)
  {
    hide KnownCpu, Modes, TraceAndMask, IsLevel, Minus, Bus, AllBcd, Apart, Chained, AddBytes, XFlag, EitherByte,
         ToByte, Number8, Put, Byte, EA.Carry;
    AddBytesIsByte(Digits(cpu.mem, cpu.addressMask, b, i + 1), Digits(cpu.mem, cpu.addressMask, a, i + 1),
        EA.Carry(cpu.x));
    AbcdOneMore(m0, cpu.mem, cpu.addressMask, a, b, n, i, x0, cpu.x, z0, cpu.notZ);
    Abcd8(cpu, ax, ay);
  }

  /** One more instruction of the chain, on values. */
  lemma AbcdOneMore(m0: Memory, m: Memory, mask: bv32, a: Operand, b: Operand, n: nat, i: nat, x0: bv32, x: bv32,
                    z0: bv32, z: bv32)
    requires i < n && Apart(mask, a, b, n) && AllBcd(m0, mask, b, n)
             && Chained(m0, m, mask, a, b, n, i, 1, x0, x, z0, z)
    ensures var (r, carry) := AddBytes(Digits(m, mask, b, i + 1), Digits(m, mask, a, i + 1), EA.Carry(x));
            && 0 <= r < 256
            && Chained(m0, Put(m, Place(mask, a, i + 1), ToByte(r)), mask, a, b, n, i + 1, 1, x0, XFlag(carry), z0,
                EitherByte(z, ToByte(r)))
  {
    hide Digits, Place, Apart, AddBytes, Decimal, Power, Dec, Put, ToByte, Bcd, Untouched, XFlag, EitherByte, EA.Carry,
         Bit;
    var s, d := Digits(m, mask, b, i + 1), Digits(m, mask, a, i + 1);
    assert Bcd(Digits(m0, mask, b, i + 1)) && Bcd(d);
    AddBytesValue(s, d, EA.Carry(x));
    var (r, carry) := AddBytes(s, d, EA.Carry(x));
    BcdIsByte(r);
    XFlagCarries(carry);
    EitherIsZero(z, r);
    ChainStep(m0, m, mask, a, b, n, i, 1, x0, x, XFlag(carry), z0, z, EitherByte(z, ToByte(r)), r);
  }

  /** SBCD -(Ay), -(Ax); A7 steps by two */
  method Sbcd8(cpu: Cpu, ax: nat, ay: nat)
    requires cpu.Valid() && ax < 8 && ay < 8 && ax != ay
    modifies cpu`dar, cpu`mem, cpu`x, cpu`notZ, cpu`c
    ensures cpu.Valid() && cpu.dar == old(cpu.dar)[8 + ay :=
            Minus(old(cpu.dar)[8 + ay], if ay == 7 then 2 else 1)][8 + ax :=
            Minus(old(cpu.dar)[8 + ax], if ax == 7 then 2 else 1)]
    ensures var src, dst := Number8(Byte(old(cpu.mem), cpu.Address(cpu.dar[8 + ay]))),
            Number8(Byte(old(cpu.mem), cpu.Address(cpu.dar[8 + ax])));
            var (r, carry) := SubBytes(src, dst, EA.Carry(old(cpu.x)));
            && cpu.mem == Put(old(cpu.mem), cpu.Address(cpu.dar[8 + ax]), ToByte(r))
            && cpu.x == cpu.c == XFlag(carry) && cpu.notZ == EitherByte(old(cpu.notZ), ToByte(r))
  {
    hide KnownCpu, Modes, TraceAndMask, IsLevel, Minus, Bus, SubBytes, XFlag, EitherByte, ToByte, Number8, Put,
         Byte, EA.Carry;
    var dar := cpu.dar[8 + ay := Minus(cpu.dar[8 + ay], Step(ay))];
    var src := Number8(Byte(cpu.mem, cpu.Address(dar[8 + ay])));
    dar := dar[8 + ax := Minus(dar[8 + ax], Step(ax))];
    var ea := cpu.Address(dar[8 + ax]);
    var dst := Number8(Byte(cpu.mem, ea));
    SubBytesIsByte(src, dst, EA.Carry(cpu.x));
    var r, carry := SubtractDigits(src, dst, EA.Carry(cpu.x));
    cpu.x, cpu.c, cpu.notZ := XFlag(carry), XFlag(carry), EitherByte(cpu.notZ, ToByte(r));
    cpu.dar, cpu.mem := dar, Put(cpu.mem, ea, ToByte(r));
  }

  lemma SubBytesIsByte(s: int, d: int, x: int)
    ensures 0 <= SubBytes(s, d, x).0 < 256
  {
  }

  /** A chain of n SBCD subtracts 2n-digit decimal numbers: the difference modulo 100^n, its borrow in X and C. */
  method SbcdChain(cpu: Cpu, ax: nat, ay: nat, n: nat)
    requires cpu.Valid() && ax < 8 && ay < 8 && ax != ay
             && Apart(cpu.addressMask, OperandOf(cpu.dar, ax), OperandOf(cpu.dar, ay), n)
    requires AllBcd(cpu.mem, cpu.addressMask, OperandOf(cpu.dar, ax), n)
             && AllBcd(cpu.mem, cpu.addressMask, OperandOf(cpu.dar, ay), n)
    modifies cpu`dar, cpu`mem, cpu`x, cpu`notZ, cpu`c
    ensures cpu.Valid()
    ensures var mask, a, b := cpu.addressMask, OperandOf(old(cpu.dar), ax), OperandOf(old(cpu.dar), ay);
            && cpu.dar == EA.SetPair(old(cpu.dar), ax, ay, Below(a, n), Below(b, n))
            && Untouched(old(cpu.mem), cpu.mem, mask, a, n) && AllBcd(cpu.mem, mask, a, n)
                && 0 <= Decimal(cpu.mem, mask, a, n) < Power(n)
            && Decimal(cpu.mem, mask, a, n) - Power(n) * EA.Carry(cpu.x)
               == Decimal(old(cpu.mem), mask, a, n) - Decimal(old(cpu.mem), mask, b, n) - EA.Carry(old(cpu.x))
            && Decimal(cpu.mem, mask, b, n) == Decimal(old(cpu.mem), mask, b, n)
            && (cpu.notZ == 0 <==> old(cpu.notZ) == 0 && Decimal(cpu.mem, mask, a, n) == 0)
            && (n > 0 ==> cpu.c == cpu.x)
  {
    hide KnownCpu, Modes, TraceAndMask, IsLevel, Minus, Bus, AllBcd, Apart, Chained, Untouched, Decimal, Power,
         EA.Carry, EA.SetPair, Step;
    ghost var mask, a, b := cpu.addressMask, OperandOf(cpu.dar, ax), OperandOf(cpu.dar, ay);
    ghost var m0, x0, z0 := cpu.mem, cpu.x, cpu.notZ;
    EA.SetPairSame(cpu.dar, ax, ay);
    ChainStart(m0, mask, a, b, n, -1, x0, z0);
    for i := 0 to n
      invariant cpu.Valid() && cpu.addressMask == mask
      invariant cpu.dar == EA.SetPair(old(cpu.dar), ax, ay, Below(a, i), Below(b, i))
      invariant Chained(m0, cpu.mem, mask, a, b, n, i, -1, x0, cpu.x, z0, cpu.notZ)
      invariant i > 0 ==> cpu.c == cpu.x
    {
      EA.SetPairAgain(old(cpu.dar), ax, ay, Below(a, i), Below(b, i), Below(a, i + 1), Below(b, i + 1));
      SbcdNext(cpu, ax, ay, m0, a, b, n, i, x0, z0);
    }
    ChainEnd(m0, cpu.mem, mask, a, b, n, -1, x0, cpu.x, z0, cpu.notZ);
  }

  method SbcdNext(cpu: Cpu, ax: nat, ay: nat, ghost m0: Memory, ghost a: Operand, ghost b: Operand, ghost n: nat,
                  ghost i: nat,
                 ghost x0: bv32, ghost z0: bv32)
    requires cpu.Valid() && ax < 8 && ay < 8 && ax != ay && i < n && Apart(cpu.addressMask, a, b, n)
    requires a.step == Step(ax) && b.step == Step(ay) && cpu.dar[8 + ax] == Below(a, i)
             && cpu.dar[8 + ay] == Below(b, i)
    requires AllBcd(m0, cpu.addressMask, b, n)
    requires Chained(m0, cpu.mem, cpu.addressMask, a, b, n, i, -1, x0, cpu.x, z0, cpu.notZ)
    modifies cpu`dar, cpu`mem, cpu`x, cpu`notZ, cpu`c
    ensures cpu.Valid() && cpu.dar == EA.SetPair(old(cpu.dar), ax, ay, Below(a, i + 1), Below(b, i + 1))
            && cpu.c == cpu.x
    ensures Chained(m0, cpu.mem, cpu.addressMask, a, b, n, i + 1, -1, x0, cpu.x, z0, cpu.notZ)
  {
    hide KnownCpu, Modes, TraceAndMask, IsLevel, Minus, Bus, AllBcd, Apart, Chained, SubBytes, XFlag, EitherByte,
         ToByte, Number8, Put, Byte, EA.Carry;
    SubBytesIsByte(Digits(cpu.mem, cpu.addressMask, b, i + 1), Digits(cpu.mem, cpu.addressMask, a, i + 1),
        EA.Carry(cpu.x));
    SbcdOneMore(m0, cpu.mem, cpu.addressMask, a, b, n, i, x0, cpu.x, z0, cpu.notZ);
    Sbcd8(cpu, ax, ay);
  }

  /** One more instruction of the chain, on values. */
  lemma SbcdOneMore(m0: Memory, m: Memory, mask: bv32, a: Operand, b: Operand, n: nat, i: nat, x0: bv32, x: bv32,
                    z0: bv32, z: bv32)
    requires i < n && Apart(mask, a, b, n) && AllBcd(m0, mask, b, n)
             && Chained(m0, m, mask, a, b, n, i, -1, x0, x, z0, z)
    ensures var (r, carry) := SubBytes(Digits(m, mask, b, i + 1), Digits(m, mask, a, i + 1), EA.Carry(x));
            && 0 <= r < 256
            && Chained(m0, Put(m, Place(mask, a, i + 1), ToByte(r)), mask, a, b, n, i + 1, -1, x0, XFlag(carry), z0,
                EitherByte(z, ToByte(r)))
  {
    hide Digits, Place, Apart, SubBytes, Decimal, Power, Dec, Put, ToByte, Bcd, Untouched, XFlag, EitherByte, EA.Carry,
         Bit;
    var s, d := Digits(m, mask, b, i + 1), Digits(m, mask, a, i + 1);
    assert Bcd(Digits(m0, mask, b, i + 1)) && Bcd(d);
    SubBytesValue(s, d, EA.Carry(x));
    var (r, carry) := SubBytes(s, d, EA.Carry(x));
    BcdIsByte(r);
    XFlagCarries(carry);
    EitherIsZero(z, r);
    ChainStep(m0, m, mask, a, b, n, i, -1, x0, x, XFlag(carry), z0, z, EitherByte(z, ToByte(r)), r);
  }

  lemma ChainStart(m0: Memory, mask: bv32, a: Operand, b: Operand, n: nat, sign: int, x0: bv32, z0: bv32)
    requires AllBcd(m0, mask, a, n)
    ensures Chained(m0, m0, mask, a, b, n, 0, sign, x0, x0, z0, z0)
  {
    hide EA.Carry, Digits;
  }

  lemma ChainEnd(m0: Memory, m: Memory, mask: bv32, a: Operand, b: Operand, n: nat, sign: int, x0: bv32, x: bv32,
                 z0: bv32, z: bv32)
    requires Chained(m0, m, mask, a, b, n, n, sign, x0, x, z0, z)
    ensures Decimal(m, mask, a, n) + sign * (Power(n) * EA.Carry(x))
         == Decimal(m0, mask, a, n) + sign * (Decimal(m0, mask, b, n) + EA.Carry(x0))
    ensures z == 0 <==> z0 == 0 && Decimal(m, mask, a, n) == 0
    ensures Decimal(m, mask, b, n) == Decimal(m0, mask, b, n) && AllBcd(m, mask, a, n)
            && 0 <= Decimal(m, mask, a, n) < Power(n)
    ensures Untouched(m0, m, mask, a, n)
  {
    hide EA.Carry, Digits, Decimal, Power, Untouched;
    SameDigits(m0, m, mask, b, n);
    DecimalBounds(m, mask, a, n);
  }
}
