/**
 MULS.L and MULU.L (tools/r68k/musashi/m68k_in.c, mull). The handler is written twice:
 once with a 64-bit product and once, for compilers without one, from four 16x16
 products. Both compute the same registers and flags.
 */
module LongMultiply {

  const TWO16: int := 0x1_0000
  const TWO32: int := 0x1_0000_0000
  const TWO64: int := 0x1_0000_0000_0000_0000

  predicate Is32(x: int) { 0 <= x < TWO32 }

  /** What a C unsigned int (a C unsigned long long) keeps of a value. */
  function Wrap32(x: int): (r: int)
    ensures Is32(r)
  {
    x % TWO32
  }

  function Wrap64(x: int): (r: int)
    ensures 0 <= r < TWO64
  {
    x % TWO64
  }

  /** GET_MSB_32 */
  predicate Msb(x: int) { x >= 0x8000_0000 }

  /** (sint32)x and (sint64)x */
  function Signed32(x: int): int { if Msb(x) then x - TWO32 else x }

  function Signed64(x: int): int { if x >= 0x8000_0000_0000_0000 then x - TWO64 else x }

  /** What the instruction leaves: the registers it writes, and the flags; C is always cleared. */
  datatype Outcome = Long(low: int, n: bool, z: bool, v: bool) | Quad(high: int, low: int, n: bool, z: bool, v: bool)

  /** The product the instruction is for. */
  function Product(src: int, dst: int, signed: bool): int {
    if signed then Signed32(src) * Signed32(dst) else src * dst
  }

  /** The arm with a 64-bit product */
  function MulWide(src: int, dst: int, signed: bool, quad: bool): (r: Outcome)
    requires Is32(src) && Is32(dst)
  {
    var res := Wrap64(Product(src, dst, signed));
    var low, high := res % TWO32, res / TWO32;
    if quad then
      Quad(high, low, Msb(high), low == 0 && high == 0, false)
    else
      Long(low, Msb(low), low == 0, if signed then Signed64(res) != Signed32(low) else res > 0xffff_ffff)
  }

  function Low16(x: int): int { x % TWO16 }

  function High16(x: int): int { x / TWO16 }

  /** The low and high halves of the product of two unsigned numbers, from 16-bit pieces. */
  function PartialProducts(src: int, dst: int): (r: (int, int))
  {
    var r1, r2 := Low16(src) * Low16(dst), Low16(src) * High16(dst);
    var r3, r4 := High16(src) * Low16(dst), High16(src) * High16(dst);
    (Wrap32(r1 + Low16(r2) * TWO16 + Low16(r3) * TWO16),
     Wrap32(r4 + High16(r2) + High16(r3) + High16(High16(r1) + Low16(r2) + Low16(r3))))
  }

  /** -(sint)x of an unsigned int */
  function Negated(x: int): int { Wrap32(-x) }

  /** `lo` and `hi` of the arm for 32-bit compilers */
  function NarrowProduct(src: int, dst: int, signed: bool): (int, int) {
    var s := if signed && Msb(src) then Negated(src) else src;
    var d := if signed && Msb(dst) then Negated(dst) else dst;
    var (lo, hi) := PartialProducts(s, d);
    if signed && Msb(src) != Msb(dst) then
      (Negated(lo), Wrap32(Negated(hi) - (if lo != 0 then 1 else 0)))
    else
      (lo, hi)
  }

  /** The arm for 32-bit compilers */
  function MulNarrow(src: int, dst: int, signed: bool, quad: bool): (r: Outcome)
    requires Is32(src) && Is32(dst)
  {
    var (lo, hi) := NarrowProduct(src, dst, signed);
    if quad then
      Quad(hi, lo, Msb(hi), hi == 0 && lo == 0, false)
    else
      Long(lo, Msb(lo), lo == 0,
           if signed then !((Msb(lo) && hi == 0xffff_ffff) || (!Msb(lo) && hi == 0)) else hi != 0)
  }

  lemma Square16(a: int, b: int)
    requires 0 <= a < TWO16 && 0 <= b < TWO16
    ensures 0 <= a * b <= (TWO16 - 1) * (TWO16 - 1)
  {
    AtMostSquare(a, b, TWO16 - 1);
  }

  lemma AtMostSquare(a: int, b: int, m: int)
    requires 0 <= a <= m && 0 <= b <= m
    ensures 0 <= a * b <= m * m
  {
    assert (m - a) * b >= 0 && m * (m - b) >= 0;
  }

  lemma Expand(s1: int, s2: int, d1: int, d2: int)
    ensures (s1 + TWO16 * s2) * (d1 + TWO16 * d2) == s1 * d1 + TWO16 * (s1 * d2) + TWO16 * (s2 * d1) + TWO32 * (s2 * d2)
  {
  }

  /** The carries between the four products come out right. */
  lemma Recombine(r1: int, r2: int, r3: int, r4: int)
    requires 0 <= r1 < TWO32 && 0 <= r2 <= (TWO16 - 1) * (TWO16 - 1) && 0 <= r3 <= (TWO16 - 1) * (TWO16 - 1)
    requires 0 <= r4 <= (TWO16 - 1) * (TWO16 - 1)
    requires r1 + TWO16 * r2 + TWO16 * r3 + TWO32 * r4 < TWO64
    ensures var lo := Wrap32(r1 + Low16(r2) * TWO16 + Low16(r3) * TWO16);
            var hi := Wrap32(r4 + High16(r2) + High16(r3) + High16(High16(r1) + Low16(r2) + Low16(r3)));
            TWO32 * hi + lo == r1 + TWO16 * r2 + TWO16 * r3 + TWO32 * r4
  {
    var carry := High16(High16(r1) + Low16(r2) + Low16(r3));
    var rest := r1 + Low16(r2) * TWO16 + Low16(r3) * TWO16;
    assert rest / TWO32 == carry;
    var hi := r4 + High16(r2) + High16(r3) + carry;
    assert TWO32 * hi + rest % TWO32 == r1 + TWO16 * r2 + TWO16 * r3 + TWO32 * r4;
    assert 0 <= hi < TWO32;
  }

  lemma SplitHalves(x: int)
    requires Is32(x)
    ensures x == Low16(x) + TWO16 * High16(x) && 0 <= Low16(x) < TWO16 && 0 <= High16(x) < TWO16
  {
  }

  /** Long multiplication: the two halves are those of the exact product. */
  lemma PartialProductsExact(src: int, dst: int)
    requires Is32(src) && Is32(dst)
    ensures var (lo, hi) := PartialProducts(src, dst);
            Is32(lo) && Is32(hi) && TWO32 * hi + lo == src * dst && 0 <= src * dst < TWO64
  {
    hide Low16, High16, Wrap32;
    var s1, s2, d1, d2 := Low16(src), High16(src), Low16(dst), High16(dst);
    SplitHalves(src);
    SplitHalves(dst);
    Square16(s1, d1);
    Square16(s1, d2);
    Square16(s2, d1);
    Square16(s2, d2);
    Expand(s1, s2, d1, d2);
    AtMostSquare(src, dst, TWO32 - 1);
    Recombine(s1 * d1, s1 * d2, s2 * d1, s2 * d2);
  }

  /** Negating a 64-bit number held in two halves. */
  lemma NegateHalves(lo: int, hi: int)
    requires Is32(lo) && Is32(hi)
    ensures TWO32 * Wrap32(Negated(hi) - (if lo != 0 then 1 else 0)) + Negated(lo) == Wrap64(-(TWO32 * hi + lo))
  {
    if lo == 0 {
      if hi != 0 { assert Negated(hi) == TWO32 - hi; }
    } else {
      assert Negated(lo) == TWO32 - lo;
      assert Wrap32(Negated(hi) - 1) == TWO32 - hi - 1;
    }
  }

  /** The sign and size of the product, from the absolute values that are multiplied. */
  lemma SignedProduct(src: int, dst: int)
    requires Is32(src) && Is32(dst)
    ensures var s, d := if Msb(src) then Negated(src) else src, if Msb(dst) then Negated(dst) else dst;
            Signed32(src) * Signed32(dst) == if Msb(src) != Msb(dst) then -(s * d) else s * d
  {
    var a, b := Signed32(src), Signed32(dst);
    assert (-a) * b == -(a * b) && a * (-b) == -(a * b) && (-a) * (-b) == a * b;
  }

  lemma Halves(res: int, lo: int, hi: int)
    requires Is32(lo) && Is32(hi) && res == TWO32 * hi + lo
    ensures res % TWO32 == lo && res / TWO32 == hi
  {
  }

  /** Overflow of the 32-bit result, seen from the halves. */
  lemma NarrowOverflow(res: int, lo: int, hi: int)
    requires Is32(lo) && Is32(hi) && res == TWO32 * hi + lo
    ensures Signed64(res) == Signed32(lo) <==> (Msb(lo) && hi == 0xffff_ffff) || (!Msb(lo) && hi == 0)
  {
  }

  lemma NarrowProductExact(src: int, dst: int, signed: bool)
    requires Is32(src) && Is32(dst)
    ensures var (lo, hi) := NarrowProduct(src, dst, signed);
            Is32(lo) && Is32(hi) && TWO32 * hi + lo == Wrap64(Product(src, dst, signed))
  {
    hide PartialProducts, Wrap64, Signed32;
    var s := if signed && Msb(src) then Negated(src) else src;
    var d := if signed && Msb(dst) then Negated(dst) else dst;
    var (lo, hi) := PartialProducts(s, d);
    PartialProductsExact(s, d);
    SignedProduct(src, dst);
    NegateHalves(lo, hi);
    SmallIsItself(s * d);
  }

  lemma SmallIsItself(x: int)
    ensures 0 <= x < TWO64 ==> Wrap64(x) == x
  {
  }

  /** For every pair of operands and every form of the instruction, both arms leave the same registers and flags. */
  lemma MullArmsAgree(src: int, dst: int, signed: bool, quad: bool)
    requires Is32(src) && Is32(dst)
    ensures MulNarrow(src, dst, signed, quad) == MulWide(src, dst, signed, quad)
  {
    hide NarrowProduct, Wrap64, Product, Signed32, Signed64, Msb;
    var (lo, hi) := NarrowProduct(src, dst, signed);
    NarrowProductExact(src, dst, signed);
    var res := Wrap64(Product(src, dst, signed));
    Halves(res, lo, hi);
    NarrowOverflow(res, lo, hi);
  }

  /**
   The registers hold the mathematical product, two's complement when signed; V tells
   exactly when the long form loses it.
   */
  lemma MullIsMultiplication(src: int, dst: int, signed: bool)
    requires Is32(src) && Is32(dst)
    ensures var product := Product(src, dst, signed);
            var q, l := MulWide(src, dst, signed, true), MulWide(src, dst, signed, false);
            && product == (if signed then Signed64(TWO32 * q.high + q.low) else TWO32 * q.high + q.low)
            && (q.z <==> product == 0)
            && (signed ==> (q.n <==> product < 0))
            && (l.v <==> product != (if signed then Signed32(l.low) else l.low))
            && l.low == q.low
  {
    hide Product;
    var product := Product(src, dst, signed);
    ProductBounds(src, dst, signed);
    var res := Wrap64(product);
    assert res == TWO32 * (res / TWO32) + res % TWO32;
  }

  lemma ProductBounds(src: int, dst: int, signed: bool)
    requires Is32(src) && Is32(dst)
    ensures signed ==> -0x4000_0000_0000_0000 <= Product(src, dst, signed) <= 0x4000_0000_0000_0000
    ensures !signed ==> 0 <= Product(src, dst, signed) < TWO64
  {
    if signed {
      Absolute(Signed32(src), Signed32(dst), 0x8000_0000);
    } else {
      AtMostSquare(src, dst, TWO32 - 1);
    }
  }

  lemma Absolute(a: int, b: int, h: int)
    requires -h <= a <= h && -h <= b <= h
    ensures -(h * h) <= a * b <= h * h
  {
    assert (h - a) * (h + b) >= 0 && (h + a) * (h - b) >= 0;
    assert (h - a) * (h - b) >= 0 && (h + a) * (h + b) >= 0;
  }
}
