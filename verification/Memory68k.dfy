/**
 Memory as the Musashi core sees it: bytes at 32-bit addresses, big-endian words.
 */
module Memory68k {

  type Memory = bv32 -> bv8

  function Byte(m: Memory, a: bv32): bv8 { m(a) }

  function Put(m: Memory, a: bv32, v: bv8): Memory {
    (x: bv32) => if x == a then v else m(x)
  }

  function Lo8(v: bv32): bv8 {
    (v & 0xff) as bv8
  }

  /** The unsigned number a register holds. */
  function Nat(a: bv32): (r: nat)
    ensures r < 0x1_0000_0000
  {
    a as int
  }

  /** 32-bit address arithmetic. */
  function Plus(a: bv32, k: bv32): bv32 { a + k }

  function Minus(a: bv32, k: bv32): bv32 { a - k }

  /** The address lines a processor has: ADDRESS_68K. */
  function Bus(mask: bv32, a: bv32): bv32 { a & mask }

  function Low16(v: bv32): bv32 { v & 0xffff }

  function Join16(hi: bv8, lo: bv8): bv32 { (hi as bv32 << 8) | (lo as bv32) }

  function Join32(b3: bv8, b2: bv8, b1: bv8, b0: bv8): bv32 {
    (b3 as bv32 << 24) | (b2 as bv32 << 16) | (b1 as bv32 << 8) | (b0 as bv32)
  }

  function Read16(m: Memory, a: bv32): bv32 { Join16(Byte(m, a), Byte(m, a + 1)) }

  function Read32(m: Memory, a: bv32): bv32 {
    Join32(Byte(m, a), Byte(m, a + 1), Byte(m, a + 2), Byte(m, a + 3))
  }

  function Write16(m: Memory, a: bv32, v: bv32): Memory {
    Put(Put(m, a, Lo8(v >> 8)), a + 1, Lo8(v))
  }

  function Write32(m: Memory, a: bv32, v: bv32): Memory {
    Put(Put(Put(Put(m, a, Lo8(v >> 24)), a + 1, Lo8(v >> 16)), a + 2, Lo8(v >> 8)), a + 3, Lo8(v))
  }

  /** Byte `b` is not one of the two (four) bytes from `a`. */
  predicate OutsideWord(a: bv32, b: bv32) { b != a && b != a + 1 }

  predicate OutsideLong(a: bv32, b: bv32) { b != a && b != a + 1 && b != a + 2 && b != a + 3 }

  predicate WordsApart(a: bv32, b: bv32) { OutsideWord(a, b) && OutsideWord(a, b + 1) }

  predicate WordLongApart(a: bv32, b: bv32) {
    OutsideWord(a, b) && OutsideWord(a, b + 1) && OutsideWord(a, b + 2) && OutsideWord(a, b + 3)
  }

  predicate LongWordApart(a: bv32, b: bv32) { OutsideLong(a, b) && OutsideLong(a, b + 1) }

  predicate LongsApart(a: bv32, b: bv32) {
    OutsideLong(a, b) && OutsideLong(a, b + 1) && OutsideLong(a, b + 2) && OutsideLong(a, b + 3)
  }

  lemma PlusOfDifference(a: bv32, k: bv32)
    ensures Plus(a - k, k) == a
  {
  }

  lemma PlusOfSum(a: bv32, j: bv32, k: bv32)
    ensures Plus(a + j, k) == Plus(a, j + k)
  {
  }

  lemma PlusMinus(a: bv32, k: bv32)
    ensures Plus(Minus(a, k), k) == a
  {
    PlusOfDifference(a, k);
    hide Plus;
  }

  lemma PlusPlus(a: bv32, j: bv32, k: bv32)
    ensures Plus(Plus(a, j), k) == Plus(a, j + k)
  {
    PlusOfSum(a, j, k);
    assert Plus(a, j) == a + j;
    hide Plus;
  }

  lemma PlusIs(a: bv32, k: bv32)
    ensures Plus(a, k) == a + k
  {
  }

  lemma BusIs(mask: bv32, a: bv32)
    ensures Bus(mask, a) == a & mask
  {
  }

  lemma BusPlus(mask: bv32, a: bv32, k: bv32)
    ensures Bus(mask, Plus(a, k)) == (a + k) & mask
  {
    hide Plus, Bus;
    PlusIs(a, k);
    BusIs(mask, a + k);
  }

  lemma SplitWord(v: bv32)
    ensures Join16(Lo8(v >> 8), Lo8(v)) == Low16(v)
  {
  }

  lemma SplitLong(v: bv32)
    ensures Join32(Lo8(v >> 24), Lo8(v >> 16), Lo8(v >> 8), Lo8(v)) == v
  {
  }

  lemma ReadBack16(m: Memory, a: bv32, v: bv32)
    ensures Read16(Write16(m, a, v), a) == Low16(v)
  {
    SplitWord(v);
    assert a != a + 1;
  }

  lemma ReadBack32(m: Memory, a: bv32, v: bv32)
    ensures Read32(Write32(m, a, v), a) == v
  {
    SplitLong(v);
    assert a != a + 1 && a != a + 2 && a != a + 3 && a + 1 != a + 2 && a + 1 != a + 3 && a + 2 != a + 3;
  }

  lemma Frame16(m: Memory, a: bv32, v: bv32, b: bv32)
    requires OutsideWord(a, b)
    ensures Byte(Write16(m, a, v), b) == Byte(m, b)
  {
    hide Lo8;
  }

  lemma Frame32(m: Memory, a: bv32, v: bv32, b: bv32)
    requires OutsideLong(a, b)
    ensures Byte(Write32(m, a, v), b) == Byte(m, b)
  {
    hide Lo8;
  }

  lemma WordKeepsWord(m: Memory, a: bv32, v: bv32, b: bv32)
    requires WordsApart(a, b)
    ensures Read16(Write16(m, a, v), b) == Read16(m, b)
  {
    Frame16(m, a, v, b);
    Frame16(m, a, v, b + 1);
    hide Write16, OutsideWord, Byte, Join16, Join32;
  }

  lemma WordKeepsLong(m: Memory, a: bv32, v: bv32, b: bv32)
    requires WordLongApart(a, b)
    ensures Read32(Write16(m, a, v), b) == Read32(m, b)
  {
    Frame16(m, a, v, b);
    Frame16(m, a, v, b + 1);
    Frame16(m, a, v, b + 2);
    Frame16(m, a, v, b + 3);
    hide Write16, OutsideWord, Byte, Join16, Join32;
  }

  lemma LongKeepsWord(m: Memory, a: bv32, v: bv32, b: bv32)
    requires LongWordApart(a, b)
    ensures Read16(Write32(m, a, v), b) == Read16(m, b)
  {
    Frame32(m, a, v, b);
    Frame32(m, a, v, b + 1);
    hide Write32, OutsideLong, Byte, Join16, Join32;
  }

  lemma LongKeepsLong(m: Memory, a: bv32, v: bv32, b: bv32)
    requires LongsApart(a, b)
    ensures Read32(Write32(m, a, v), b) == Read32(m, b)
  {
    Frame32(m, a, v, b);
    Frame32(m, a, v, b + 1);
    Frame32(m, a, v, b + 2);
    Frame32(m, a, v, b + 3);
    hide Write32, OutsideLong, Byte, Join16, Join32;
  }
}
