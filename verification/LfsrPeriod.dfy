/**
 How soon the memory test's shift register (software/memcheck/memcheck.c, next_LFSR)
 repeats. A step multiplies by x in the polynomials over GF(2) modulo
 x^24 + x^23 + x^10 + x^5 + x^3 + x + 1, so n steps multiply by x^n; that polynomial is
 not primitive, and x^37449 is 1.
 */
module LfsrPeriod {
  import opened MemoryTest

  const PERIOD: nat := 37449

  // ---------------------------------------------------------------------------
  // Steps are linear
  // ---------------------------------------------------------------------------

  function Xor(a: bv24, b: bv24): bv24 { a ^ b }

  function And(a: bv24, b: bv24): bv24 { a & b }

  lemma XorCommutes(a: bv24, b: bv24)
    ensures Xor(a, b) == Xor(b, a)
  {
  }

  lemma XorAssociates(a: bv24, b: bv24, c: bv24)
    ensures Xor(Xor(a, b), c) == Xor(a, Xor(b, c))
  {
  }

  lemma XorCancels(a: bv24)
    ensures Xor(a, a) == 0 && Xor(a, 0) == a && Xor(0, a) == a
  {
  }

  lemma XorRegroups(a: bv24, b: bv24, c: bv24, d: bv24)
    ensures Xor(Xor(a, b), Xor(c, d)) == Xor(Xor(a, c), Xor(b, d))
  {
    hide Xor;
    XorAssociates(a, b, Xor(c, d));
    XorAssociates(b, c, d);
    XorCommutes(b, c);
    XorAssociates(c, b, d);
    XorAssociates(a, c, Xor(b, d));
  }

  lemma AndOfXor(u: bv24, w: bv24, b: bv24)
    ensures And(Xor(u, w), b) == Xor(And(u, b), And(w, b))
  {
  }

  /** A number with one bit set */
  predicate Single(b: bv24) { b != 0 && b & (b - 1) == 0 }

  lemma OneBit(v: bv24, b: bv24)
    requires Single(b)
    ensures b != 0 && (And(v, b) == 0 || And(v, b) == b)
  {
  }

  /** `c` if `v` has the bit `b` */
  function Pick(v: bv24, b: bv24, c: bv24): bv24 { if And(v, b) != 0 then c else 0 }

  lemma PickIsLinear(u: bv24, w: bv24, b: bv24, c: bv24)
    requires Single(b)
    ensures Pick(Xor(u, w), b, c) == Xor(Pick(u, b, c), Pick(w, b, c))
  {
    hide Xor, And, Single;
    OneBit(u, b);
    OneBit(w, b);
    AndOfXor(u, w, b);
    XorCancels(b);
    XorCancels(c);
    XorCancels(0);
  }

  function Up(v: bv24): bv24 { v << 1 }

  lemma UpIsLinear(a: bv24, b: bv24)
    ensures Up(Xor(a, b)) == Xor(Up(a), Up(b))
  {
  }

  lemma NextOfTop(v: bv24)
    requires And(v, 0x80_0000) != 0
    ensures Next(v) == Xor(Up(v), 0x80_042b)
  {
  }

  lemma NextOfOther(v: bv24)
    requires And(v, 0x80_0000) == 0
    ensures Next(v) == Up(v)
  {
  }

  lemma NextPicks(v: bv24)
    ensures Next(v) == Xor(Up(v), Pick(v, 0x80_0000, 0x80_042b))
  {
    hide Next, Up, Xor, And;
    XorCancels(Up(v));
    if And(v, 0x80_0000) != 0 { NextOfTop(v); } else { NextOfOther(v); }
  }

  lemma TopIsSingle()
    ensures Single(0x80_0000)
  {
  }

  lemma NextIsLinear(a: bv24, b: bv24)
    ensures Next(Xor(a, b)) == Xor(Next(a), Next(b))
  {
    hide Next, Xor, Up, Pick, Single;
    NextPicks(a);
    NextPicks(b);
    NextPicks(Xor(a, b));
    UpIsLinear(a, b);
    TopIsSingle();
    PickIsLinear(a, b, 0x80_0000, 0x80_042b);
    XorRegroups(Up(a), Up(b), Pick(a, 0x80_0000, 0x80_042b), Pick(b, 0x80_0000, 0x80_042b));
  }

  lemma {:induction false} IterateIsLinear(a: bv24, b: bv24, n: nat)
    ensures Iterate(Xor(a, b), n) == Xor(Iterate(a, n), Iterate(b, n))
  {
    hide Next, Xor;
    if n > 0 {
      IterateIsLinear(a, b, n - 1);
      NextIsLinear(Iterate(a, n - 1), Iterate(b, n - 1));
    }
  }

  lemma {:induction false} IterateAdds(v: bv24, m: nat, n: nat)
    ensures Iterate(Iterate(v, m), n) == Iterate(v, m + n)
  {
    hide Next;
    if n > 0 { IterateAdds(v, m, n - 1); }
  }

  // ---------------------------------------------------------------------------
  // What holds of single bits and of sums holds of all states
  // ---------------------------------------------------------------------------

  ghost predicate ClosedUnderXor(p: bv24 -> bool) { p(0) && forall a, b | p(a) && p(b) :: p(Xor(a, b)) }

  ghost predicate OnSingles(p: bv24 -> bool) { forall b | Single(b) :: p(b) }

  /** All but the lowest bit, and the lowest bit */
  function Rest(v: bv24): bv24 { v & (v - 1) }

  function Lowest(v: bv24): bv24 { v ^ (v & (v - 1)) }

  lemma RestIsLess(v: bv24)
    requires v != 0
    ensures Rest(v) < v
  {
  }

  lemma LowestIsSingle(v: bv24)
    requires v != 0
    ensures Single(Lowest(v))
  {
  }

  lemma RestAndLowest(v: bv24)
    ensures Xor(Rest(v), Lowest(v)) == v
  {
  }

  lemma {:induction false} OnAll(p: bv24 -> bool, v: bv24)
    requires ClosedUnderXor(p) && OnSingles(p)
    ensures p(v)
    decreases v
  {
    hide Xor, Rest, Lowest, Single;
    if v != 0 {
      RestIsLess(v);
      LowestIsSingle(v);
      RestAndLowest(v);
      OnAll(p, Rest(v));
    }
  }

  // ---------------------------------------------------------------------------
  // Squares
  // ---------------------------------------------------------------------------

  // The square of a sum of powers is the sum of their squares: x^(2i) for every bit i.

  /** What the bit `b` and the three above it contribute */
  function Four(v: bv24, b: bv24, c0: bv24, c1: bv24, c2: bv24, c3: bv24): bv24 {
    Xor(Xor(Pick(v, b, c0), Pick(v, b << 1, c1)), Xor(Pick(v, b << 2, c2), Pick(v, b << 3, c3)))
  }

  lemma FourIsLinear(u: bv24, w: bv24, b: bv24, c0: bv24, c1: bv24, c2: bv24, c3: bv24)
    requires Single(b) && Single(b << 1) && Single(b << 2) && Single(b << 3)
    ensures Four(Xor(u, w), b, c0, c1, c2, c3) == Xor(Four(u, b, c0, c1, c2, c3), Four(w, b, c0, c1, c2, c3))
  {
    hide Xor, Pick, Single;
    PickIsLinear(u, w, b, c0);
    PickIsLinear(u, w, b << 1, c1);
    PickIsLinear(u, w, b << 2, c2);
    PickIsLinear(u, w, b << 3, c3);
    var u0, u1, u2, u3 := Pick(u, b, c0), Pick(u, b << 1, c1), Pick(u, b << 2, c2), Pick(u, b << 3, c3);
    var w0, w1, w2, w3 := Pick(w, b, c0), Pick(w, b << 1, c1), Pick(w, b << 2, c2), Pick(w, b << 3, c3);
    XorRegroups(u0, w0, u1, w1);
    XorRegroups(u2, w2, u3, w3);
    XorRegroups(Xor(u0, u1), Xor(w0, w1), Xor(u2, u3), Xor(w2, w3));
  }

  function Nibble0(v: bv24): bv24 { Four(v, 0x00_0001, 0x00_0001, 0x00_0004, 0x00_0010, 0x00_0040) }

  function Nibble1(v: bv24): bv24 { Four(v, 0x00_0010, 0x00_0100, 0x00_0400, 0x00_1000, 0x00_4000) }

  function Nibble2(v: bv24): bv24 { Four(v, 0x00_0100, 0x01_0000, 0x04_0000, 0x10_0000, 0x40_0000) }

  function Nibble3(v: bv24): bv24 { Four(v, 0x00_1000, 0x80_042b, 0x80_1cd1, 0x80_7f39, 0x81_f099) }

  function Nibble4(v: bv24): bv24 { Four(v, 0x01_0000, 0x87_ce19, 0x9f_3419, 0xfc_dc19, 0xf3_7832) }

  function Nibble5(v: bv24): bv24 { Four(v, 0x10_0000, 0xcd_e89e, 0x37_aa2e, 0xde_a8b8, 0x7a_aab6) }

  function Square(v: bv24): bv24 {
    Xor(Xor(Nibble0(v), Nibble1(v)), Xor(Xor(Nibble2(v), Nibble3(v)), Xor(Nibble4(v), Nibble5(v))))
  }

  lemma Nibble0IsLinear(u: bv24, w: bv24)
    ensures Nibble0(Xor(u, w)) == Xor(Nibble0(u), Nibble0(w))
  {
    hide Xor, Four;
    FourIsLinear(u, w, 0x00_0001, 0x00_0001, 0x00_0004, 0x00_0010, 0x00_0040);
  }

  lemma Nibble1IsLinear(u: bv24, w: bv24)
    ensures Nibble1(Xor(u, w)) == Xor(Nibble1(u), Nibble1(w))
  {
    hide Xor, Four;
    FourIsLinear(u, w, 0x00_0010, 0x00_0100, 0x00_0400, 0x00_1000, 0x00_4000);
  }

  lemma Nibble2IsLinear(u: bv24, w: bv24)
    ensures Nibble2(Xor(u, w)) == Xor(Nibble2(u), Nibble2(w))
  {
    hide Xor, Four;
    FourIsLinear(u, w, 0x00_0100, 0x01_0000, 0x04_0000, 0x10_0000, 0x40_0000);
  }

  lemma Nibble3IsLinear(u: bv24, w: bv24)
    ensures Nibble3(Xor(u, w)) == Xor(Nibble3(u), Nibble3(w))
  {
    hide Xor, Four;
    FourIsLinear(u, w, 0x00_1000, 0x80_042b, 0x80_1cd1, 0x80_7f39, 0x81_f099);
  }

  lemma Nibble4IsLinear(u: bv24, w: bv24)
    ensures Nibble4(Xor(u, w)) == Xor(Nibble4(u), Nibble4(w))
  {
    hide Xor, Four;
    FourIsLinear(u, w, 0x01_0000, 0x87_ce19, 0x9f_3419, 0xfc_dc19, 0xf3_7832);
  }

  lemma Nibble5IsLinear(u: bv24, w: bv24)
    ensures Nibble5(Xor(u, w)) == Xor(Nibble5(u), Nibble5(w))
  {
    hide Xor, Four;
    FourIsLinear(u, w, 0x10_0000, 0xcd_e89e, 0x37_aa2e, 0xde_a8b8, 0x7a_aab6);
  }

  lemma SquareIsLinear(u: bv24, w: bv24)
    ensures Square(Xor(u, w)) == Xor(Square(u), Square(w))
  {
    hide Xor, Nibble0, Nibble1, Nibble2, Nibble3, Nibble4, Nibble5;
    Nibble0IsLinear(u, w);
    Nibble1IsLinear(u, w);
    Nibble2IsLinear(u, w);
    Nibble3IsLinear(u, w);
    Nibble4IsLinear(u, w);
    Nibble5IsLinear(u, w);
    XorRegroups(Nibble0(u), Nibble0(w), Nibble1(u), Nibble1(w));
    XorRegroups(Nibble2(u), Nibble2(w), Nibble3(u), Nibble3(w));
    XorRegroups(Nibble4(u), Nibble4(w), Nibble5(u), Nibble5(w));
    var u0, u1, u2 := Xor(Nibble0(u), Nibble1(u)), Xor(Nibble2(u), Nibble3(u)), Xor(Nibble4(u), Nibble5(u));
    var w0, w1, w2 := Xor(Nibble0(w), Nibble1(w)), Xor(Nibble2(w), Nibble3(w)), Xor(Nibble4(w), Nibble5(w));
    XorRegroups(u1, w1, u2, w2);
    XorRegroups(u0, w0, Xor(u1, u2), Xor(w1, w2));
  }

  /** Squaring after a step is two steps after squaring. */
  predicate SquareCommutes(v: bv24) { Square(Next(v)) == Next(Next(Square(v))) }

  lemma CommutesOnNibble0()
    ensures SquareCommutes(0x00_0001)
    ensures SquareCommutes(0x00_0002)
    ensures SquareCommutes(0x00_0004)
    ensures SquareCommutes(0x00_0008)
  {
    assert Square(0x00_0001) == 0x00_0001;
    assert Square(0x00_0002) == 0x00_0004;
    assert Square(0x00_0004) == 0x00_0010;
    assert Square(0x00_0008) == 0x00_0040;
    assert Square(0x00_0010) == 0x00_0100;
  }

  lemma SinglesOfNibble0(b: bv24)
    requires Single(b) && And(b, 0x00_000f) != 0
    ensures b == 0x00_0001 || b == 0x00_0002 || b == 0x00_0004 || b == 0x00_0008
  {
  }

  lemma CommutesOnSingles0(b: bv24)
    requires Single(b) && And(b, 0x00_000f) != 0
    ensures SquareCommutes(b)
  {
    hide Single, SquareCommutes, And;
    SinglesOfNibble0(b);
    CommutesOnNibble0();
  }

  lemma CommutesOnNibble1()
    ensures SquareCommutes(0x00_0010)
    ensures SquareCommutes(0x00_0020)
    ensures SquareCommutes(0x00_0040)
    ensures SquareCommutes(0x00_0080)
  {
    assert Square(0x00_0010) == 0x00_0100;
    assert Square(0x00_0020) == 0x00_0400;
    assert Square(0x00_0040) == 0x00_1000;
    assert Square(0x00_0080) == 0x00_4000;
    assert Square(0x00_0100) == 0x01_0000;
  }

  lemma SinglesOfNibble1(b: bv24)
    requires Single(b) && And(b, 0x00_00f0) != 0
    ensures b == 0x00_0010 || b == 0x00_0020 || b == 0x00_0040 || b == 0x00_0080
  {
  }

  lemma CommutesOnSingles1(b: bv24)
    requires Single(b) && And(b, 0x00_00f0) != 0
    ensures SquareCommutes(b)
  {
    hide Single, SquareCommutes, And;
    SinglesOfNibble1(b);
    CommutesOnNibble1();
  }

  lemma CommutesOnNibble2()
    ensures SquareCommutes(0x00_0100)
    ensures SquareCommutes(0x00_0200)
    ensures SquareCommutes(0x00_0400)
    ensures SquareCommutes(0x00_0800)
  {
    assert Square(0x00_0100) == 0x01_0000;
    assert Square(0x00_0200) == 0x04_0000;
    assert Square(0x00_0400) == 0x10_0000;
    assert Square(0x00_0800) == 0x40_0000;
    assert Square(0x00_1000) == 0x80_042b;
  }

  lemma SinglesOfNibble2(b: bv24)
    requires Single(b) && And(b, 0x00_0f00) != 0
    ensures b == 0x00_0100 || b == 0x00_0200 || b == 0x00_0400 || b == 0x00_0800
  {
  }

  lemma CommutesOnSingles2(b: bv24)
    requires Single(b) && And(b, 0x00_0f00) != 0
    ensures SquareCommutes(b)
  {
    hide Single, SquareCommutes, And;
    SinglesOfNibble2(b);
    CommutesOnNibble2();
  }

  lemma CommutesOnNibble3()
    ensures SquareCommutes(0x00_1000)
    ensures SquareCommutes(0x00_2000)
    ensures SquareCommutes(0x00_4000)
    ensures SquareCommutes(0x00_8000)
  {
    assert Square(0x00_1000) == 0x80_042b;
    assert Square(0x00_2000) == 0x80_1cd1;
    assert Square(0x00_4000) == 0x80_7f39;
    assert Square(0x00_8000) == 0x81_f099;
    assert Square(0x01_0000) == 0x87_ce19;
  }

  lemma SinglesOfNibble3(b: bv24)
    requires Single(b) && And(b, 0x00_f000) != 0
    ensures b == 0x00_1000 || b == 0x00_2000 || b == 0x00_4000 || b == 0x00_8000
  {
  }

  lemma CommutesOnSingles3(b: bv24)
    requires Single(b) && And(b, 0x00_f000) != 0
    ensures SquareCommutes(b)
  {
    hide Single, SquareCommutes, And;
    SinglesOfNibble3(b);
    CommutesOnNibble3();
  }

  lemma CommutesOnNibble4()
    ensures SquareCommutes(0x01_0000)
    ensures SquareCommutes(0x02_0000)
    ensures SquareCommutes(0x04_0000)
    ensures SquareCommutes(0x08_0000)
  {
    assert Square(0x01_0000) == 0x87_ce19;
    assert Square(0x02_0000) == 0x9f_3419;
    assert Square(0x04_0000) == 0xfc_dc19;
    assert Square(0x08_0000) == 0xf3_7832;
    assert Square(0x10_0000) == 0xcd_e89e;
  }

  lemma SinglesOfNibble4(b: bv24)
    requires Single(b) && And(b, 0x0f_0000) != 0
    ensures b == 0x01_0000 || b == 0x02_0000 || b == 0x04_0000 || b == 0x08_0000
  {
  }

  lemma CommutesOnSingles4(b: bv24)
    requires Single(b) && And(b, 0x0f_0000) != 0
    ensures SquareCommutes(b)
  {
    hide Single, SquareCommutes, And;
    SinglesOfNibble4(b);
    CommutesOnNibble4();
  }

  lemma SquareOfPolynomial()
    ensures Square(0x80_042b) == 0x6a_aef3
  {
    assert Nibble0(0x80_042b) == 0x00_0045;
    assert Nibble1(0x80_042b) == 0x00_0400;
    assert Nibble2(0x80_042b) == 0x10_0000;
    assert Nibble3(0x80_042b) == 0x00_0000;
    assert Nibble4(0x80_042b) == 0x00_0000;
    assert Nibble5(0x80_042b) == 0x7a_aab6;
  }

  lemma CommutesOnTop()
    ensures SquareCommutes(0x80_0000)
  {
    SquareOfPolynomial();
    assert Square(0x80_0000) == 0x7a_aab6;
    hide Square;
    assert Next(0x80_0000) == 0x80_042b;
  }

  lemma CommutesOnNibble5()
    ensures SquareCommutes(0x10_0000)
    ensures SquareCommutes(0x20_0000)
    ensures SquareCommutes(0x40_0000)
    ensures SquareCommutes(0x80_0000)
  {
    CommutesOnTop();
    assert Square(0x10_0000) == 0xcd_e89e;
    assert Square(0x20_0000) == 0x37_aa2e;
    assert Square(0x40_0000) == 0xde_a8b8;
    assert Square(0x80_0000) == 0x7a_aab6;
  }

  lemma SinglesOfNibble5(b: bv24)
    requires Single(b) && And(b, 0xf0_0000) != 0
    ensures b == 0x10_0000 || b == 0x20_0000 || b == 0x40_0000 || b == 0x80_0000
  {
  }

  lemma CommutesOnSingles5(b: bv24)
    requires Single(b) && And(b, 0xf0_0000) != 0
    ensures SquareCommutes(b)
  {
    hide Single, SquareCommutes, And;
    SinglesOfNibble5(b);
    CommutesOnNibble5();
  }

  lemma SomeNibble(b: bv24)
    requires b != 0
    ensures And(b, 0x00_000f) != 0 || And(b, 0x00_00f0) != 0 || And(b, 0x00_0f00) != 0 || And(b, 0x00_f000) != 0
            || And(b, 0x0f_0000) != 0 || And(b, 0xf0_0000) != 0
  {
  }

  lemma SquareCommutesOnSingles(b: bv24)
    requires Single(b)
    ensures SquareCommutes(b)
  {
    SomeNibble(b);
    hide Single, SquareCommutes, And;
    if And(b, 0x00_000f) != 0 { CommutesOnSingles0(b); }
    else if And(b, 0x00_00f0) != 0 { CommutesOnSingles1(b); }
    else if And(b, 0x00_0f00) != 0 { CommutesOnSingles2(b); }
    else if And(b, 0x00_f000) != 0 { CommutesOnSingles3(b); }
    else if And(b, 0x0f_0000) != 0 { CommutesOnSingles4(b); }
    else { CommutesOnSingles5(b); }
  }

  lemma SquareCommutesOnSums(a: bv24, b: bv24)
    requires SquareCommutes(a) && SquareCommutes(b)
    ensures SquareCommutes(Xor(a, b))
  {
    hide Xor, Square, Next;
    NextIsLinear(a, b);
    SquareIsLinear(a, b);
    SquareIsLinear(Next(a), Next(b));
    NextIsLinear(Square(a), Square(b));
    NextIsLinear(Next(Square(a)), Next(Square(b)));
  }

  lemma SquareOfZero()
    ensures SquareCommutes(0)
  {
  }

  lemma SquareAlwaysCommutes(v: bv24)
    ensures SquareCommutes(v)
  {
    hide SquareCommutes, Xor, Single;
    var p := (w: bv24) => SquareCommutes(w);
    SquareOfZero();
    forall a, b | p(a) && p(b)
      ensures p(Xor(a, b))
    {
      SquareCommutesOnSums(a, b);
    }
    forall b | Single(b)
      ensures p(b)
    {
      SquareCommutesOnSingles(b);
    }
    OnAll(p, v);
  }

  /** x^(2n) is the square of x^n. */
  lemma {:induction false} Doubled(n: nat)
    ensures Iterate(1, 2 * n) == Square(Iterate(1, n))
  {
    if n > 0 {
      hide Square, Next;
      Doubled(n - 1);
      assert Iterate(1, 2 * n - 1) == Next(Iterate(1, 2 * (n - 1)));
      SquareAlwaysCommutes(Iterate(1, n - 1));
    }
  }

  // ---------------------------------------------------------------------------
  // The period
  // ---------------------------------------------------------------------------

  lemma PowerDoubles(n: nat, r: bv24, s: bv24)
    requires Iterate(1, n) == r && Square(r) == s
    ensures Iterate(1, 2 * n) == s
  {
    hide Square, Next;
    Doubled(n);
  }

  lemma PowerSteps(n: nat, r: bv24, s: bv24)
    requires Iterate(1, n) == r && Next(r) == s
    ensures Iterate(1, n + 1) == s
  {
    hide Next;
  }

  lemma SquareAt1()
    ensures Square(0x00_0002) == 0x00_0004
  {
  }

  lemma SquareAt2()
    ensures Square(0x00_0004) == 0x00_0010
  {
  }

  lemma SquareAt4()
    ensures Square(0x00_0010) == 0x00_0100
  {
  }

  lemma StepAt8()
    ensures Next(0x00_0100) == 0x00_0200
  {
  }

  lemma PowerOf9()
    ensures Iterate(1, 9) == 0x00_0200
  {
    hide Iterate, Square, Next;
    PowerOfOne();
    SquareAt1();
    PowerDoubles(1, 0x00_0002, 0x00_0004);
    SquareAt2();
    PowerDoubles(2, 0x00_0004, 0x00_0010);
    SquareAt4();
    PowerDoubles(4, 0x00_0010, 0x00_0100);
    StepAt8();
    PowerSteps(8, 0x00_0100, 0x00_0200);
  }

  lemma SquareAt9()
    ensures Square(0x00_0200) == 0x04_0000
  {
  }

  lemma SquareAt18()
    ensures Square(0x04_0000) == 0xfc_dc19
  {
    assert Nibble0(0x04_0000) == 0x00_0000;
    assert Nibble1(0x04_0000) == 0x00_0000;
    assert Nibble2(0x04_0000) == 0x00_0000;
    assert Nibble3(0x04_0000) == 0x00_0000;
    assert Nibble4(0x04_0000) == 0xfc_dc19;
    assert Nibble5(0x04_0000) == 0x00_0000;
  }

  lemma SquareAt36()
    ensures Square(0xfc_dc19) == 0x80_6e5f
  {
    assert Nibble0(0xfc_dc19) == 0x00_0041;
    assert Nibble1(0xfc_dc19) == 0x00_0100;
    assert Nibble2(0xfc_dc19) == 0x50_0000;
    assert Nibble3(0xfc_dc19) == 0x81_8b8b;
    assert Nibble4(0xfc_dc19) == 0x0f_a42b;
    assert Nibble5(0xfc_dc19) == 0x5e_40be;
  }

  lemma StepAt72()
    ensures Next(0x80_6e5f) == 0x80_d895
  {
  }

  lemma PowerOf73()
    ensures Iterate(1, 73) == 0x80_d895
  {
    hide Iterate, Square, Next;
    PowerOf9();
    SquareAt9();
    PowerDoubles(9, 0x00_0200, 0x04_0000);
    SquareAt18();
    PowerDoubles(18, 0x04_0000, 0xfc_dc19);
    SquareAt36();
    PowerDoubles(36, 0xfc_dc19, 0x80_6e5f);
    StepAt72();
    PowerSteps(72, 0x80_6e5f, 0x80_d895);
  }

  lemma SquareAt73()
    ensures Square(0x80_d895) == 0xbb_602c
  {
    assert Nibble0(0x80_d895) == 0x00_0011;
    assert Nibble1(0x80_d895) == 0x00_4100;
    assert Nibble2(0x80_d895) == 0x40_0000;
    assert Nibble3(0x80_d895) == 0x81_8b8b;
    assert Nibble4(0x80_d895) == 0x00_0000;
    assert Nibble5(0x80_d895) == 0x7a_aab6;
  }

  lemma SquareAt146()
    ensures Square(0xbb_602c) == 0x6b_0d8c
  {
    assert Nibble0(0xbb_602c) == 0x00_0050;
    assert Nibble1(0xbb_602c) == 0x00_0400;
    assert Nibble2(0xbb_602c) == 0x00_0000;
    assert Nibble3(0xbb_602c) == 0x00_63e8;
    assert Nibble4(0xbb_602c) == 0xeb_8232;
    assert Nibble5(0xbb_602c) == 0x80_e806;
  }

  lemma SquareAt292()
    ensures Square(0x6b_0d8c) == 0x53_c0f4
  {
    assert Nibble0(0x6b_0d8c) == 0x00_0050;
    assert Nibble1(0x6b_0d8c) == 0x00_4000;
    assert Nibble2(0x6b_0d8c) == 0x51_0000;
    assert Nibble3(0x6b_0d8c) == 0x00_0000;
    assert Nibble4(0x6b_0d8c) == 0xeb_8232;
    assert Nibble5(0x6b_0d8c) == 0xe9_0296;
  }

  lemma StepAt584()
    ensures Next(0x53_c0f4) == 0xa7_81e8
  {
  }

  lemma PowerOf585()
    ensures Iterate(1, 585) == 0xa7_81e8
  {
    hide Iterate, Square, Next;
    PowerOf73();
    SquareAt73();
    PowerDoubles(73, 0x80_d895, 0xbb_602c);
    SquareAt146();
    PowerDoubles(146, 0xbb_602c, 0x6b_0d8c);
    SquareAt292();
    PowerDoubles(292, 0x6b_0d8c, 0x53_c0f4);
    StepAt584();
    PowerSteps(584, 0x53_c0f4, 0xa7_81e8);
  }

  lemma SquareAt585()
    ensures Square(0xa7_81e8) == 0x29_8258
  {
    assert Nibble0(0xa7_81e8) == 0x00_0040;
    assert Nibble1(0xa7_81e8) == 0x00_5400;
    assert Nibble2(0xa7_81e8) == 0x01_0000;
    assert Nibble3(0xa7_81e8) == 0x81_f099;
    assert Nibble4(0xa7_81e8) == 0xe4_2619;
    assert Nibble5(0xa7_81e8) == 0x4d_0098;
  }

  lemma SquareAt1170()
    ensures Square(0x29_8258) == 0xc6_fddc
  {
    assert Nibble0(0x29_8258) == 0x00_0040;
    assert Nibble1(0x29_8258) == 0x00_1100;
    assert Nibble2(0x29_8258) == 0x04_0000;
    assert Nibble3(0x29_8258) == 0x81_f099;
    assert Nibble4(0x29_8258) == 0x74_b62b;
    assert Nibble5(0x29_8258) == 0x37_aa2e;
  }

  lemma SquareAt2340()
    ensures Square(0xc6_fddc) == 0x97_2c04
  {
    assert Nibble0(0xc6_fddc) == 0x00_0050;
    assert Nibble1(0xc6_fddc) == 0x00_5100;
    assert Nibble2(0xc6_fddc) == 0x51_0000;
    assert Nibble3(0xc6_fddc) == 0x01_975a;
    assert Nibble4(0xc6_fddc) == 0x63_e800;
    assert Nibble5(0xc6_fddc) == 0xa4_020e;
  }

  lemma StepAt4680()
    ensures Next(0x97_2c04) == 0xae_5c23
  {
  }

  lemma PowerOf4681()
    ensures Iterate(1, 4681) == 0xae_5c23
  {
    hide Iterate, Square, Next;
    PowerOf585();
    SquareAt585();
    PowerDoubles(585, 0xa7_81e8, 0x29_8258);
    SquareAt1170();
    PowerDoubles(1170, 0x29_8258, 0xc6_fddc);
    SquareAt2340();
    PowerDoubles(2340, 0xc6_fddc, 0x97_2c04);
    StepAt4680();
    PowerSteps(4680, 0x97_2c04, 0xae_5c23);
  }

  lemma SquareAt4681()
    ensures Square(0xae_5c23) == 0x8d_efbd
  {
    assert Nibble0(0xae_5c23) == 0x00_0005;
    assert Nibble1(0xae_5c23) == 0x00_0400;
    assert Nibble2(0xae_5c23) == 0x50_0000;
    assert Nibble3(0xae_5c23) == 0x00_7b12;
    assert Nibble4(0xae_5c23) == 0x90_9032;
    assert Nibble5(0xae_5c23) == 0x4d_0098;
  }

  lemma SquareAt9362()
    ensures Square(0x8d_efbd) == 0x26_16a4
  {
    assert Nibble0(0x8d_efbd) == 0x00_0051;
    assert Nibble1(0x8d_efbd) == 0x00_4500;
    assert Nibble2(0x8d_efbd) == 0x55_0000;
    assert Nibble3(0x8d_efbd) == 0x81_9371;
    assert Nibble4(0x8d_efbd) == 0x88_6a32;
    assert Nibble5(0x8d_efbd) == 0x7a_aab6;
  }

  lemma SquareAt18724()
    ensures Square(0x26_16a4) == 0xc0_0215
  {
    assert Nibble0(0x26_16a4) == 0x00_0010;
    assert Nibble1(0x26_16a4) == 0x00_4400;
    assert Nibble2(0x26_16a4) == 0x14_0000;
    assert Nibble3(0x26_16a4) == 0x80_042b;
    assert Nibble4(0x26_16a4) == 0x63_e800;
    assert Nibble5(0x26_16a4) == 0x37_aa2e;
  }

  lemma StepAt37448()
    ensures Next(0xc0_0215) == 0x00_0001
  {
  }

  lemma PowerOf37449()
    ensures Iterate(1, 37449) == 0x00_0001
  {
    hide Iterate, Square, Next;
    PowerOf4681();
    SquareAt4681();
    PowerDoubles(4681, 0xae_5c23, 0x8d_efbd);
    SquareAt9362();
    PowerDoubles(9362, 0x8d_efbd, 0x26_16a4);
    SquareAt18724();
    PowerDoubles(18724, 0x26_16a4, 0xc0_0215);
    StepAt37448();
    PowerSteps(37448, 0xc0_0215, 0x00_0001);
  }

  lemma PowerOfOne()
    ensures Iterate(1, 1) == 0x00_0002
  {
    assert Iterate(1, 0) == 1;
  }

  lemma HalfOfSingle(b: bv24)
    requires Single(b) && b != 1
    ensures Single(b >> 1) && b >> 1 < b && Next(b >> 1) == b
  {
  }

  lemma {:induction false} ReturnsOnSingles(b: bv24)
    requires Single(b)
    ensures Returns(b)
    decreases b
  {
    hide Single;
    if b == 1 {
      hide Iterate;
      PowerOf37449();
    } else {
      HalfOfSingle(b);
      ReturnsOnSingles(b >> 1);
      hide Next, Iterate;
      StepsCommute(b >> 1, PERIOD);
    }
  }

  lemma StepsCommute(v: bv24, n: nat)
    ensures Iterate(Next(v), n) == Next(Iterate(v, n))
  {
    IterateAdds(v, 1, n);
    IterateAdds(v, n, 1);
    OneStep(v);
    OneStep(Iterate(v, n));
    hide Iterate, Next;
  }

  lemma OneStep(v: bv24)
    ensures Iterate(v, 1) == Next(v)
  {
    hide Next;
    assert Iterate(v, 0) == v;
  }

  predicate Returns(v: bv24) { Iterate(v, PERIOD) == v }

  lemma {:induction false} ZeroIterates(n: nat)
    ensures Iterate(0, n) == 0
  {
    if n > 0 {
      ZeroIterates(n - 1);
      ZeroStays(0);
    }
  }

  lemma ReturnsOnSums(a: bv24, b: bv24)
    requires Returns(a) && Returns(b)
    ensures Returns(Xor(a, b))
  {
    hide Xor, Iterate;
    IterateIsLinear(a, b, PERIOD);
  }

  /** Every state returns after 37449 steps, where a maximal register would take 16777215. */
  lemma EveryStateReturns(v: bv24)
    ensures Iterate(v, PERIOD) == v
  {
    hide Returns, Xor, Single;
    var p := (w: bv24) => Returns(w);
    ZeroReturns();
    forall a, b | p(a) && p(b)
      ensures p(Xor(a, b))
    {
      ReturnsOnSums(a, b);
    }
    forall b | Single(b)
      ensures p(b)
    {
      ReturnsOnSingles(b);
    }
    OnAll(p, v);
    ReturnsMeans(v);
  }

  lemma ZeroReturns()
    ensures Returns(0)
  {
    hide Iterate;
    ZeroIterates(PERIOD);
  }

  lemma ReturnsMeans(v: bv24)
    requires Returns(v)
    ensures Iterate(v, PERIOD) == v
  {
  }

  /** So the fill repeats every 37449 words, whatever the seed: words that far apart hold the same. */
  lemma {:induction false} FillRepeats(seed: bv24, j: nat, k: nat)
    ensures Sample(seed, j + PERIOD * k) == Sample(seed, j)
  {
    hide Word, Iterate;
    if k > 0 {
      FillRepeats(seed, j, k - 1);
      var i := j + PERIOD * (k - 1);
      IterateAdds(seed, PERIOD, i + 1);
      EveryStateReturns(seed);
      assert i + PERIOD == j + PERIOD * k;
    }
  }

  /** Some seeds repeat much sooner. */
  lemma ShortFill()
    ensures Iterate(0x82_42c8, 9) == 0x82_42c8
  {
    assert Iterate(0x82_42c8, 1) == 0x84_81bb;
    assert Iterate(0x82_42c8, 2) == 0x89_075d;
    assert Iterate(0x82_42c8, 3) == 0x92_0a91;
    assert Iterate(0x82_42c8, 4) == 0xa4_1109;
    assert Iterate(0x82_42c8, 5) == 0xc8_2639;
    assert Iterate(0x82_42c8, 6) == 0x10_4859;
    assert Iterate(0x82_42c8, 7) == 0x20_90b2;
    assert Iterate(0x82_42c8, 8) == 0x41_2164;
  }
}
