/**
 The periods of the memory test's shift register (software/memcheck/memcheck.c,
 next_LFSR), exactly: a nonzero state comes back after 9 steps and no fewer, or after
 37449 and no fewer.
 */
module LfsrOrder {
  import opened MemoryTest
  import opened LfsrPeriod
  import opened Divisibility

  // ---------------------------------------------------------------------------
  // Step counts after which a state is back
  // ---------------------------------------------------------------------------

  predicate Back(v: bv24, n: nat) { Iterate(v, n) == v }

  lemma BackAfterRest(v: bv24, x: nat, y: nat)
    requires Back(v, y)
    ensures Back(v, x + y) <==> Back(v, x)
  {
    hide Iterate;
    IterateAdds(v, y, x);
  }

  lemma {:induction false} BackAfterMultiple(v: bv24, y: nat, k: nat)
    requires Back(v, y)
    ensures Back(v, k * y)
  {
    if k > 0 {
      BackAfterMultiple(v, y, k - 1);
      assert k * y == (k - 1) * y + y;
      hide Iterate;
      BackAfterRest(v, (k - 1) * y, y);
    }
  }

  lemma BackAfterModulo(v: bv24, c: nat, a: nat, b: nat)
    requires b > 0 && Back(v, c * a) && Back(v, c * b)
    ensures Back(v, c * (a % b))
  {
    hide Back;
    SmallQuotient(a, b);
    DivMod(a, b);
    var q, r := a / b, a % b;
    BackAfterMultiple(v, c * b, q);
    NotNegative(c, r);
    NotNegative(q, c * b);
    Spread(c, q, b, r);
    BackAfterRest(v, c * r, q * (c * b));
  }

  /** Euclid's algorithm on step counts. */
  lemma {:induction false} BackAfterGcd(v: bv24, c: nat, a: nat, b: nat)
    requires Back(v, c * a) && Back(v, c * b)
    ensures Back(v, c * Gcd(a, b))
    decreases b
  {
    hide Back;
    if b > 0 {
      BackAfterModulo(v, c, a, b);
      BackAfterGcd(v, c, b, a % b);
    }
  }

  lemma Spread(c: nat, q: nat, b: nat, r: nat)
    ensures c * (b * q + r) == c * r + q * (c * b)
  {
  }

  // ---------------------------------------------------------------------------
  // Polynomials applied to states
  // ---------------------------------------------------------------------------

  /** The sum of x^i v over the bits i of u */
  function Apply(u: bv24, v: bv24): bv24
    decreases u
  {
    if u == 0 then 0 else
      Halves(u);
      if u & 1 != 0 then Xor(Next(Apply(u >> 1, v)), v) else Next(Apply(u >> 1, v))
  }

  lemma Halves(u: bv24)
    requires u != 0
    ensures u >> 1 < u
  {
  }

  lemma NextOfZero()
    ensures Next(0) == 0
  {
  }

  lemma {:induction false} ApplyIsLinear(u: bv24, a: bv24, b: bv24)
    ensures Apply(u, Xor(a, b)) == Xor(Apply(u, a), Apply(u, b))
    decreases u
  {
    hide Xor, Next;
    XorCancels(0);
    if u != 0 {
      Halves(u);
      ApplyIsLinear(u >> 1, a, b);
      var x, y := Apply(u >> 1, a), Apply(u >> 1, b);
      NextIsLinear(x, y);
      XorRegroups(Next(x), Next(y), a, b);
    }
  }

  lemma {:induction false} ApplySteps(u: bv24, v: bv24)
    ensures Apply(u, Next(v)) == Next(Apply(u, v))
    decreases u
  {
    hide Xor, Next;
    NextOfZero();
    if u != 0 {
      Halves(u);
      ApplySteps(u >> 1, v);
      NextIsLinear(Next(Apply(u >> 1, v)), v);
    }
  }

  lemma {:induction false} ApplyToZero(u: bv24)
    ensures Apply(u, 0) == 0
    decreases u
  {
    hide Xor, Next;
    NextOfZero();
    XorCancels(0);
    if u != 0 {
      Halves(u);
      ApplyToZero(u >> 1);
    }
  }

  /** u (x^n + 1) = w, applied to v */
  predicate Transfers(u: bv24, w: bv24, n: nat, v: bv24) { Apply(u, Xor(Iterate(v, n), v)) == Apply(w, v) }

  lemma TransfersOnSums(u: bv24, w: bv24, n: nat, a: bv24, b: bv24)
    requires Transfers(u, w, n, a) && Transfers(u, w, n, b)
    ensures Transfers(u, w, n, Xor(a, b))
  {
    hide Xor, Apply, Iterate;
    IterateIsLinear(a, b, n);
    var x, y := Iterate(a, n), Iterate(b, n);
    XorRegroups(x, y, a, b);
    ApplyIsLinear(u, Xor(x, a), Xor(y, b));
    ApplyIsLinear(w, a, b);
  }

  lemma TransfersNext(u: bv24, w: bv24, n: nat, v: bv24)
    requires Transfers(u, w, n, v)
    ensures Transfers(u, w, n, Next(v))
  {
    hide Xor, Apply, Iterate, Next;
    StepsCommute(v, n);
    NextIsLinear(Iterate(v, n), v);
    ApplySteps(u, Xor(Iterate(v, n), v));
    ApplySteps(w, v);
  }

  lemma {:induction false} TransfersOnSingles(u: bv24, w: bv24, n: nat, b: bv24)
    requires Transfers(u, w, n, 1) && Single(b)
    ensures Transfers(u, w, n, b)
    decreases b
  {
    hide Transfers, Single;
    if b != 1 {
      HalfOfSingle(b);
      TransfersOnSingles(u, w, n, b >> 1);
      TransfersNext(u, w, n, b >> 1);
    }
  }

  lemma TransfersOnZero(u: bv24, w: bv24, n: nat)
    ensures Transfers(u, w, n, 0)
  {
    hide Apply, Iterate;
    ZeroIterates(n);
    XorCancels(0);
    hide Xor;
    ApplyToZero(u);
    ApplyToZero(w);
  }

  /** An equation between polynomials, checked on 1, holds on every state. */
  lemma TransfersOnAll(u: bv24, w: bv24, n: nat, v: bv24)
    requires Transfers(u, w, n, 1)
    ensures Transfers(u, w, n, v)
  {
    hide Transfers, Xor, Single;
    var p := (x: bv24) => Transfers(u, w, n, x);
    TransfersOnZero(u, w, n);
    forall a, b | p(a) && p(b)
      ensures p(Xor(a, b))
    {
      TransfersOnSums(u, w, n, a, b);
    }
    forall b | Single(b)
      ensures p(b)
    {
      TransfersOnSingles(u, w, n, b);
    }
    OnAll(p, v);
  }

  /** A state that x^n leaves alone is killed by w. */
  lemma KilledBy(u: bv24, w: bv24, n: nat, v: bv24)
    requires Transfers(u, w, n, 1) && Back(v, n)
    ensures Apply(w, v) == 0
  {
    TransfersOnAll(u, w, n, v);
    hide Apply, Iterate;
    XorCancels(v);
    hide Xor;
    ApplyToZero(u);
  }

  // ---------------------------------------------------------------------------
  // The four equations
  // ---------------------------------------------------------------------------

  lemma SquareOf16()
    ensures Square(0x01_0000) == 0x87_ce19
  {
  }

  lemma SquareOf32()
    ensures Square(0x87_ce19) == 0xcb_024e
  {
  }

  lemma SquareOf64()
    ensures Square(0xcb_024e) == 0x4b_9068
  {
  }

  lemma SquareOf128()
    ensures Square(0x4b_9068) == 0x34_ca78
  {
  }

  lemma SquareOf256()
    ensures Square(0x34_ca78) == 0x43_0449
  {
  }

  lemma PowerIs513()
    ensures Iterate(1, 513) == 0x86_0892
  {
    hide Iterate, Square;
    Small16();
    SquareOf16();
    PowerDoubles(16, 0x01_0000, 0x87_ce19);
    SquareOf32();
    PowerDoubles(32, 0x87_ce19, 0xcb_024e);
    SquareOf64();
    PowerDoubles(64, 0xcb_024e, 0x4b_9068);
    SquareOf128();
    PowerDoubles(128, 0x4b_9068, 0x34_ca78);
    SquareOf256();
    PowerDoubles(256, 0x34_ca78, 0x43_0449);
    PowerSteps(512, 0x43_0449, 0x86_0892);
  }

  lemma SquareOf15()
    ensures Square(0x00_8000) == 0x81_f099
  {
  }

  lemma SquareOf30()
    ensures Square(0x81_f099) == 0xfc_b2b4
  {
    assert Nibble0(0x81_f099) == 0x00_0041;
    assert Nibble1(0x81_f099) == 0x00_4100;
    assert Nibble2(0x81_f099) == 0x00_0000;
    assert Nibble3(0x81_f099) == 0x01_975a;
    assert Nibble4(0x81_f099) == 0x87_ce19;
    assert Nibble5(0x81_f099) == 0x7a_aab6;
  }

  lemma SquareOf61()
    ensures Square(0x79_6143) == 0x51_2fce
  {
  }

  lemma SquareOf123()
    ensures Square(0xa2_5f9c) == 0x87_0ec3
  {
  }

  lemma SquareOf246()
    ensures Square(0x87_0ec3) == 0xca_dcaa
  {
  }

  lemma SquareOf492()
    ensures Square(0xca_dcaa) == 0x19_81ea
  {
  }

  lemma SquareOf985()
    ensures Square(0x33_03d4) == 0xe7_e9a0
  {
  }

  lemma PowerIs1971()
    ensures Iterate(1, 1971) == 0x4f_d76b
  {
    hide Iterate, Square;
    Small15();
    SquareOf15();
    PowerDoubles(15, 0x00_8000, 0x81_f099);
    SquareOf30();
    PowerDoubles(30, 0x81_f099, 0xfc_b2b4);
    PowerSteps(60, 0xfc_b2b4, 0x79_6143);
    SquareOf61();
    PowerDoubles(61, 0x79_6143, 0x51_2fce);
    PowerSteps(122, 0x51_2fce, 0xa2_5f9c);
    SquareOf123();
    PowerDoubles(123, 0xa2_5f9c, 0x87_0ec3);
    SquareOf246();
    PowerDoubles(246, 0x87_0ec3, 0xca_dcaa);
    SquareOf492();
    PowerDoubles(492, 0xca_dcaa, 0x19_81ea);
    PowerSteps(984, 0x19_81ea, 0x33_03d4);
    SquareOf985();
    PowerDoubles(985, 0x33_03d4, 0xe7_e9a0);
    PowerSteps(1970, 0xe7_e9a0, 0x4f_d76b);
  }

  lemma SquareOf12()
    ensures Square(0x00_1000) == 0x80_042b
  {
  }

  lemma SquareOf24()
    ensures Square(0x80_042b) == 0x6a_aef3
  {
  }

  lemma SquareOf48()
    ensures Square(0x6a_aef3) == 0xd0_f7f0
  {
  }

  lemma SquareOf97()
    ensures Square(0x21_ebcb) == 0x74_a703
  {
  }

  lemma SquareOf195()
    ensures Square(0xe9_4e06) == 0x33_6126
  {
  }

  lemma SquareOf390()
    ensures Square(0x33_6126) == 0xe3_df4c
  {
  }

  lemma SquareOf780()
    ensures Square(0xe3_df4c) == 0x5f_c9fb
  {
  }

  lemma SquareOf1560()
    ensures Square(0x5f_c9fb) == 0x44_c4e8
  {
  }

  lemma SquareOf3120()
    ensures Square(0x44_c4e8) == 0x33_af41
  {
  }

  lemma SquareOf6241()
    ensures Square(0x67_5e82) == 0x59_1f99
  {
  }

  lemma PowerIs12483()
    ensures Iterate(1, 12483) == 0xb2_3f32
  {
    hide Iterate, Square;
    Small12();
    SquareOf12();
    PowerDoubles(12, 0x00_1000, 0x80_042b);
    SquareOf24();
    PowerDoubles(24, 0x80_042b, 0x6a_aef3);
    SquareOf48();
    PowerDoubles(48, 0x6a_aef3, 0xd0_f7f0);
    PowerSteps(96, 0xd0_f7f0, 0x21_ebcb);
    SquareOf97();
    PowerDoubles(97, 0x21_ebcb, 0x74_a703);
    PowerSteps(194, 0x74_a703, 0xe9_4e06);
    SquareOf195();
    PowerDoubles(195, 0xe9_4e06, 0x33_6126);
    SquareOf390();
    PowerDoubles(390, 0x33_6126, 0xe3_df4c);
    SquareOf780();
    PowerDoubles(780, 0xe3_df4c, 0x5f_c9fb);
    SquareOf1560();
    PowerDoubles(1560, 0x5f_c9fb, 0x44_c4e8);
    SquareOf3120();
    PowerDoubles(3120, 0x44_c4e8, 0x33_af41);
    PowerSteps(6240, 0x33_af41, 0x67_5e82);
    SquareOf6241();
    PowerDoubles(6241, 0x67_5e82, 0x59_1f99);
    PowerSteps(12482, 0x59_1f99, 0xb2_3f32);
  }

  lemma Small3()
    ensures Iterate(1, 3) == 0x00_0008
  {
    assert Iterate(1, 1) == 0x00_0002;
    assert Iterate(1, 2) == 0x00_0004;
  }

  lemma Small9()
    ensures Iterate(1, 9) == 0x00_0200
  {
    assert Iterate(1, 1) == 0x00_0002;
    assert Iterate(1, 2) == 0x00_0004;
    assert Iterate(1, 3) == 0x00_0008;
    assert Iterate(1, 4) == 0x00_0010;
    assert Iterate(1, 5) == 0x00_0020;
    assert Iterate(1, 6) == 0x00_0040;
    assert Iterate(1, 7) == 0x00_0080;
    assert Iterate(1, 8) == 0x00_0100;
  }

  lemma Small12()
    ensures Iterate(1, 12) == 0x00_1000
  {
    assert Iterate(1, 1) == 0x00_0002;
    assert Iterate(1, 2) == 0x00_0004;
    assert Iterate(1, 3) == 0x00_0008;
    assert Iterate(1, 4) == 0x00_0010;
    assert Iterate(1, 5) == 0x00_0020;
    assert Iterate(1, 6) == 0x00_0040;
    assert Iterate(1, 7) == 0x00_0080;
    assert Iterate(1, 8) == 0x00_0100;
    assert Iterate(1, 9) == 0x00_0200;
    assert Iterate(1, 10) == 0x00_0400;
    assert Iterate(1, 11) == 0x00_0800;
  }

  lemma Small15()
    ensures Iterate(1, 15) == 0x00_8000
  {
    assert Iterate(1, 1) == 0x00_0002;
    assert Iterate(1, 2) == 0x00_0004;
    assert Iterate(1, 3) == 0x00_0008;
    assert Iterate(1, 4) == 0x00_0010;
    assert Iterate(1, 5) == 0x00_0020;
    assert Iterate(1, 6) == 0x00_0040;
    assert Iterate(1, 7) == 0x00_0080;
    assert Iterate(1, 8) == 0x00_0100;
    assert Iterate(1, 9) == 0x00_0200;
    assert Iterate(1, 10) == 0x00_0400;
    assert Iterate(1, 11) == 0x00_0800;
    assert Iterate(1, 12) == 0x00_1000;
    assert Iterate(1, 13) == 0x00_2000;
    assert Iterate(1, 14) == 0x00_4000;
  }

  lemma Small16()
    ensures Iterate(1, 16) == 0x01_0000
  {
    assert Iterate(1, 1) == 0x00_0002;
    assert Iterate(1, 2) == 0x00_0004;
    assert Iterate(1, 3) == 0x00_0008;
    assert Iterate(1, 4) == 0x00_0010;
    assert Iterate(1, 5) == 0x00_0020;
    assert Iterate(1, 6) == 0x00_0040;
    assert Iterate(1, 7) == 0x00_0080;
    assert Iterate(1, 8) == 0x00_0100;
    assert Iterate(1, 9) == 0x00_0200;
    assert Iterate(1, 10) == 0x00_0400;
    assert Iterate(1, 11) == 0x00_0800;
    assert Iterate(1, 12) == 0x00_1000;
    assert Iterate(1, 13) == 0x00_2000;
    assert Iterate(1, 14) == 0x00_4000;
    assert Iterate(1, 15) == 0x00_8000;
  }

  lemma Product3()
    ensures Apply(0x36_dbfa, 0x00_0009) == 0x00_0001
  {
    assert Apply(0x00_0001, 0x00_0009) == 0x00_0009;
    assert Apply(0x00_0003, 0x00_0009) == 0x00_001b;
    assert Apply(0x00_0006, 0x00_0009) == 0x00_0036;
    assert Apply(0x00_000d, 0x00_0009) == 0x00_0065;
    assert Apply(0x00_001b, 0x00_0009) == 0x00_00c3;
    assert Apply(0x00_0036, 0x00_0009) == 0x00_0186;
    assert Apply(0x00_006d, 0x00_0009) == 0x00_0305;
    assert Apply(0x00_00db, 0x00_0009) == 0x00_0603;
    assert Apply(0x00_01b6, 0x00_0009) == 0x00_0c06;
    assert Apply(0x00_036d, 0x00_0009) == 0x00_1805;
    assert Apply(0x00_06db, 0x00_0009) == 0x00_3003;
    assert Apply(0x00_0db6, 0x00_0009) == 0x00_6006;
    assert Apply(0x00_1b6d, 0x00_0009) == 0x00_c005;
    assert Apply(0x00_36db, 0x00_0009) == 0x01_8003;
    assert Apply(0x00_6db7, 0x00_0009) == 0x03_000f;
    assert Apply(0x00_db6f, 0x00_0009) == 0x06_0017;
    assert Apply(0x01_b6df, 0x00_0009) == 0x0c_0027;
    assert Apply(0x03_6dbf, 0x00_0009) == 0x18_0047;
    assert Apply(0x06_db7f, 0x00_0009) == 0x30_0087;
    assert Apply(0x0d_b6fe, 0x00_0009) == 0x60_010e;
    assert Apply(0x1b_6dfd, 0x00_0009) == 0xc0_0215;
  }

  lemma Equation3()
    ensures Transfers(0x36_dbfa, 0x00_0001, 3, 1)
  {
    Small3();
    Product3();
    ApplyOne1();
    assert Xor(0x00_0008, 1) == 0x00_0009;
    hide Apply, Iterate, Xor;
  }

  /** No state but zero comes back after three steps. */
  lemma NotThree(v: bv24)
    requires Back(v, 3)
    ensures v == 0
  {
    hide Apply, Back, Transfers;
    Equation3();
    KilledBy(0x36_dbfa, 1, 3, v);
    ApplyOne(v);
  }

  lemma Product513()
    ensures Apply(0x02_4ed6, 0x86_0893) == 0x00_0201
  {
    assert Apply(0x00_0001, 0x86_0893) == 0x86_0893;
    assert Apply(0x00_0002, 0x86_0893) == 0x8c_150d;
    assert Apply(0x00_0004, 0x86_0893) == 0x98_2e31;
    assert Apply(0x00_0009, 0x86_0893) == 0x36_50da;
    assert Apply(0x00_0012, 0x86_0893) == 0x6c_a1b4;
    assert Apply(0x00_0024, 0x86_0893) == 0xd9_4368;
    assert Apply(0x00_0049, 0x86_0893) == 0xb4_8a68;
    assert Apply(0x00_0093, 0x86_0893) == 0x6f_1868;
    assert Apply(0x00_0127, 0x86_0893) == 0x58_3843;
    assert Apply(0x00_024e, 0x86_0893) == 0xb0_7086;
    assert Apply(0x00_049d, 0x86_0893) == 0x66_edb4;
    assert Apply(0x00_093b, 0x86_0893) == 0x4b_d3fb;
    assert Apply(0x00_1276, 0x86_0893) == 0x97_a7f6;
    assert Apply(0x00_24ed, 0x86_0893) == 0x29_4354;
    assert Apply(0x00_49da, 0x86_0893) == 0x52_86a8;
    assert Apply(0x00_93b5, 0x86_0893) == 0x23_05c3;
    assert Apply(0x01_276b, 0x86_0893) == 0xc0_0315;
  }

  lemma Equation513()
    ensures Transfers(0x02_4ed6, 0x00_0201, 513, 1)
  {
    PowerIs513();
    Product513();
    ApplyOne513();
    assert Xor(0x86_0892, 1) == 0x86_0893;
    hide Apply, Iterate, Xor;
  }

  /** A state that comes back after 513 steps comes back after nine. */
  lemma NineIf513(v: bv24)
    requires Back(v, 513)
    ensures Back(v, 9)
  {
    hide Apply, Back, Transfers;
    Equation513();
    KilledBy(0x02_4ed6, 0x00_0201, 513, v);
    NineIsZero(v);
  }

  lemma Product1971()
    ensures Apply(0x00_5795, 0x4f_d76a) == 0x00_0201
  {
    assert Apply(0x00_0001, 0x4f_d76a) == 0x4f_d76a;
    assert Apply(0x00_0002, 0x4f_d76a) == 0x9f_aed4;
    assert Apply(0x00_0005, 0x4f_d76a) == 0xf0_8ee9;
    assert Apply(0x00_000a, 0x4f_d76a) == 0x61_19f9;
    assert Apply(0x00_0015, 0x4f_d76a) == 0x8d_e498;
    assert Apply(0x00_002b, 0x4f_d76a) == 0xd4_1a71;
    assert Apply(0x00_0057, 0x4f_d76a) == 0x67_e7a3;
    assert Apply(0x00_00af, 0x4f_d76a) == 0x80_182c;
    assert Apply(0x00_015e, 0x4f_d76a) == 0x80_3473;
    assert Apply(0x00_02bc, 0x4f_d76a) == 0x80_6ccd;
    assert Apply(0x00_0579, 0x4f_d76a) == 0xcf_0adb;
    assert Apply(0x00_0af2, 0x4f_d76a) == 0x1e_119d;
    assert Apply(0x00_15e5, 0x4f_d76a) == 0x73_f450;
    assert Apply(0x00_2bca, 0x4f_d76a) == 0xe7_e8a0;
  }

  lemma Equation1971()
    ensures Transfers(0x00_5795, 0x00_0201, 1971, 1)
  {
    PowerIs1971();
    Product1971();
    ApplyOne513();
    assert Xor(0x4f_d76b, 1) == 0x4f_d76a;
    hide Apply, Iterate, Xor;
  }

  /** A state that comes back after 1971 steps comes back after nine. */
  lemma NineIf1971(v: bv24)
    requires Back(v, 1971)
    ensures Back(v, 9)
  {
    hide Apply, Back, Transfers;
    Equation1971();
    KilledBy(0x00_5795, 0x00_0201, 1971, v);
    NineIsZero(v);
  }

  lemma Product12483()
    ensures Apply(0x02_a503, 0xb2_3f33) == 0x00_0201
  {
    assert Apply(0x00_0001, 0xb2_3f33) == 0xb2_3f33;
    assert Apply(0x00_0002, 0xb2_3f33) == 0xe4_7a4d;
    assert Apply(0x00_0005, 0xb2_3f33) == 0xfa_cf82;
    assert Apply(0x00_000a, 0xb2_3f33) == 0x75_9b2f;
    assert Apply(0x00_0015, 0xb2_3f33) == 0x59_096d;
    assert Apply(0x00_002a, 0xb2_3f33) == 0xb2_12da;
    assert Apply(0x00_0054, 0xb2_3f33) == 0xe4_219f;
    assert Apply(0x00_00a9, 0xb2_3f33) == 0xfa_7826;
    assert Apply(0x00_0152, 0xb2_3f33) == 0x74_f467;
    assert Apply(0x00_02a5, 0xb2_3f33) == 0x5b_d7fd;
    assert Apply(0x00_054a, 0xb2_3f33) == 0xb7_affa;
    assert Apply(0x00_0a94, 0xb2_3f33) == 0xef_5bdf;
    assert Apply(0x00_1528, 0xb2_3f33) == 0x5e_b395;
    assert Apply(0x00_2a50, 0xb2_3f33) == 0xbd_672a;
    assert Apply(0x00_54a0, 0xb2_3f33) == 0xfa_ca7f;
    assert Apply(0x00_a940, 0xb2_3f33) == 0x75_90d5;
    assert Apply(0x01_5281, 0xb2_3f33) == 0x59_1e99;
  }

  lemma Equation12483()
    ensures Transfers(0x02_a503, 0x00_0201, 12483, 1)
  {
    PowerIs12483();
    Product12483();
    ApplyOne513();
    assert Xor(0xb2_3f32, 1) == 0xb2_3f33;
    hide Apply, Iterate, Xor;
  }

  /** A state that comes back after 12483 steps comes back after nine. */
  lemma NineIf12483(v: bv24)
    requires Back(v, 12483)
    ensures Back(v, 9)
  {
    hide Apply, Back, Transfers;
    Equation12483();
    KilledBy(0x02_a503, 0x00_0201, 12483, v);
    NineIsZero(v);
  }

  lemma ApplyOne(v: bv24)
    ensures Apply(1, v) == v
  {
    hide Next;
    NextOfZero();
    assert Apply(0, v) == 0;
    XorCancels(v);
    hide Xor;
  }

  lemma ApplyOne1()
    ensures Apply(1, 1) == 1
  {
    ApplyOne(1);
  }

  lemma ApplyOne513()
    ensures Apply(0x00_0201, 1) == 0x00_0201
  {
    assert Apply(0x00_0001, 1) == 0x00_0001;
    assert Apply(0x00_0002, 1) == 0x00_0002;
    assert Apply(0x00_0004, 1) == 0x00_0004;
    assert Apply(0x00_0008, 1) == 0x00_0008;
    assert Apply(0x00_0010, 1) == 0x00_0010;
    assert Apply(0x00_0020, 1) == 0x00_0020;
    assert Apply(0x00_0040, 1) == 0x00_0040;
    assert Apply(0x00_0080, 1) == 0x00_0080;
    assert Apply(0x00_0100, 1) == 0x00_0100;
  }

  lemma XorIsZero(a: bv24, b: bv24)
    requires Xor(a, b) == 0
    ensures a == b
  {
  }

  /** x^9 + 1 */
  lemma NineSteps(v: bv24)
    ensures Apply(0x00_0201, v) == Xor(Iterate(v, 9), v)
  {
    ApplyOne(v);
    hide Next, Xor;
    assert Apply(0x00_0002, v) == Iterate(v, 1);
    assert Apply(0x00_0004, v) == Iterate(v, 2);
    assert Apply(0x00_0008, v) == Iterate(v, 3);
    assert Apply(0x00_0010, v) == Iterate(v, 4);
    assert Apply(0x00_0020, v) == Iterate(v, 5);
    assert Apply(0x00_0040, v) == Iterate(v, 6);
    assert Apply(0x00_0080, v) == Iterate(v, 7);
    assert Apply(0x00_0100, v) == Iterate(v, 8);
  }

  lemma NineIsZero(v: bv24)
    requires Apply(0x00_0201, v) == 0
    ensures Back(v, 9)
  {
    hide Apply, Xor, Iterate;
    NineSteps(v);
    XorIsZero(Iterate(v, 9), v);
  }

  // ---------------------------------------------------------------------------
  // The least period
  // ---------------------------------------------------------------------------

  /**
   With q a factor of a step count after which the state is back, and h what all its proper
   divisors divide: q divides what other counts have in its place, or h is enough.
   */
  lemma FactorDivides(v: bv24, c: nat, m: nat, q: nat, h: nat)
    requires q > 0 && ProperDivisorsDivide(q, h) && Back(v, c * m) && Back(v, c * q)
    ensures m % q == 0 || Back(v, c * h)
  {
    hide Back, Iterate, ProperDivisorsDivide;
    BackAfterGcd(v, c, m, q);
    GcdWith(m, q, h);
    var g := Gcd(m, q);
    if m % q != 0 {
      BackAfterMultiple(v, c * g, h / g);
      DivMod(h, g);
      Regrouped(h / g, c, g);
    }
  }

  lemma Regrouped(k: nat, c: nat, g: nat)
    ensures k * (c * g) == c * (g * k)
  {
  }

  lemma BackPeriod(v: bv24)
    ensures Back(v, PERIOD)
  {
    hide Iterate;
    EveryStateReturns(v);
  }

  lemma ProperDivisor(q: nat, d: nat)
    requires (q == 9 || q == 19 || q == 27 || q == 73) && 1 <= d < q && q % d == 0
    ensures d == 1 || (d == 3 && (q == 9 || q == 27)) || (d == 9 && q == 27)
  {
    var k := q / d;
    DivMod(q, d);
    SmallQuotient(q, d);
    if d <= 8 {
      assert d == 1 || d == 2 || d == 3 || d == 4 || d == 5 || d == 6 || d == 7 || d == 8;
    } else {
      if k >= 9 { NotNegative(d - 9, k - 9); }
      assert k == 0 || k == 1 || k == 2 || k == 3 || k == 4 || k == 5 || k == 6 || k == 7 || k == 8;
    }
  }

  lemma SmallDivisors()
    ensures ProperDivisorsDivide(19, 1) && ProperDivisorsDivide(73, 1)
    ensures ProperDivisorsDivide(27, 9) && ProperDivisorsDivide(9, 3)
  {
    forall q, d | (q == 9 || q == 19 || q == 27 || q == 73) && 1 <= d < q && q % d == 0
      ensures d == 1 || (d == 3 && (q == 9 || q == 27)) || (d == 9 && q == 27)
    {
      ProperDivisor(q, d);
    }
  }

  lemma Multiple(n: nat, a: int, b: int)
    requires n == 73 * a && n == 19 * b
    ensures n == 1387 * (n / 1387)
  {
    DivideUnique(n, 1387, 6 * b - 23 * a, 0);
  }

  lemma Both(n: nat)
    requires n % 19 == 0 && n % 73 == 0
    ensures n == 1387 * (n / 1387)
  {
    DivMod(n, 73);
    DivMod(n, 19);
    Multiple(n, n / 73, n / 19);
  }

  lemma LongPeriod(v: bv24, n: nat)
    requires Back(v, n) && !Back(v, 9)
    ensures n % PERIOD == 0
  {
    hide Back, Iterate, ProperDivisorsDivide;
    SmallDivisors();
    BackPeriod(v);
    if Back(v, 513) { NineIf513(v); }
    if Back(v, 1971) { NineIf1971(v); }
    if Back(v, 12483) { NineIf12483(v); }
    BackAfterMultiple(v, n, 513);
    BackAfterMultiple(v, n, 1971);
    FactorDivides(v, 513, n, 73, 1);
    FactorDivides(v, 1971, n, 19, 1);
    Both(n);
    FactorDivides(v, 1387, n / 1387, 27, 9);
  }

  lemma ShortPeriod(v: bv24, n: nat)
    requires v != 0 && Back(v, n) && Back(v, 9)
    ensures n % 9 == 0
  {
    hide Back, ProperDivisorsDivide;
    SmallDivisors();
    assert 1 * n == n && 1 * 9 == 9 && 1 * 3 == 3;
    FactorDivides(v, 1, n, 9, 3);
    if Back(v, 3) { NotThree(v); }
  }

  /** How many steps a state takes to come back for the first time */
  function Period(v: bv24): nat { if v == 0 then 1 else if Iterate(v, 9) == v then 9 else PERIOD }

  /** A state is back after n steps exactly when its period divides n. */
  lemma PeriodIsExact(v: bv24, n: nat)
    ensures Iterate(v, n) == v <==> n % Period(v) == 0
  {
    hide Iterate;
    if v == 0 {
      ZeroIterates(n);
    } else {
      BackPeriod(v);
      var p := Period(v);
      if n % p == 0 {
        assert n == (n / p) * p;
        BackAfterMultiple(v, p, n / p);
      }
      if Back(v, n) {
        if Back(v, 9) { ShortPeriod(v, n); } else { LongPeriod(v, n); }
      }
    }
  }
}
