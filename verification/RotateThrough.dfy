/**
 The rotates through X of the Musashi core (tools/r68k/musashi/m68k_in.c, roxl, roxr;
 m68kcpu.h ROL_9 and its like): X and the operand form one register of 9, 17 or 33 bits.
 */
module RotateThrough {

  // ---------------------------------------------------------------------------
  // 9 bits: X and a byte
  // ---------------------------------------------------------------------------

  /** ROL_9 and ROR_9 */
  function Rol9(e: bv9, c: bv9): bv9
    requires c < 9
  {
    (e << c) | (e >> (9 - c))
  }

  function Ror9(e: bv9, c: bv9): bv9
    requires c < 9
  {
    (e >> c) | (e << (9 - c))
  }

  /** ROXL and ROXR by one bit */
  function RolOne9(e: bv9): bv9 { (e << 1) | (e >> 8) }

  function RorOne9(e: bv9): bv9 { (e >> 1) | (e << 8) }

  function Next9(c: bv9): (r: bv9)
    requires c < 9
    ensures r < 9
  {
    if c == 8 then 0 else c + 1
  }

  /** orig_shift % 9, counted up one by one */
  function Count9(k: nat): (c: bv9)
    ensures c < 9
  {
    if k == 0 then 0 else Next9(Count9(k - 1))
  }

  lemma Next9Counts(c: bv9)
    requires c < 9
    ensures Next9(c) as int == if c as int == 8 then 0 else c as int + 1
    ensures 0 <= c as int < 9
  {
  }

  lemma {:induction false} Count9IsModulo(k: nat)
    ensures Count9(k) as int == k % 9
  {
    hide Next9;
    if k > 0 {
      Count9IsModulo(k - 1);
      Next9Counts(Count9(k - 1));
    }
  }

  lemma Rol9Bits(e: bv9, c: bv9)
    requires 0 < c < 8
    ensures (e << (c + 1)) | (e >> (9 - (c + 1)))
         == (((e << c) | (e >> (9 - c))) << 1) | (((e << c) | (e >> (9 - c))) >> 8)
  {
  }

  lemma Rol9Next(e: bv9, c: bv9)
    requires 0 < c < 8
    ensures Rol9(e, c + 1) == RolOne9((e << c) | (e >> (9 - c)))
  {
    Rol9Is(e, c + 1);
    RolOne9Is((e << c) | (e >> (9 - c)));
    hide Rol9, RolOne9;
    Rol9Bits(e, c);
  }

  lemma RolOne9Is(e: bv9)
    ensures RolOne9(e) == (e << 1) | (e >> 8)
  {
  }

  lemma Rol9Is(e: bv9, c: bv9)
    requires c < 9
    ensures Rol9(e, c) == (e << c) | (e >> (9 - c))
  {
  }

  lemma Rol9Ends(e: bv9)
    ensures Rol9(e, 0) == e && Rol9(e, 1) == RolOne9(e) && RolOne9(Rol9(e, 8)) == e
  {
  }

  lemma Rol9Step(e: bv9, c: bv9)
    requires c < 9
    ensures Rol9(e, Next9(c)) == RolOne9(Rol9(e, c))
  {
    hide Rol9, RolOne9;
    Rol9Ends(e);
    if 0 < c < 8 {
      Rol9Next(e, c);
      Rol9Is(e, c);
    }
  }

  function RolTimes9(e: bv9, k: nat): bv9 { if k == 0 then e else RolOne9(RolTimes9(e, k - 1)) }

  /** Any count of one-bit rotates is one rotate by the count modulo 9. */
  lemma {:induction false} Rol9IsIterated(e: bv9, k: nat)
    ensures Rol9(e, Count9(k)) == RolTimes9(e, k)
  {
    hide Rol9, RolOne9, Next9;
    if k == 0 {
      Rol9Ends(e);
    } else {
      Rol9IsIterated(e, k - 1);
      Rol9Step(e, Count9(k - 1));
    }
  }

  lemma Ror9Bits(e: bv9, c: bv9)
    requires 0 < c < 8
    ensures (e >> (c + 1)) | (e << (9 - (c + 1)))
         == (((e >> c) | (e << (9 - c))) >> 1) | (((e >> c) | (e << (9 - c))) << 8)
  {
  }

  lemma Ror9Next(e: bv9, c: bv9)
    requires 0 < c < 8
    ensures Ror9(e, c + 1) == RorOne9((e >> c) | (e << (9 - c)))
  {
    Ror9Is(e, c + 1);
    RorOne9Is((e >> c) | (e << (9 - c)));
    hide Ror9, RorOne9;
    Ror9Bits(e, c);
  }

  lemma RorOne9Is(e: bv9)
    ensures RorOne9(e) == (e >> 1) | (e << 8)
  {
  }

  lemma Ror9Is(e: bv9, c: bv9)
    requires c < 9
    ensures Ror9(e, c) == (e >> c) | (e << (9 - c))
  {
  }

  lemma Ror9Ends(e: bv9)
    ensures Ror9(e, 0) == e && Ror9(e, 1) == RorOne9(e) && RorOne9(Ror9(e, 8)) == e
  {
  }

  lemma Ror9Step(e: bv9, c: bv9)
    requires c < 9
    ensures Ror9(e, Next9(c)) == RorOne9(Ror9(e, c))
  {
    hide Ror9, RorOne9;
    Ror9Ends(e);
    if 0 < c < 8 {
      Ror9Next(e, c);
      Ror9Is(e, c);
    }
  }

  function RorTimes9(e: bv9, k: nat): bv9 { if k == 0 then e else RorOne9(RorTimes9(e, k - 1)) }

  /** Any count of one-bit rotates is one rotate by the count modulo 9. */
  lemma {:induction false} Ror9IsIterated(e: bv9, k: nat)
    ensures Ror9(e, Count9(k)) == RorTimes9(e, k)
  {
    hide Ror9, RorOne9, Next9;
    if k == 0 {
      Ror9Ends(e);
    } else {
      Ror9IsIterated(e, k - 1);
      Ror9Step(e, Count9(k - 1));
    }
  }

  /** ROXR by k undoes ROXL by k, X included. */
  lemma Ror9UndoesRol(e: bv9, c: bv9)
    requires c < 9
    ensures Ror9(Rol9(e, c), c) == e
  {
  }

  // ---------------------------------------------------------------------------
  // 17 bits: X and a word
  // ---------------------------------------------------------------------------

  /** ROL_17 and ROR_17 */
  function Rol17(e: bv17, c: bv17): bv17
    requires c < 17
  {
    (e << c) | (e >> (17 - c))
  }

  function Ror17(e: bv17, c: bv17): bv17
    requires c < 17
  {
    (e >> c) | (e << (17 - c))
  }

  /** ROXL and ROXR by one bit */
  function RolOne17(e: bv17): bv17 { (e << 1) | (e >> 16) }

  function RorOne17(e: bv17): bv17 { (e >> 1) | (e << 16) }

  function Next17(c: bv17): (r: bv17)
    requires c < 17
    ensures r < 17
  {
    if c == 16 then 0 else c + 1
  }

  /** orig_shift % 17, counted up one by one */
  function Count17(k: nat): (c: bv17)
    ensures c < 17
  {
    if k == 0 then 0 else Next17(Count17(k - 1))
  }

  lemma Next17Counts(c: bv17)
    requires c < 17
    ensures Next17(c) as int == if c as int == 16 then 0 else c as int + 1
    ensures 0 <= c as int < 17
  {
  }

  lemma {:induction false} Count17IsModulo(k: nat)
    ensures Count17(k) as int == k % 17
  {
    hide Next17;
    if k > 0 {
      Count17IsModulo(k - 1);
      Next17Counts(Count17(k - 1));
    }
  }

  lemma Rol17Bits(e: bv17, c: bv17)
    requires 0 < c < 16
    ensures (e << (c + 1)) | (e >> (17 - (c + 1)))
         == (((e << c) | (e >> (17 - c))) << 1) | (((e << c) | (e >> (17 - c))) >> 16)
  {
  }

  lemma Rol17Next(e: bv17, c: bv17)
    requires 0 < c < 16
    ensures Rol17(e, c + 1) == RolOne17((e << c) | (e >> (17 - c)))
  {
    Rol17Is(e, c + 1);
    RolOne17Is((e << c) | (e >> (17 - c)));
    hide Rol17, RolOne17;
    Rol17Bits(e, c);
  }

  lemma RolOne17Is(e: bv17)
    ensures RolOne17(e) == (e << 1) | (e >> 16)
  {
  }

  lemma Rol17Is(e: bv17, c: bv17)
    requires c < 17
    ensures Rol17(e, c) == (e << c) | (e >> (17 - c))
  {
  }

  lemma Rol17Ends(e: bv17)
    ensures Rol17(e, 0) == e && Rol17(e, 1) == RolOne17(e) && RolOne17(Rol17(e, 16)) == e
  {
  }

  lemma Rol17Step(e: bv17, c: bv17)
    requires c < 17
    ensures Rol17(e, Next17(c)) == RolOne17(Rol17(e, c))
  {
    hide Rol17, RolOne17;
    Rol17Ends(e);
    if 0 < c < 16 {
      Rol17Next(e, c);
      Rol17Is(e, c);
    }
  }

  function RolTimes17(e: bv17, k: nat): bv17 { if k == 0 then e else RolOne17(RolTimes17(e, k - 1)) }

  /** Any count of one-bit rotates is one rotate by the count modulo 17. */
  lemma {:induction false} Rol17IsIterated(e: bv17, k: nat)
    ensures Rol17(e, Count17(k)) == RolTimes17(e, k)
  {
    hide Rol17, RolOne17, Next17;
    if k == 0 {
      Rol17Ends(e);
    } else {
      Rol17IsIterated(e, k - 1);
      Rol17Step(e, Count17(k - 1));
    }
  }

  lemma Ror17Bits(e: bv17, c: bv17)
    requires 0 < c < 16
    ensures (e >> (c + 1)) | (e << (17 - (c + 1)))
         == (((e >> c) | (e << (17 - c))) >> 1) | (((e >> c) | (e << (17 - c))) << 16)
  {
  }

  lemma Ror17Next(e: bv17, c: bv17)
    requires 0 < c < 16
    ensures Ror17(e, c + 1) == RorOne17((e >> c) | (e << (17 - c)))
  {
    Ror17Is(e, c + 1);
    RorOne17Is((e >> c) | (e << (17 - c)));
    hide Ror17, RorOne17;
    Ror17Bits(e, c);
  }

  lemma RorOne17Is(e: bv17)
    ensures RorOne17(e) == (e >> 1) | (e << 16)
  {
  }

  lemma Ror17Is(e: bv17, c: bv17)
    requires c < 17
    ensures Ror17(e, c) == (e >> c) | (e << (17 - c))
  {
  }

  lemma Ror17Ends(e: bv17)
    ensures Ror17(e, 0) == e && Ror17(e, 1) == RorOne17(e) && RorOne17(Ror17(e, 16)) == e
  {
  }

  lemma Ror17Step(e: bv17, c: bv17)
    requires c < 17
    ensures Ror17(e, Next17(c)) == RorOne17(Ror17(e, c))
  {
    hide Ror17, RorOne17;
    Ror17Ends(e);
    if 0 < c < 16 {
      Ror17Next(e, c);
      Ror17Is(e, c);
    }
  }

  function RorTimes17(e: bv17, k: nat): bv17 { if k == 0 then e else RorOne17(RorTimes17(e, k - 1)) }

  /** Any count of one-bit rotates is one rotate by the count modulo 17. */
  lemma {:induction false} Ror17IsIterated(e: bv17, k: nat)
    ensures Ror17(e, Count17(k)) == RorTimes17(e, k)
  {
    hide Ror17, RorOne17, Next17;
    if k == 0 {
      Ror17Ends(e);
    } else {
      Ror17IsIterated(e, k - 1);
      Ror17Step(e, Count17(k - 1));
    }
  }

  /** ROXR by k undoes ROXL by k, X included. */
  lemma Ror17UndoesRol(e: bv17, c: bv17)
    requires c < 17
    ensures Ror17(Rol17(e, c), c) == e
  {
  }

  // ---------------------------------------------------------------------------
  // 33 bits: X and a long
  // ---------------------------------------------------------------------------

  /** ROL_33 and ROR_33 */
  function Rol33(e: bv33, c: bv33): bv33
    requires c < 33
  {
    (e << c) | (e >> (33 - c))
  }

  function Ror33(e: bv33, c: bv33): bv33
    requires c < 33
  {
    (e >> c) | (e << (33 - c))
  }

  /** ROXL and ROXR by one bit */
  function RolOne33(e: bv33): bv33 { (e << 1) | (e >> 32) }

  function RorOne33(e: bv33): bv33 { (e >> 1) | (e << 32) }

  function Next33(c: bv33): (r: bv33)
    requires c < 33
    ensures r < 33
  {
    if c == 32 then 0 else c + 1
  }

  /** orig_shift % 33, counted up one by one */
  function Count33(k: nat): (c: bv33)
    ensures c < 33
  {
    if k == 0 then 0 else Next33(Count33(k - 1))
  }

  lemma Next33Counts(c: bv33)
    requires c < 33
    ensures Next33(c) as int == if c as int == 32 then 0 else c as int + 1
    ensures 0 <= c as int < 33
  {
  }

  lemma {:induction false} Count33IsModulo(k: nat)
    ensures Count33(k) as int == k % 33
  {
    hide Next33;
    if k > 0 {
      Count33IsModulo(k - 1);
      Next33Counts(Count33(k - 1));
    }
  }

  lemma Rol33Bits(e: bv33, c: bv33)
    requires 0 < c < 32
    ensures (e << (c + 1)) | (e >> (33 - (c + 1)))
         == (((e << c) | (e >> (33 - c))) << 1) | (((e << c) | (e >> (33 - c))) >> 32)
  {
  }

  lemma Rol33Next(e: bv33, c: bv33)
    requires 0 < c < 32
    ensures Rol33(e, c + 1) == RolOne33((e << c) | (e >> (33 - c)))
  {
    Rol33Is(e, c + 1);
    RolOne33Is((e << c) | (e >> (33 - c)));
    hide Rol33, RolOne33;
    Rol33Bits(e, c);
  }

  lemma RolOne33Is(e: bv33)
    ensures RolOne33(e) == (e << 1) | (e >> 32)
  {
  }

  lemma Rol33Is(e: bv33, c: bv33)
    requires c < 33
    ensures Rol33(e, c) == (e << c) | (e >> (33 - c))
  {
  }

  lemma Rol33Ends(e: bv33)
    ensures Rol33(e, 0) == e && Rol33(e, 1) == RolOne33(e) && RolOne33(Rol33(e, 32)) == e
  {
  }

  lemma Rol33Step(e: bv33, c: bv33)
    requires c < 33
    ensures Rol33(e, Next33(c)) == RolOne33(Rol33(e, c))
  {
    hide Rol33, RolOne33;
    Rol33Ends(e);
    if 0 < c < 32 {
      Rol33Next(e, c);
      Rol33Is(e, c);
    }
  }

  function RolTimes33(e: bv33, k: nat): bv33 { if k == 0 then e else RolOne33(RolTimes33(e, k - 1)) }

  /** Any count of one-bit rotates is one rotate by the count modulo 33. */
  lemma {:induction false} Rol33IsIterated(e: bv33, k: nat)
    ensures Rol33(e, Count33(k)) == RolTimes33(e, k)
  {
    hide Rol33, RolOne33, Next33;
    if k == 0 {
      Rol33Ends(e);
    } else {
      Rol33IsIterated(e, k - 1);
      Rol33Step(e, Count33(k - 1));
    }
  }

  lemma Ror33Bits(e: bv33, c: bv33)
    requires 0 < c < 32
    ensures (e >> (c + 1)) | (e << (33 - (c + 1)))
         == (((e >> c) | (e << (33 - c))) >> 1) | (((e >> c) | (e << (33 - c))) << 32)
  {
  }

  lemma Ror33Next(e: bv33, c: bv33)
    requires 0 < c < 32
    ensures Ror33(e, c + 1) == RorOne33((e >> c) | (e << (33 - c)))
  {
    Ror33Is(e, c + 1);
    RorOne33Is((e >> c) | (e << (33 - c)));
    hide Ror33, RorOne33;
    Ror33Bits(e, c);
  }

  lemma RorOne33Is(e: bv33)
    ensures RorOne33(e) == (e >> 1) | (e << 32)
  {
  }

  lemma Ror33Is(e: bv33, c: bv33)
    requires c < 33
    ensures Ror33(e, c) == (e >> c) | (e << (33 - c))
  {
  }

  lemma Ror33Ends(e: bv33)
    ensures Ror33(e, 0) == e && Ror33(e, 1) == RorOne33(e) && RorOne33(Ror33(e, 32)) == e
  {
  }

  lemma Ror33Step(e: bv33, c: bv33)
    requires c < 33
    ensures Ror33(e, Next33(c)) == RorOne33(Ror33(e, c))
  {
    hide Ror33, RorOne33;
    Ror33Ends(e);
    if 0 < c < 32 {
      Ror33Next(e, c);
      Ror33Is(e, c);
    }
  }

  function RorTimes33(e: bv33, k: nat): bv33 { if k == 0 then e else RorOne33(RorTimes33(e, k - 1)) }

  /** Any count of one-bit rotates is one rotate by the count modulo 33. */
  lemma {:induction false} Ror33IsIterated(e: bv33, k: nat)
    ensures Ror33(e, Count33(k)) == RorTimes33(e, k)
  {
    hide Ror33, RorOne33, Next33;
    if k == 0 {
      Ror33Ends(e);
    } else {
      Ror33IsIterated(e, k - 1);
      Ror33Step(e, Count33(k - 1));
    }
  }

  lemma RorOneUndoes33(e: bv33)
    ensures RorOne33(RolOne33(e)) == e
  {
  }

  lemma {:induction false} RorTimesFirst33(e: bv33, k: nat)
    ensures RorTimes33(RorOne33(e), k) == RorTimes33(e, k + 1)
  {
    hide RorOne33;
    if k > 0 { RorTimesFirst33(e, k - 1); }
  }

  lemma {:induction false} RorTimesUndoes33(e: bv33, k: nat)
    ensures RorTimes33(RolTimes33(e, k), k) == e
  {
    hide RorOne33, RolOne33;
    if k > 0 {
      var f := RolTimes33(e, k - 1);
      RorTimesFirst33(RolOne33(f), k - 1);
      RorOneUndoes33(f);
      RorTimesUndoes33(e, k - 1);
    }
  }

  /** The steps that a count stands for. */
  function StepsTo33(c: bv33): (k: nat)
    requires c < 33
    ensures Count33(k) == c
    decreases c
  {
    if c == 0 then 0 else StepsTo33(c - 1) + 1
  }

  /** ROXR by k undoes ROXL by k, X included. */
  lemma Ror33UndoesRol(e: bv33, c: bv33)
    requires c < 33
    ensures Ror33(Rol33(e, c), c) == e
  {
    hide Rol33, Ror33, RolTimes33, RorTimes33, Count33;
    var k := StepsTo33(c);
    Rol33IsIterated(e, k);
    Ror33IsIterated(RolTimes33(e, k), k);
    RorTimesUndoes33(e, k);
  }
}
