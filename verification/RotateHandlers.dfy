/**
 ROXL and ROXR of a data register by a count in another (tools/r68k/musashi/m68k_in.c,
 roxl and roxr of a byte, a word and a long word). X and the operand form one register of
 9, 17 or 33 bits, which the one-bit instruction rotates by one place. The handlers
 compute in a wider type, where bits above that register collect, and look at its low
 bits only.
 */
module RotateHandlers {
  import opened ShiftForms
  import opened Memory68k
  import opened Cpu68k
  import opened RotateThrough
  import opened Shifts

  // ---------------------------------------------------------------------------
  // 9 bits: X and a byte
  // ---------------------------------------------------------------------------

  /** X above the operand in `d` */
  function Pack9(d: bv32, x: bv32): bv9 { ((d & 0xff) as bv9) | ((((x >> 8) & 1) as bv9) << 8) }

  /** src | (XFLAG_AS_1() << 8) */
  function Source9(d: bv32, x: bv32): bv32 { (d & 0xff) | (((x >> 8) & 1) << 8) }

  /** ROL_9 and ROR_9 */
  function WideRol9(a: bv32, c: bv32): bv32
    requires c < 9
  {
    (a << c) | (a >> (9 - c))
  }

  function WideRor9(a: bv32, c: bv32): bv32
    requires c < 9
  {
    (a >> c) | (a << (9 - c))
  }

  /** The bits of a wide result that count. */
  function Narrow9(r: bv32): bv9 { (r & 0x1ff) as bv9 }

  /** The operand of the result, and FLAG_X */
  function Low9(r: bv32): bv32 { r & 0xff }

  function Flag9(r: bv32): bv32 { r }

  lemma RolBits9(e: bv9, c: bv9)
    requires c < 9
    ensures (c as bv32) < 9 && ((((e as bv32) << (c as bv32)) | ((e as bv32) >> (9 - (c as bv32)))) & 0x1ff) as bv9
            == (e << c) | (e >> (9 - c))
  {
  }

  lemma RolWidened9(e: bv9, c: bv9)
    requires c < 9
    ensures (c as bv32) < 9 && Narrow9(WideRol9(e as bv32, c as bv32)) == Rol9(e, c)
  {
    RolBits9(e, c);
  }

  lemma RorBits9(e: bv9, c: bv9)
    requires c < 9
    ensures (c as bv32) < 9 && ((((e as bv32) >> (c as bv32)) | ((e as bv32) << (9 - (c as bv32)))) & 0x1ff) as bv9
            == (e >> c) | (e << (9 - c))
  {
  }

  lemma RorWidened9(e: bv9, c: bv9)
    requires c < 9
    ensures (c as bv32) < 9 && Narrow9(WideRor9(e as bv32, c as bv32)) == Ror9(e, c)
  {
    RorBits9(e, c);
  }

  lemma SourceBits9(d: bv32, x: bv32)
    ensures (d & 0xff) | (((x >> 8) & 1) << 8) == (((d & 0xff) as bv9) | ((((x >> 8) & 1) as bv9) << 8)) as bv32
  {
  }

  lemma SourceIsPack9(d: bv32, x: bv32)
    ensures Source9(d, x) == Pack9(d, x) as bv32
  {
    SourceBits9(d, x);
  }

  lemma RepackBits9(d: bv32, r: bv32)
    ensures ((((d & !0xff) | (r & 0xff)) & 0xff) as bv9) | (((((r) >> 8) & 1) as bv9) << 8) == (r & 0x1ff) as bv9
  {
  }

  lemma Repack9(d: bv32, r: bv32)
    ensures Pack9(Merge(Byte, d, Low9(r)), Flag9(r)) == Narrow9(r)
  {
    RepackBits9(d, r);
  }

  /** X and the operand rotated by one bit, k times */
  function Turned9(left: bool, e: bv9, k: nat): bv9 { if left then RolTimes9(e, k) else RorTimes9(e, k) }

  /** ROL_9 or ROR_9 of the packed operand by orig_shift % 9 */
  function Wide9(left: bool, d: bv32, x: bv32, k: nat): bv32 {
    RolWidened9(0, Count9(k));
    if left then WideRol9(Source9(d, x), Count9(k) as bv32) else WideRor9(Source9(d, x), Count9(k) as bv32)
  }

  /** What the handler keeps of the wide rotate is the operand and X rotated k times by one bit. */
  lemma WideIsTurned9(left: bool, d: bv32, x: bv32, k: nat)
    ensures Pack9(Merge(Byte, d, Low9(Wide9(left, d, x, k))), Flag9(Wide9(left, d, x, k)))
            == Turned9(left, Pack9(d, x), k)
  {
    hide Merge, Pack9, Source9, Narrow9, Low9, Flag9, WideRol9, WideRor9, Rol9, Ror9, RolTimes9, RorTimes9, Count9;
    var e, r := Pack9(d, x), Wide9(left, d, x, k);
    SourceIsPack9(d, x);
    RolWidened9(e, Count9(k));
    RorWidened9(e, Count9(k));
    Rol9IsIterated(e, k);
    Ror9IsIterated(e, k);
    Repack9(d, r);
  }

  /** The packed register determines X and the operand. */
  lemma Pack9Bits(d: bv32, x: bv32)
    ensures (((((d & 0xff) as bv9) | ((((x >> 8) & 1) as bv9) << 8)) & 0xff) as bv32) == (d & 0xff)
    ensures (((d & 0xff) as bv9) | ((((x >> 8) & 1) as bv9) << 8)) & 0x100 != 0 <==> x & 0x100 != 0
  {
  }

  predicate XBit9(e: bv9) { e & 0x100 != 0 }

  function Operand9(e: bv9): bv32 { (e & 0xff) as bv32 }

  lemma Unpack9(d: bv32, x: bv32)
    ensures Operand9(Pack9(d, x)) == Part(Byte, d) && (XBit9(Pack9(d, x)) <==> Carried(x))
  {
    Pack9Bits(d, x);
  }

  lemma Back9(e: bv9, k: nat)
    ensures Turned9(false, Turned9(true, e, k), k) == e
  {
    hide Rol9, Ror9, RolTimes9, RorTimes9, Count9;
    Rol9IsIterated(e, k);
    Ror9IsIterated(RolTimes9(e, k), k);
    Ror9UndoesRol(e, Count9(k));
  }

  // ---------------------------------------------------------------------------
  // 17 bits: X and a word
  // ---------------------------------------------------------------------------

  /** X above the operand in `d` */
  function Pack17(d: bv32, x: bv32): bv17 { ((d & 0xffff) as bv17) | ((((x >> 8) & 1) as bv17) << 16) }

  /** src | (XFLAG_AS_1() << 16) */
  function Source17(d: bv32, x: bv32): bv32 { (d & 0xffff) | (((x >> 8) & 1) << 16) }

  /** ROL_17 and ROR_17 */
  function WideRol17(a: bv32, c: bv32): bv32
    requires c < 17
  {
    (a << c) | (a >> (17 - c))
  }

  function WideRor17(a: bv32, c: bv32): bv32
    requires c < 17
  {
    (a >> c) | (a << (17 - c))
  }

  /** The bits of a wide result that count. */
  function Narrow17(r: bv32): bv17 { (r & 0x1_ffff) as bv17 }

  /** The operand of the result, and FLAG_X */
  function Low17(r: bv32): bv32 { r & 0xffff }

  function Flag17(r: bv32): bv32 { r >> 8 }

  lemma RolBits17(e: bv17, c: bv17)
    requires c < 17
    ensures (c as bv32) < 17 && ((((e as bv32) << (c as bv32))
            | ((e as bv32) >> (17 - (c as bv32)))) & 0x1_ffff) as bv17 == (e << c) | (e >> (17 - c))
  {
  }

  lemma RolWidened17(e: bv17, c: bv17)
    requires c < 17
    ensures (c as bv32) < 17 && Narrow17(WideRol17(e as bv32, c as bv32)) == Rol17(e, c)
  {
    RolBits17(e, c);
  }

  lemma RorBits17(e: bv17, c: bv17)
    requires c < 17
    ensures (c as bv32) < 17 && ((((e as bv32) >> (c as bv32))
            | ((e as bv32) << (17 - (c as bv32)))) & 0x1_ffff) as bv17 == (e >> c) | (e << (17 - c))
  {
  }

  lemma RorWidened17(e: bv17, c: bv17)
    requires c < 17
    ensures (c as bv32) < 17 && Narrow17(WideRor17(e as bv32, c as bv32)) == Ror17(e, c)
  {
    RorBits17(e, c);
  }

  lemma SourceBits17(d: bv32, x: bv32)
    ensures (d & 0xffff) | (((x >> 8) & 1) << 16) == (((d & 0xffff) as bv17) | ((((x >> 8) & 1) as bv17) << 16)) as bv32
  {
  }

  lemma SourceIsPack17(d: bv32, x: bv32)
    ensures Source17(d, x) == Pack17(d, x) as bv32
  {
    SourceBits17(d, x);
  }

  lemma RepackBits17(d: bv32, r: bv32)
    ensures ((((d & !0xffff) | (r & 0xffff)) & 0xffff) as bv17) | (((((r >> 8) >> 8) & 1) as bv17) << 16)
            == (r & 0x1_ffff) as bv17
  {
  }

  lemma Repack17(d: bv32, r: bv32)
    ensures Pack17(Merge(Word, d, Low17(r)), Flag17(r)) == Narrow17(r)
  {
    RepackBits17(d, r);
  }

  /** X and the operand rotated by one bit, k times */
  function Turned17(left: bool, e: bv17, k: nat): bv17 { if left then RolTimes17(e, k) else RorTimes17(e, k) }

  /** ROL_17 or ROR_17 of the packed operand by orig_shift % 17 */
  function Wide17(left: bool, d: bv32, x: bv32, k: nat): bv32 {
    RolWidened17(0, Count17(k));
    if left then WideRol17(Source17(d, x), Count17(k) as bv32) else WideRor17(Source17(d, x), Count17(k) as bv32)
  }

  /** What the handler keeps of the wide rotate is the operand and X rotated k times by one bit. */
  lemma WideIsTurned17(left: bool, d: bv32, x: bv32, k: nat)
    ensures Pack17(Merge(Word, d, Low17(Wide17(left, d, x, k))), Flag17(Wide17(left, d, x, k)))
            == Turned17(left, Pack17(d, x), k)
  {
    hide Merge, Pack17, Source17, Narrow17, Low17, Flag17, WideRol17, WideRor17, Rol17, Ror17, RolTimes17, RorTimes17,
         Count17;
    var e, r := Pack17(d, x), Wide17(left, d, x, k);
    SourceIsPack17(d, x);
    RolWidened17(e, Count17(k));
    RorWidened17(e, Count17(k));
    Rol17IsIterated(e, k);
    Ror17IsIterated(e, k);
    Repack17(d, r);
  }

  /** The packed register determines X and the operand. */
  lemma Pack17Bits(d: bv32, x: bv32)
    ensures (((((d & 0xffff) as bv17) | ((((x >> 8) & 1) as bv17) << 16)) & 0xffff) as bv32) == (d & 0xffff)
    ensures (((d & 0xffff) as bv17) | ((((x >> 8) & 1) as bv17) << 16)) & 0x1_0000 != 0 <==> x & 0x100 != 0
  {
  }

  predicate XBit17(e: bv17) { e & 0x1_0000 != 0 }

  function Operand17(e: bv17): bv32 { (e & 0xffff) as bv32 }

  lemma Unpack17(d: bv32, x: bv32)
    ensures Operand17(Pack17(d, x)) == Part(Word, d) && (XBit17(Pack17(d, x)) <==> Carried(x))
  {
    Pack17Bits(d, x);
  }

  lemma Back17(e: bv17, k: nat)
    ensures Turned17(false, Turned17(true, e, k), k) == e
  {
    hide Rol17, Ror17, RolTimes17, RorTimes17, Count17;
    Rol17IsIterated(e, k);
    Ror17IsIterated(RolTimes17(e, k), k);
    Ror17UndoesRol(e, Count17(k));
  }

  // ---------------------------------------------------------------------------
  // 33 bits: X and a long word
  // ---------------------------------------------------------------------------

  /** X above the operand in `d` */
  function Pack33(d: bv32, x: bv32): bv33 { (d as bv33) | ((((x >> 8) & 1) as bv33) << 32) }

  /** src | (XFLAG_AS_1() << 32) */
  function Source33(d: bv32, x: bv32): bv64 { (d as bv64) | ((((x >> 8) & 1) as bv64) << 32) }

  /** ROL_33_64 and ROR_33_64 */
  function WideRol33(a: bv64, c: bv64): bv64
    requires c < 33
  {
    (a << c) | (a >> (33 - c))
  }

  function WideRor33(a: bv64, c: bv64): bv64
    requires c < 33
  {
    (a >> c) | (a << (33 - c))
  }

  /** The bits of a wide result that count. */
  function Narrow33(r: bv64): bv33 { (r & 0x1_ffff_ffff) as bv33 }

  /** The operand of the result, and FLAG_X */
  function Low33(r: bv64): bv32 { (r & 0xffff_ffff) as bv32 }

  function Flag33(r: bv64): bv32 { ((r >> 24) & 0xffff_ffff) as bv32 }

  lemma RolBits33(e: bv33, c: bv33)
    requires c < 33
    ensures (c as bv64) < 33 && ((((e as bv64) << (c as bv64))
            | ((e as bv64) >> (33 - (c as bv64)))) & 0x1_ffff_ffff) as bv33 == (e << c) | (e >> (33 - c))
  {
  }

  lemma RolWidened33(e: bv33, c: bv33)
    requires c < 33
    ensures (c as bv64) < 33 && Narrow33(WideRol33(e as bv64, c as bv64)) == Rol33(e, c)
  {
    RolBits33(e, c);
  }

  lemma RorBits33(e: bv33, c: bv33)
    requires c < 33
    ensures (c as bv64) < 33 && ((((e as bv64) >> (c as bv64))
            | ((e as bv64) << (33 - (c as bv64)))) & 0x1_ffff_ffff) as bv33 == (e >> c) | (e << (33 - c))
  {
  }

  lemma RorWidened33(e: bv33, c: bv33)
    requires c < 33
    ensures (c as bv64) < 33 && Narrow33(WideRor33(e as bv64, c as bv64)) == Ror33(e, c)
  {
    RorBits33(e, c);
  }

  lemma SourceBits33(d: bv32, x: bv32)
    ensures (d as bv64) | ((((x >> 8) & 1) as bv64) << 32) == ((d as bv33) | ((((x >> 8) & 1) as bv33) << 32)) as bv64
  {
  }

  lemma SourceIsPack33(d: bv32, x: bv32)
    ensures Source33(d, x) == Pack33(d, x) as bv64
  {
    SourceBits33(d, x);
  }

  lemma RepackBits33(d: bv32, r: bv64)
    ensures (((r & 0xffff_ffff) as bv32) as bv33) | (((((((r >> 24) & 0xffff_ffff) as bv32) >> 8) & 1) as bv33) << 32)
            == (r & 0x1_ffff_ffff) as bv33
  {
  }

  lemma Repack33(d: bv32, r: bv64)
    ensures Pack33(Merge(Long, d, Low33(r)), Flag33(r)) == Narrow33(r)
  {
    RepackBits33(d, r);
  }

  /** X and the operand rotated by one bit, k times */
  function Turned33(left: bool, e: bv33, k: nat): bv33 { if left then RolTimes33(e, k) else RorTimes33(e, k) }

  /** ROL_33_64 or ROR_33_64 of the packed operand by orig_shift % 33 */
  function Wide33(left: bool, d: bv32, x: bv32, k: nat): bv64 {
    RolWidened33(0, Count33(k));
    if left then WideRol33(Source33(d, x), Count33(k) as bv64) else WideRor33(Source33(d, x), Count33(k) as bv64)
  }

  /** What the handler keeps of the wide rotate is the operand and X rotated k times by one bit. */
  lemma WideIsTurned33(left: bool, d: bv32, x: bv32, k: nat)
    ensures Pack33(Merge(Long, d, Low33(Wide33(left, d, x, k))), Flag33(Wide33(left, d, x, k)))
            == Turned33(left, Pack33(d, x), k)
  {
    hide Merge, Pack33, Source33, Narrow33, Low33, Flag33, WideRol33, WideRor33, Rol33, Ror33, RolTimes33, RorTimes33,
         Count33;
    var e, r := Pack33(d, x), Wide33(left, d, x, k);
    SourceIsPack33(d, x);
    RolWidened33(e, Count33(k));
    RorWidened33(e, Count33(k));
    Rol33IsIterated(e, k);
    Ror33IsIterated(e, k);
    Repack33(d, r);
  }

  /** The packed register determines X and the operand. */
  lemma Pack33Bits(d: bv32, x: bv32)
    ensures ((((d as bv33) | ((((x >> 8) & 1) as bv33) << 32)) & 0xffff_ffff) as bv32) == d
    ensures ((d as bv33) | ((((x >> 8) & 1) as bv33) << 32)) & 0x1_0000_0000 != 0 <==> x & 0x100 != 0
  {
  }

  predicate XBit33(e: bv33) { e & 0x1_0000_0000 != 0 }

  function Operand33(e: bv33): bv32 { (e & 0xffff_ffff) as bv32 }

  lemma Unpack33(d: bv32, x: bv32)
    ensures Operand33(Pack33(d, x)) == Part(Long, d) && (XBit33(Pack33(d, x)) <==> Carried(x))
  {
    Pack33Bits(d, x);
  }

  lemma Back33(e: bv33, k: nat)
    ensures Turned33(false, Turned33(true, e, k), k) == e
  {
    hide Rol33, Ror33, RolTimes33, RorTimes33, Count33;
    Rol33IsIterated(e, k);
    Ror33IsIterated(RolTimes33(e, k), k);
    Ror33UndoesRol(e, Count33(k));
  }

  // ---------------------------------------------------------------------------
  // The long word in 32 bits
  // ---------------------------------------------------------------------------

  // Without a 64-bit type the handlers rotate the operand alone and put X in its place by
  // hand.

  predicate BitSet(src: bv32, j: bv32)
    requires j < 32
  {
    src & ((1 as bv32) << j) != 0
  }

  function BitOf(src: bv32, j: bv32): bv32
    requires j < 32
  {
    (src >> j) & 1
  }

  function Up8(b: bv32): bv32 { b << 8 }

  /** (new_x_flag != 0) << 8, where new_x_flag is bit j of the operand */
  function XFromBit(src: bv32, j: bv32): bv32
    requires j < 32
  {
    if BitSet(src, j) then 0x100 else 0
  }

  lemma BitOfSet(src: bv32, j: bv32)
    requires j < 32
    ensures BitOf(src, j) == if BitSet(src, j) then 1 else 0
  {
  }

  lemma Up8Bits()
    ensures Up8(0) == 0 && Up8(1) == 0x100
  {
  }

  lemma XOfBit(src: bv32, j: bv32)
    requires j < 32
    ensures XFromBit(src, j) == Up8(BitOf(src, j))
  {
    hide BitOf, Up8, BitSet;
    Up8Bits();
    BitOfSet(src, j);
  }

  lemma CountWidens(c: bv32)
    requires c < 33
    ensures (c as bv33) < 33
  {
  }

  /** Keeps the solver from taking a long equation apart. */
  function Same33(e: bv33): bv33 { e }

  /** res of the 32-bit arm of roxl: the rotate with the place of X cleared and X put there */
  function NarrowRol(src: bv32, x: bv32, c: bv32): bv32
    requires 1 <= c <= 32
  {
    (((if c < 32 then src << c else 0) | (if 33 - c < 32 then src >> (33 - c) else 0))
     & !((1 as bv32) << (c - 1))) | (((x >> 8) & 1) << (c - 1))
  }

  lemma NarrowRolBits(src: bv32, x: bv32, c: bv32)
    requires 1 <= c <= 32
    ensures (((((if c < 32 then src << c else 0)
            | (if 33 - c < 32 then src >> (33 - c) else 0)) & !((1 as bv32) << (c - 1)))
            | (((x >> 8) & 1) << (c - 1))) as bv33)
              | ((((((src >> (32 - c)) & 1) << 8) >> 8) & 1) as bv33 << 32)
         == (((src as bv33) | ((((x >> 8) & 1) as bv33) << 32)) << (c as bv33))
              | (((src as bv33) | ((((x >> 8) & 1) as bv33) << 32)) >> (33 - (c as bv33)))
  {
  }

  lemma NarrowRolKept(src: bv32, x: bv32, c: bv32)
    requires 1 <= c <= 32
    ensures Same33((((((if c < 32 then src << c else 0)
            | (if 33 - c < 32 then src >> (33 - c) else 0)) & !((1 as bv32) << (c - 1)))
            | (((x >> 8) & 1) << (c - 1))) as bv33)
              | ((((((src >> (32 - c)) & 1) << 8) >> 8) & 1) as bv33 << 32))
         == Same33((((src as bv33) | ((((x >> 8) & 1) as bv33) << 32)) << (c as bv33))
              | (((src as bv33) | ((((x >> 8) & 1) as bv33) << 32)) >> (33 - (c as bv33))))
  {
    NarrowRolBits(src, x, c);
  }

  lemma RolSource(src: bv32, x: bv32, c: bv32)
    requires 1 <= c <= 32 && (c as bv33) < 33
    ensures Rol33(((src as bv33) | ((((x >> 8) & 1) as bv33) << 32)), (c as bv33))
         == Same33((((src as bv33) | ((((x >> 8) & 1) as bv33) << 32)) << (c as bv33))
              | (((src as bv33) | ((((x >> 8) & 1) as bv33) << 32)) >> (33 - (c as bv33))))
  {
  }

  lemma RolPack(src: bv32, x: bv32, c: bv32)
    requires 1 <= c <= 32 && (c as bv33) < 33
    ensures Rol33(Pack33(src, x), (c as bv33)) == Rol33(((src as bv33) | ((((x >> 8) & 1) as bv33) << 32)), (c as bv33))
  {
    hide Rol33;
  }

  lemma PackRolBits(src: bv32, x: bv32, c: bv32)
    requires 1 <= c <= 32
    ensures Pack33((((if c < 32 then src << c else 0)
            | (if 33 - c < 32 then src >> (33 - c) else 0)) & !((1 as bv32) << (c - 1))) | (((x >> 8) & 1) << (c - 1)),
            ((src >> (32 - c)) & 1) << 8)
         == Same33((((((if c < 32 then src << c else 0)
             | (if 33 - c < 32 then src >> (33 - c) else 0)) & !((1 as bv32) << (c - 1)))
             | (((x >> 8) & 1) << (c - 1))) as bv33)
              | ((((((src >> (32 - c)) & 1) << 8) >> 8) & 1) as bv33 << 32))
  {
  }

  lemma PackRol(src: bv32, x: bv32, c: bv32)
    requires 1 <= c <= 32
    ensures Pack33(NarrowRol(src, x, c), Up8(BitOf(src, 32 - c)))
         == Pack33((((if c < 32 then src << c else 0)
             | (if 33 - c < 32 then src >> (33 - c) else 0)) & !((1 as bv32) << (c - 1))) | (((x >> 8) & 1) << (c - 1)),
             ((src >> (32 - c)) & 1) << 8)
  {
    hide Pack33;
  }

  /** The 32-bit arm of roxl rotates the same 33 bits. */
  lemma NarrowRolIsRol33(src: bv32, x: bv32, c: bv32)
    requires 1 <= c <= 32
    ensures (c as bv33) < 33 && Pack33(NarrowRol(src, x, c), XFromBit(src, 32 - c))
            == Rol33(Pack33(src, x), (c as bv33))
  {
    hide Pack33, Rol33, NarrowRol, Up8, BitOf, XFromBit, Same33;
    CountWidens(c);
    XOfBit(src, 32 - c);
    PackRol(src, x, c);
    PackRolBits(src, x, c);
    NarrowRolKept(src, x, c);
    RolSource(src, x, c);
    RolPack(src, x, c);
  }

  /** res of the 32-bit arm of roxr: the rotate with the place of X cleared and X put there */
  function NarrowRor(src: bv32, x: bv32, c: bv32): bv32
    requires 1 <= c <= 32
  {
    (((if c < 32 then src >> c else 0) | (if 33 - c < 32 then src << (33 - c) else 0))
     & !((1 as bv32) << (32 - c))) | (((x >> 8) & 1) << (32 - c))
  }

  lemma NarrowRorBits(src: bv32, x: bv32, c: bv32)
    requires 1 <= c <= 32
    ensures (((((if c < 32 then src >> c else 0)
            | (if 33 - c < 32 then src << (33 - c) else 0)) & !((1 as bv32) << (32 - c)))
            | (((x >> 8) & 1) << (32 - c))) as bv33)
              | ((((((src >> (c - 1)) & 1) << 8) >> 8) & 1) as bv33 << 32)
         == (((src as bv33) | ((((x >> 8) & 1) as bv33) << 32)) >> (c as bv33))
              | (((src as bv33) | ((((x >> 8) & 1) as bv33) << 32)) << (33 - (c as bv33)))
  {
  }

  lemma NarrowRorKept(src: bv32, x: bv32, c: bv32)
    requires 1 <= c <= 32
    ensures Same33((((((if c < 32 then src >> c else 0)
            | (if 33 - c < 32 then src << (33 - c) else 0)) & !((1 as bv32) << (32 - c)))
            | (((x >> 8) & 1) << (32 - c))) as bv33)
              | ((((((src >> (c - 1)) & 1) << 8) >> 8) & 1) as bv33 << 32))
         == Same33((((src as bv33) | ((((x >> 8) & 1) as bv33) << 32)) >> (c as bv33))
              | (((src as bv33) | ((((x >> 8) & 1) as bv33) << 32)) << (33 - (c as bv33))))
  {
    NarrowRorBits(src, x, c);
  }

  lemma RorSource(src: bv32, x: bv32, c: bv32)
    requires 1 <= c <= 32 && (c as bv33) < 33
    ensures Ror33(((src as bv33) | ((((x >> 8) & 1) as bv33) << 32)), (c as bv33))
         == Same33((((src as bv33) | ((((x >> 8) & 1) as bv33) << 32)) >> (c as bv33))
              | (((src as bv33) | ((((x >> 8) & 1) as bv33) << 32)) << (33 - (c as bv33))))
  {
  }

  lemma RorPack(src: bv32, x: bv32, c: bv32)
    requires 1 <= c <= 32 && (c as bv33) < 33
    ensures Ror33(Pack33(src, x), (c as bv33)) == Ror33(((src as bv33) | ((((x >> 8) & 1) as bv33) << 32)), (c as bv33))
  {
    hide Ror33;
  }

  lemma PackRorBits(src: bv32, x: bv32, c: bv32)
    requires 1 <= c <= 32
    ensures Pack33((((if c < 32 then src >> c else 0)
            | (if 33 - c < 32 then src << (33 - c) else 0)) & !((1 as bv32) << (32 - c)))
            | (((x >> 8) & 1) << (32 - c)), ((src >> (c - 1)) & 1) << 8)
         == Same33((((((if c < 32 then src >> c else 0)
             | (if 33 - c < 32 then src << (33 - c) else 0)) & !((1 as bv32) << (32 - c)))
             | (((x >> 8) & 1) << (32 - c))) as bv33)
              | ((((((src >> (c - 1)) & 1) << 8) >> 8) & 1) as bv33 << 32))
  {
  }

  lemma PackRor(src: bv32, x: bv32, c: bv32)
    requires 1 <= c <= 32
    ensures Pack33(NarrowRor(src, x, c), Up8(BitOf(src, c - 1)))
         == Pack33((((if c < 32 then src >> c else 0)
             | (if 33 - c < 32 then src << (33 - c) else 0)) & !((1 as bv32) << (32 - c)))
             | (((x >> 8) & 1) << (32 - c)), ((src >> (c - 1)) & 1) << 8)
  {
    hide Pack33;
  }

  /** The 32-bit arm of roxr rotates the same 33 bits. */
  lemma NarrowRorIsRor33(src: bv32, x: bv32, c: bv32)
    requires 1 <= c <= 32
    ensures (c as bv33) < 33 && Pack33(NarrowRor(src, x, c), XFromBit(src, c - 1)) == Ror33(Pack33(src, x), (c as bv33))
  {
    hide Pack33, Ror33, NarrowRor, Up8, BitOf, XFromBit, Same33;
    CountWidens(c);
    XOfBit(src, c - 1);
    PackRor(src, x, c);
    PackRorBits(src, x, c);
    NarrowRorKept(src, x, c);
    RorSource(src, x, c);
    RorPack(src, x, c);
  }

  function CountTo32(k: nat): (c: bv32)
    ensures c < 33 && (c as bv33) == Count33(k)
  {
    hide Count33;
    CountNarrows(Count33(k));
    Count33(k) as bv32
  }

  lemma CountNarrows(c: bv33)
    requires c < 33
    ensures c <= 0xffff_ffff && (c as bv32) < 33 && ((c as bv32) as bv33) == c
  {
  }

  /** The register and X that the 32-bit arm computes for a count k */
  function NarrowTurn(left: bool, d: bv32, x: bv32, k: nat): (bv32, bv32) {
    var c := CountTo32(k);
    if c == 0 then (d, x)
    else if left then (NarrowRol(d, x, c), XFromBit(d, 32 - c))
    else (NarrowRor(d, x, c), XFromBit(d, c - 1))
  }

  lemma NoTurn33(e: bv33)
    ensures Rol33(e, 0) == e && Ror33(e, 0) == e
  {
    Rol33Ends(e);
    Ror33Ends(e);
  }

  /** For every count, both arms of roxl and of roxr rotate X and the long word alike. */
  lemma NarrowIsTurned(left: bool, d: bv32, x: bv32, k: nat)
    ensures var (d', x') := NarrowTurn(left, d, x, k); Pack33(d', x') == Turned33(left, Pack33(d, x), k)
  {
    hide Pack33, NarrowRol, NarrowRor, XFromBit, Rol33, Ror33, RolTimes33, RorTimes33, Count33, CountTo32;
    var e, c := Pack33(d, x), CountTo32(k);
    Rol33IsIterated(e, k);
    Ror33IsIterated(e, k);
    if c == 0 {
      NoTurn33(e);
    } else if left {
      NarrowRolIsRol33(d, x, c);
    } else {
      NarrowRorIsRor33(d, x, c);
    }
  }

  // ---------------------------------------------------------------------------
  // The handlers
  // ---------------------------------------------------------------------------

  /** X and the operand of `d'` are those of `d` rotated together by one bit, k times. */
  predicate RotatedTogether(left: bool, w: Width, d: bv32, x: bv32, d': bv32, x': bv32, k: nat) {
    match w
    case Byte => Pack9(d', x') == Turned9(left, Pack9(d, x), k)
    case Word => Pack17(d', x') == Turned17(left, Pack17(d, x), k)
    case Long => Pack33(d', x') == Turned33(left, Pack33(d, x), k)
  }

  /** The bits of Dy above the operand */
  function Above(w: Width, d: bv32): bv32 { d & !Mask(w) }

  function Steps(dx: bv32): nat { Nat(CountOf(dx)) }

  lemma StepsAreModulo(dx: bv32)
    ensures Steps(dx) == Nat(dx) % 64
  {
    hide Nat, CountOf;
    CountIsModulo(dx);
  }

  /** The operand and FLAG_X that the handler computes for a count k */
  function Result(left: bool, w: Width, d: bv32, x: bv32, k: nat): (bv32, bv32) {
    match w
    case Byte => var r := Wide9(left, d, x, k); (Low9(r), Flag9(r))
    case Word => var r := Wide17(left, d, x, k); (Low17(r), Flag17(r))
    case Long => var r := Wide33(left, d, x, k); (Low33(r), Flag33(r))
  }

  lemma ResultTurns(left: bool, w: Width, d: bv32, x: bv32, k: nat)
    ensures var (res, flag) := Result(left, w, d, x, k); RotatedTogether(left, w, d, x, Merge(w, d, res), flag, k)
  {
    hide Merge, Pack9, Pack17, Pack33, Wide9, Wide17, Wide33, Low9, Low17, Low33, Flag9, Flag17, Flag33, Turned9,
         Turned17, Turned33;
    match w
    case Byte => WideIsTurned9(left, d, x, k);
    case Word => WideIsTurned17(left, d, x, k);
    case Long => WideIsTurned33(left, d, x, k);
  }

  lemma LowFits(left: bool, w: Width, d: bv32, x: bv32, k: nat)
    ensures Fits(w, Result(left, w, d, x, k).0)
  {
    hide Wide9, Wide17, Wide33;
    match w
    case Byte => LowFits9(Wide9(left, d, x, k));
    case Word => LowFits17(Wide17(left, d, x, k));
    case Long =>
  }

  lemma LowFits9(r: bv32)
    ensures Fits(Byte, Low9(r))
  {
  }

  lemma LowFits17(r: bv32)
    ensures Fits(Word, Low17(r))
  {
  }

  lemma NoTurns(w: Width, left: bool, d: bv32, x: bv32)
    ensures RotatedTogether(left, w, d, x, d, x, 0)
  {
  }

  lemma MergedPartByte(d: bv32, v: bv32)
    requires Fits(Byte, v)
    ensures Part(Byte, Merge(Byte, d, v)) == v
  {
  }

  lemma MergedPartWord(d: bv32, v: bv32)
    requires Fits(Word, v)
    ensures Part(Word, Merge(Word, d, v)) == v
  {
  }

  lemma MergedPartLong(d: bv32, v: bv32)
    requires Fits(Long, v)
    ensures Part(Long, Merge(Long, d, v)) == v
  {
  }

  lemma MergedPart(w: Width, d: bv32, v: bv32)
    requires Fits(w, v)
    ensures Part(w, Merge(w, d, v)) == v
  {
    hide Fits, Part, Merge;
    match w
    case Byte => MergedPartByte(d, v);
    case Word => MergedPartWord(d, v);
    case Long => MergedPartLong(d, v);
  }

  lemma MergedAboveByte(d: bv32, v: bv32)
    requires Fits(Byte, v)
    ensures Above(Byte, Merge(Byte, d, v)) == Above(Byte, d)
  {
  }

  lemma MergedAboveWord(d: bv32, v: bv32)
    requires Fits(Word, v)
    ensures Above(Word, Merge(Word, d, v)) == Above(Word, d)
  {
  }

  lemma MergedAboveLong(d: bv32, v: bv32)
    requires Fits(Long, v)
    ensures Above(Long, Merge(Long, d, v)) == Above(Long, d)
  {
  }

  lemma MergedAbove(w: Width, d: bv32, v: bv32)
    requires Fits(w, v)
    ensures Above(w, Merge(w, d, v)) == Above(w, d)
  {
    hide Fits, Above, Merge;
    match w
    case Byte => MergedAboveByte(d, v);
    case Word => MergedAboveWord(d, v);
    case Long => MergedAboveLong(d, v);
  }

  lemma TwoPartsByte(d: bv32)
    ensures Above(Byte, d) | Part(Byte, d) == d
  {
  }

  lemma TwoPartsWord(d: bv32)
    ensures Above(Word, d) | Part(Word, d) == d
  {
  }

  lemma TwoPartsLong(d: bv32)
    ensures Above(Long, d) | Part(Long, d) == d
  {
  }

  lemma TwoParts(w: Width, d: bv32)
    ensures Above(w, d) | Part(w, d) == d
  {
    hide Above, Part;
    match w
    case Byte => TwoPartsByte(d);
    case Word => TwoPartsWord(d);
    case Long => TwoPartsLong(d);
  }

  lemma SignOfPartByte(d: bv32)
    ensures TopBit(Byte, Part(Byte, d)) <==> TopBit(Byte, d)
  {
  }

  lemma SignOfPartWord(d: bv32)
    ensures TopBit(Word, Part(Word, d)) <==> TopBit(Word, d)
  {
  }

  lemma SignOfPartLong(d: bv32)
    ensures TopBit(Long, Part(Long, d)) <==> TopBit(Long, d)
  {
  }

  lemma SignOfPart(w: Width, d: bv32)
    ensures TopBit(w, Part(w, d)) <==> TopBit(w, d)
  {
    hide TopBit, Part;
    match w
    case Byte => SignOfPartByte(d);
    case Word => SignOfPartWord(d);
    case Long => SignOfPartLong(d);
  }

  lemma ResultHolds(left: bool, w: Width, d: bv32, x: bv32, k: nat)
    ensures var (res, flag) := Result(left, w, d, x, k);
            var d' := Merge(w, d, res);
            && RotatedTogether(left, w, d, x, d', flag, k) && Above(w, d') == Above(w, d)
            && Part(w, d') == res && (Set80(NFlag(w, res)) <==> TopBit(w, d'))
  {
    hide Fits, Part, Merge, Above, Result, RotatedTogether, NFlag, TopBit, Set80;
    ResultTurns(left, w, d, x, k);
    LowFits(left, w, d, x, k);
    var res := Result(left, w, d, x, k).0;
    MergedPart(w, d, res);
    MergedAbove(w, d, res);
    NFlagIsSign(w, res);
    SignOfPart(w, Merge(w, d, res));
  }

  /**
   `r` is `d` with its operand and X rotated together by one bit, k times: the rest of `d`
   is unchanged, C is X, V is clear, and N and Z are those of the operand.
   */
  predicate RotatedBy(left: bool, w: Width, k: nat, d: bv32, x: bv32, r: Flagged) {
    && RotatedTogether(left, w, d, x, r.d, r.x, k) && Above(w, r.d) == Above(w, d)
    && r.c == r.x && r.v == 0 && r.notZ == Part(w, r.d) && (Set80(r.n) <==> TopBit(w, r.d))
  }

  /** The handlers' computation */
  function Rotate(left: bool, w: Width, k: nat, d: bv32, x: bv32): Flagged {
    if k != 0 then
      var (res, flag) := Result(left, w, d, x, k);
      Flagged(Merge(w, d, res), flag, NFlag(w, res), res, 0, flag)
    else Flagged(d, x, NFlag(w, d), Part(w, d), 0, x)
  }

  lemma RotateIsRotated(left: bool, w: Width, k: nat, d: bv32, x: bv32)
    ensures RotatedBy(left, w, k, d, x, Rotate(left, w, k, d, x))
  {
    hide Part, Merge, Above, Result, RotatedTogether, NFlag, TopBit, Set80;
    if k != 0 {
      ResultHolds(left, w, d, x, k);
    } else {
      NoTurns(w, left, d, x);
      NFlagIsSign(w, d);
    }
  }

  /**
   roxl and roxr of Dy by Dx: the operand and X are rotated together, one bit as often as
   the count says; the rest of Dy and the other registers stay.
   */
  method RotateThroughX(cpu: Cpu, left: bool, w: Width, dx: nat, dy: nat)
    requires cpu.Valid() && dx < 8 && dy < 8
    modifies cpu`dar, cpu`x, cpu`n, cpu`notZ, cpu`v, cpu`c
    ensures cpu.Valid() && cpu.dar == old(cpu.dar)[dy := cpu.dar[dy]]
    ensures RotatedBy(
              left, w, Steps(old(cpu.dar)[dx]), old(cpu.dar)[dy], old(cpu.x),
              Flagged(cpu.dar[dy], cpu.x, cpu.n, cpu.notZ, cpu.v, cpu.c))
    ensures Steps(old(cpu.dar)[dx]) == Nat(old(cpu.dar)[dx]) % 64
  {
    hide KnownCpu, Modes, TraceAndMask, IsLevel, Rotate, RotatedBy, Steps, Nat;
    StepsAreModulo(cpu.dar[dx]);
    var k, d := Steps(cpu.dar[dx]), cpu.dar[dy];
    RotateIsRotated(left, w, k, d, cpu.x);
    var r := Rotate(left, w, k, d, cpu.x);
    cpu.dar, cpu.x, cpu.c, cpu.v, cpu.n, cpu.notZ := cpu.dar[dy := r.d], r.x, r.c, r.v, r.n, r.notZ;
  }

  /** The 32-bit arm */
  function RotateNarrow(left: bool, k: nat, d: bv32, x: bv32): Flagged {
    var (res, flag) := NarrowTurn(left, d, x, k);
    Flagged(res, flag, NFlag(Long, res), res, 0, flag)
  }

  lemma LongParts(d: bv32)
    ensures Part(Long, d) == d && Above(Long, d) == 0
  {
  }

  lemma NarrowIsRotated(left: bool, k: nat, d: bv32, x: bv32)
    ensures RotatedBy(left, Long, k, d, x, RotateNarrow(left, k, d, x))
  {
    hide NarrowTurn, Pack33, Turned33, NFlag, TopBit, Set80, Part, Above;
    NarrowIsTurned(left, d, x, k);
    var res := NarrowTurn(left, d, x, k).0;
    NFlagIsSign(Long, res);
    LongParts(d);
    LongParts(res);
  }

  /** The 32-bit arm of roxl and roxr of a long word: the same result, by another route. */
  method RotateThroughXNarrow(cpu: Cpu, left: bool, dx: nat, dy: nat)
    requires cpu.Valid() && dx < 8 && dy < 8
    modifies cpu`dar, cpu`x, cpu`n, cpu`notZ, cpu`v, cpu`c
    ensures cpu.Valid() && cpu.dar == old(cpu.dar)[dy := cpu.dar[dy]]
    ensures RotatedBy(
              left, Long, Steps(old(cpu.dar)[dx]), old(cpu.dar)[dy], old(cpu.x),
              Flagged(cpu.dar[dy], cpu.x, cpu.n, cpu.notZ, cpu.v, cpu.c))
    ensures Steps(old(cpu.dar)[dx]) == Nat(old(cpu.dar)[dx]) % 64
  {
    hide KnownCpu, Modes, TraceAndMask, IsLevel, RotateNarrow, RotatedBy, Steps, Nat;
    StepsAreModulo(cpu.dar[dx]);
    var k, d := Steps(cpu.dar[dx]), cpu.dar[dy];
    NarrowIsRotated(left, k, d, cpu.x);
    var r := RotateNarrow(left, k, d, cpu.x);
    cpu.dar, cpu.x, cpu.c, cpu.v, cpu.n, cpu.notZ := cpu.dar[dy := r.d], r.x, r.c, r.v, r.n, r.notZ;
  }

  lemma BackAgain(w: Width, d: bv32, x: bv32, d1: bv32, x1: bv32, d2: bv32, x2: bv32, k: nat)
    requires RotatedTogether(true, w, d, x, d1, x1, k) && RotatedTogether(false, w, d1, x1, d2, x2, k)
    ensures Part(w, d2) == Part(w, d) && (Carried(x2) <==> Carried(x))
  {
    hide Pack9, Pack17, Pack33, Turned9, Turned17, Turned33, Part, Carried, XBit9, XBit17, XBit33, Operand9, Operand17,
         Operand33;
    match w
    case Byte => Back9(Pack9(d, x), k); Unpack9(d, x); Unpack9(d2, x2);
    case Word => Back17(Pack17(d, x), k); Unpack17(d, x); Unpack17(d2, x2);
    case Long => Back33(Pack33(d, x), k); Unpack33(d, x); Unpack33(d2, x2);
  }

  /** Rotating left and then right by the count in another register gives back Dy and X. */
  method RotateThereAndBack(cpu: Cpu, w: Width, dx: nat, dy: nat)
    requires cpu.Valid() && dx < 8 && dy < 8 && dx != dy
    modifies cpu`dar, cpu`x, cpu`n, cpu`notZ, cpu`v, cpu`c
    ensures cpu.Valid() && cpu.dar == old(cpu.dar) && (Carried(cpu.x) <==> Carried(old(cpu.x)))
  {
    hide KnownCpu, Modes, TraceAndMask, IsLevel, Part, Above, RotatedTogether, TopBit, Set80, Carried, Steps, Nat;
    ghost var d, x, k := cpu.dar[dy], cpu.x, Steps(cpu.dar[dx]);
    RotateThroughX(cpu, true, w, dx, dy);
    ghost var d1, x1 := cpu.dar[dy], cpu.x;
    RotateThroughX(cpu, false, w, dx, dy);
    BackAgain(w, d, x, d1, x1, cpu.dar[dy], cpu.x, k);
    TwoParts(w, d);
    TwoParts(w, cpu.dar[dy]);
  }
}
