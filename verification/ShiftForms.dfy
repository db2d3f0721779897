/**
 The register-count shifts and rotates of the Musashi core (tools/r68k/musashi/m68k_in.c,
 asr, asl, lsr, lsl, ror, rol, roxr, roxl; m68kcpu.h rotate macros; m68kcpu.c shift
 tables). The handlers compute a shift by up to 63 in one go; the reference is the
 instruction that shifts by one bit, applied that many times.
 */
module ShiftForms {

  datatype Width = Byte | Word | Long

  function Mask(w: Width): bv32 { match w case Byte => 0xff case Word => 0xffff case Long => 0xffff_ffff }

  function Top(w: Width): bv32 { match w case Byte => 0x80 case Word => 0x8000 case Long => 0x8000_0000 }

  predicate Fits(w: Width, v: bv32) { v & Mask(w) == v }

  predicate TopBit(w: Width, v: bv32) { v & Top(w) != 0 }

  predicate LowBit(v: bv32) { v & 1 != 0 }

  /** The bit of FLAG_C and FLAG_X that counts. */
  predicate Carried(flag: bv32) { flag & 0x100 != 0 }

  // ---------------------------------------------------------------------------
  // One bit at a time
  // ---------------------------------------------------------------------------

  function Up(w: Width, v: bv32): bv32 { (v << 1) & Mask(w) }
  function Down(v: bv32): bv32 { v >> 1 }

  function DownSigned(w: Width, v: bv32): bv32 {
    match w
    case Byte => (v >> 1) | (v & 0x80)
    case Word => Asr1Word(v)
    case Long => Asr1Long(v)
  }

  function Asr1Word(v: bv32): bv32 { (v >> 1) | (v & 0x8000) }

  function Asr1Long(v: bv32): bv32 { (v >> 1) | (v & 0x8000_0000) }

  function UpRound(w: Width, v: bv32): bv32 {
    match w
    case Byte => ((v << 1) | (v >> 7)) & 0xff
    case Word => Rol1Word(v)
    case Long => Rol1(v)
  }

  function Rol1Word(v: bv32): bv32 { ((v << 1) | (v >> 15)) & 0xffff }

  function Rol1(v: bv32): bv32 { (v << 1) | (v >> 31) }

  function DownRound(w: Width, v: bv32): bv32 {
    match w
    case Byte => ((v >> 1) | (v << 7)) & 0xff
    case Word => Ror1Word(v)
    case Long => Ror1(v)
  }

  function Ror1Word(v: bv32): bv32 { ((v >> 1) | (v << 15)) & 0xffff }

  function Ror1(v: bv32): bv32 { (v >> 1) | (v << 31) }

  // ---------------------------------------------------------------------------
  // The handlers' results and carry flags, for a count k from 1 to 63
  // ---------------------------------------------------------------------------

  /** m68ki_shift_8_table and its like: k ones from the top */
  function Table(w: Width, k: bv32): bv32 {
    match w
    case Byte => if k < 8 then (!(0xff >> k)) & 0xff else 0xff
    case Word => if k < 16 then (!(0xffff >> k)) & 0xffff else 0xffff
    case Long => if k < 32 then !(0xffff_ffff >> k) else 0xffff_ffff
  }

  /** lsl */
  function LslValue(w: Width, src: bv32, k: bv32): bv32 {
    match w
    case Byte => if k <= 8 then (src << k) & 0xff else 0
    case Word => if k <= 16 then (src << k) & 0xffff else 0
    case Long => if k < 32 then src << k else 0
  }

  function LslCarry(w: Width, src: bv32, k: bv32): bv32 {
    match w
    case Byte => if k <= 8 then src << k else 0
    case Word => if k <= 16 then (src << k) >> 8 else 0
    case Long => if 0 < k < 32 then (src >> (32 - k)) << 8 else (if k == 32 then src & 1 else 0) << 8
  }

  /** asl: the result is that of lsl, the carry is written differently, and V is new. */
  function AslValue(w: Width, src: bv32, k: bv32): bv32 {
    match w
    case Byte => if k < 8 then (src << k) & 0xff else 0
    case Word => if k < 16 then (src << k) & 0xffff else 0
    case Long => if k < 32 then src << k else 0
  }

  function AslCarry(w: Width, src: bv32, k: bv32): bv32 {
    match w
    case Byte => if k < 8 then src << k else (if k == 8 then src & 1 else 0) << 8
    case Word => if k < 16 then (src << k) >> 8 else (if k == 16 then src & 1 else 0) << 8
    case Long => if 0 < k < 32 then (src >> (32 - k)) << 8 else (if k == 32 then src & 1 else 0) << 8
  }

  /** The bits of `src` under `t` are not all alike. */
  predicate Mixed(src: bv32, t: bv32) { !(And(src, t) == 0 || And(src, t) == t) }

  function And(a: bv32, b: bv32): bv32 { a & b }

  predicate AslOverflow(w: Width, src: bv32, k: bv32) {
    match w
    case Byte => if k < 8 then Mixed(src, Table(Byte, k + 1)) else src != 0
    case Word => if k < 16 then Mixed(src, Table(Word, k + 1)) else src != 0
    case Long => if k < 32 then Mixed(src, Table(Long, k + 1)) else src != 0
  }

  /** lsr */
  function LsrValue(w: Width, src: bv32, k: bv32): bv32 {
    match w
    case Byte => if k <= 8 then src >> k else 0
    case Word => if k <= 16 then src >> k else 0
    case Long => if k < 32 then src >> k else 0
  }

  function LsrCarry(w: Width, src: bv32, k: bv32): bv32 {
    match w
    case Byte => if k <= 8 then src << (9 - k) else 0
    case Word => if 0 < k <= 16 then (src >> (k - 1)) << 8 else 0
    case Long => if 0 < k < 32 then (src >> (k - 1)) << 8 else if k == 32 then (src & 0x8000_0000) >> 23 else 0
  }

  /** asr of a number whose sign bit is set */
  function AsrNegative(w: Width, src: bv32, k: bv32): bv32 {
    match w
    case Byte => if k < 8 then (src >> k) | ((!(0xff >> k)) & 0xff) else 0xff
    case Word => if k < 16 then FillWord(src, k) else 0xffff
    case Long => if k < 32 then FillLong(src, k) else 0xffff_ffff
  }

  /** src >> shift | m68ki_shift_16_table[shift] */
  function FillWord(src: bv32, k: bv32): bv32
    requires k < 16
  {
    Or(Shr(src, k), Table(Word, k))
  }

  function FillLong(src: bv32, k: bv32): bv32
    requires k < 32
  {
    Or(Shr(src, k), Table(Long, k))
  }

  function Or(a: bv32, b: bv32): bv32 { a | b }

  function Shr(src: bv32, k: bv32): bv32
    requires k < 32
  {
    src >> k
  }

  /** asr */
  function AsrValue(w: Width, src: bv32, k: bv32): bv32 {
    if TopBit(w, src) then AsrNegative(w, src, k) else LsrValue(w, src, k)
  }

  function AsrCarry(w: Width, src: bv32, k: bv32): bv32 {
    match w
    case Byte => if k < 8 then src << (9 - k) else if src & 0x80 != 0 then 0x100 else 0
    case Word => if 0 < k < 16 then (src >> (k - 1)) << 8 else if src & 0x8000 != 0 then 0x100 else 0
    case Long => if 0 < k < 32 then (src >> (k - 1)) << 8 else if src & 0x8000_0000 != 0 then 0x100 else 0
  }

  /** The rotates take the count modulo the width: `k & 7` and its like */
  function Turn(w: Width, k: bv32): bv32 { match w case Byte => k & 7 case Word => k & 15 case Long => k & 31 }

  /** ROL_8, ROL_16, ROL_32 */
  function RolBy(w: Width, src: bv32, c: bv32): bv32
    requires c < 32
  {
    match w
    case Byte => if c <= 7 then ((src << c) | (src >> (8 - c))) & 0xff else 0
    case Word => if c <= 15 then WordUp(src, c) else 0
    case Long => if c != 0 then RoundUp(src, c) else src
  }

  function WordUp(src: bv32, c: bv32): bv32
    requires c <= 15
  {
    ((src << c) | (src >> (16 - c))) & 0xffff
  }

  function WordDown(src: bv32, c: bv32): bv32
    requires c <= 15
  {
    ((src >> c) | (src << (16 - c))) & 0xffff
  }

  function RoundUp(src: bv32, c: bv32): bv32
    requires c < 32
  {
    (src << c) | (src >> (32 - c))
  }

  function RoundDown(src: bv32, c: bv32): bv32
    requires c < 32
  {
    (src >> c) | (src << (32 - c))
  }

  lemma RoundUpIs(src: bv32, c: bv32)
    requires c < 32
    ensures RoundUp(src, c) == (src << c) | (src >> (32 - c))
  {
  }

  lemma RoundDownIs(src: bv32, c: bv32)
    requires c < 32
    ensures RoundDown(src, c) == (src >> c) | (src << (32 - c))
  {
  }

  function RolOut(w: Width, src: bv32, c: bv32): bv32
    requires c < 32
  {
    match w
    case Byte => if c != 0 then src << c else (src & 1) << 8
    case Word => if c != 0 then (src << c) >> 8 else (src & 1) << 8
    case Long => (src >> ((32 - c) & 0x1f)) << 8
  }

  /** ROR_8, ROR_16, ROR_32 */
  function RorBy(w: Width, src: bv32, c: bv32): bv32
    requires c < 32
  {
    match w
    case Byte => if c <= 7 then ((src >> c) | (src << (8 - c))) & 0xff else 0
    case Word => if c <= 15 then WordDown(src, c) else 0
    case Long => if c != 0 then RoundDown(src, c) else src
  }

  function RorOut(w: Width, src: bv32, c: bv32): bv32 {
    match w
    case Byte => src << (8 - ((c - 1) & 7))
    case Word => (src >> ((c - 1) & 15)) << 8
    case Long => (src >> ((c - 1) & 31)) << 8
  }

  lemma TurnBelow(w: Width, k: bv32)
    ensures Turn(w, k) < 32
  {
  }

  // ---------------------------------------------------------------------------
  // One more bit
  // ---------------------------------------------------------------------------

  lemma LslByte(src: bv32, k: bv32)
    requires Fits(Byte, src) && k < 63
    ensures LslValue(Byte, src, k + 1) == Up(Byte, LslValue(Byte, src, k))
    ensures Carried(LslCarry(Byte, src, k + 1)) <==> TopBit(Byte, LslValue(Byte, src, k))
  {
  }

  lemma LslWord(src: bv32, k: bv32)
    requires Fits(Word, src) && k < 63
    ensures LslValue(Word, src, k + 1) == Up(Word, LslValue(Word, src, k))
    ensures Carried(LslCarry(Word, src, k + 1)) <==> TopBit(Word, LslValue(Word, src, k))
  {
  }

  lemma LslLong(src: bv32, k: bv32)
    requires k < 63
    ensures LslValue(Long, src, k + 1) == Up(Long, LslValue(Long, src, k))
    ensures Carried(LslCarry(Long, src, k + 1)) <==> TopBit(Long, LslValue(Long, src, k))
  {
  }

  lemma LslStep(w: Width, src: bv32, k: bv32)
    requires Fits(w, src) && k < 63
    ensures LslValue(w, src, k + 1) == Up(w, LslValue(w, src, k))
    ensures Carried(LslCarry(w, src, k + 1)) <==> TopBit(w, LslValue(w, src, k))
  {
    hide LslValue, LslCarry, Up, TopBit, Carried, Fits;
    match w
    case Byte => LslByte(src, k);
    case Word => LslWord(src, k);
    case Long => LslLong(src, k);
  }

  lemma AslByte(src: bv32, k: bv32)
    requires Fits(Byte, src) && k < 63
    ensures AslValue(Byte, src, k + 1) == Up(Byte, AslValue(Byte, src, k))
    ensures Carried(AslCarry(Byte, src, k + 1)) <==> TopBit(Byte, AslValue(Byte, src, k))
  {
  }

  lemma AslWord(src: bv32, k: bv32)
    requires Fits(Word, src) && k < 63
    ensures AslValue(Word, src, k + 1) == Up(Word, AslValue(Word, src, k))
    ensures Carried(AslCarry(Word, src, k + 1)) <==> TopBit(Word, AslValue(Word, src, k))
  {
  }

  lemma AslLong(src: bv32, k: bv32)
    requires k < 63
    ensures AslValue(Long, src, k + 1) == Up(Long, AslValue(Long, src, k))
    ensures Carried(AslCarry(Long, src, k + 1)) <==> TopBit(Long, AslValue(Long, src, k))
  {
  }

  lemma AslStep(w: Width, src: bv32, k: bv32)
    requires Fits(w, src) && k < 63
    ensures AslValue(w, src, k + 1) == Up(w, AslValue(w, src, k))
    ensures Carried(AslCarry(w, src, k + 1)) <==> TopBit(w, AslValue(w, src, k))
  {
    hide AslValue, AslCarry, Up, TopBit, Carried, Fits;
    match w
    case Byte => AslByte(src, k);
    case Word => AslWord(src, k);
    case Long => AslLong(src, k);
  }

  lemma LsrByte(src: bv32, k: bv32)
    requires Fits(Byte, src) && k < 63
    ensures LsrValue(Byte, src, k + 1) == Down(LsrValue(Byte, src, k))
    ensures Carried(LsrCarry(Byte, src, k + 1)) <==> LowBit(LsrValue(Byte, src, k))
  {
  }

  lemma LsrWord(src: bv32, k: bv32)
    requires Fits(Word, src) && k < 63
    ensures LsrValue(Word, src, k + 1) == Down(LsrValue(Word, src, k))
    ensures Carried(LsrCarry(Word, src, k + 1)) <==> LowBit(LsrValue(Word, src, k))
  {
  }

  lemma LsrLong(src: bv32, k: bv32)
    requires k < 63
    ensures LsrValue(Long, src, k + 1) == Down(LsrValue(Long, src, k))
    ensures Carried(LsrCarry(Long, src, k + 1)) <==> LowBit(LsrValue(Long, src, k))
  {
  }

  lemma LsrStep(w: Width, src: bv32, k: bv32)
    requires Fits(w, src) && k < 63
    ensures LsrValue(w, src, k + 1) == Down(LsrValue(w, src, k))
    ensures Carried(LsrCarry(w, src, k + 1)) <==> LowBit(LsrValue(w, src, k))
  {
    hide LsrValue, LsrCarry, Down, LowBit, Carried, Fits;
    match w
    case Byte => LsrByte(src, k);
    case Word => LsrWord(src, k);
    case Long => LsrLong(src, k);
  }

  function LastTurn(w: Width): bv32 { match w case Byte => 7 case Word => 15 case Long => 31 }

  function NextTurn(w: Width, c: bv32): (r: bv32)
    requires c <= LastTurn(w)
    ensures r < 32
  {
    if c == LastTurn(w) then 0 else c + 1
  }

  lemma TurnStep(w: Width, k: bv32)
    ensures Turn(w, k) <= LastTurn(w) && Turn(w, k + 1) == NextTurn(w, Turn(w, k))
  {
  }

  lemma RolByte(src: bv32, c: bv32)
    requires Fits(Byte, src) && c < 7
    ensures RolBy(Byte, src, c + 1) == UpRound(Byte, RolBy(Byte, src, c))
  {
  }

  lemma RolOutByte(src: bv32, c: bv32)
    requires Fits(Byte, src) && c < 7
    ensures Carried(RolOut(Byte, src, c + 1)) <==> TopBit(Byte, RolBy(Byte, src, c))
  {
  }

  lemma RolLastByte(src: bv32)
    requires Fits(Byte, src)
    ensures RolBy(Byte, src, 0) == UpRound(Byte, RolBy(Byte, src, 7))
    ensures Carried(RolOut(Byte, src, 0)) <==> TopBit(Byte, RolBy(Byte, src, 7))
  {
  }

  // In 16 bits the word's rotate needs no mask.

  /** Keeps the solver from taking a long equation apart. */
  function Same(v: bv32): bv32 { v }

  function Low16(v: bv32): bv16 { (v & 0xffff) as bv16 }

  function Wide16(e: bv16): bv32 { e as bv32 }

  function Count16(c: bv32): bv16 { (c & 0xffff) as bv16 }

  lemma Count16Next(c: bv32)
    requires c < 15
    ensures Count16(c) < 15 && Count16(c + 1) == Count16(c) + 1
    ensures Wide16(Count16(c)) == c && Wide16(Count16(c + 1)) == c + 1
  {
  }

  lemma Word16(v: bv32)
    requires Fits(Word, v)
    ensures Wide16(Low16(v)) == v
  {
  }

  function Rol16(e: bv16, c: bv16): bv16
    requires c < 16
  {
    (e << c) | (e >> (16 - c))
  }

  function RolOne16(e: bv16): bv16 { (e << 1) | (e >> 15) }

  lemma Rol16Bits(e: bv16, c: bv16)
    requires c < 15
    ensures (e << (c + 1)) | (e >> (16 - (c + 1)))
            == (((e << c) | (e >> (16 - c))) << 1) | (((e << c) | (e >> (16 - c))) >> 15)
  {
  }

  lemma Rol16Next(e: bv16, c: bv16)
    requires c < 15
    ensures Rol16(e, c + 1) == RolOne16((e << c) | (e >> (16 - c)))
  {
    Rol16Unfolds(e, c + 1);
    RolOne16Unfolds((e << c) | (e >> (16 - c)));
    hide Rol16, RolOne16;
    Rol16Bits(e, c);
  }

  lemma Rol16Unfolds(e: bv16, c: bv16)
    requires c < 16
    ensures Rol16(e, c) == (e << c) | (e >> (16 - c))
  {
  }

  lemma RolOne16Unfolds(e: bv16)
    ensures RolOne16(e) == (e << 1) | (e >> 15)
  {
  }

  lemma Rol16Step(e: bv16, c: bv16)
    requires c < 15
    ensures Rol16(e, c + 1) == RolOne16(Rol16(e, c))
  {
    hide Rol16, RolOne16;
    Rol16Next(e, c);
    Rol16Unfolds(e, c);
  }

  lemma RolWordBits(e: bv16, c: bv16)
    requires c < 16
    ensures (((e as bv32) << (c as bv32)) | ((e as bv32) >> (16 - (c as bv32)))) & 0xffff
            == ((e << c) | (e >> (16 - c))) as bv32
  {
  }

  lemma RolWordKept(e: bv16, c: bv16)
    requires c < 16
    ensures Same((((e as bv32) << (c as bv32)) | ((e as bv32) >> (16 - (c as bv32)))) & 0xffff)
            == Same(((e << c) | (e >> (16 - c))) as bv32)
  {
    RolWordBits(e, c);
  }

  lemma WordUpIs(e: bv16, c: bv16)
    requires c < 16
    ensures Wide16(c) <= 15 && WordUp(Wide16(e), Wide16(c))
            == Same((((e as bv32) << (c as bv32)) | ((e as bv32) >> (16 - (c as bv32)))) & 0xffff)
  {
  }

  lemma Rol16Is(e: bv16, c: bv16)
    requires c < 16
    ensures Wide16(Rol16(e, c)) == Same(((e << c) | (e >> (16 - c))) as bv32)
  {
  }

  lemma RolWordIs16(e: bv16, c: bv16)
    requires c < 16
    ensures Wide16(c) < 16 && RolBy(Word, Wide16(e), Wide16(c)) == Wide16(Rol16(e, c))
  {
    hide WordUp, Wide16, Rol16, Same;
    WordUpIs(e, c);
    RolWordKept(e, c);
    Rol16Is(e, c);
  }

  lemma Rol1WordBits(e: bv16)
    ensures (((e as bv32) << 1) | ((e as bv32) >> 15)) & 0xffff == ((e << 1) | (e >> 15)) as bv32
  {
  }

  lemma Rol1WordKept(e: bv16)
    ensures Same((((e as bv32) << 1) | ((e as bv32) >> 15)) & 0xffff) == Same(((e << 1) | (e >> 15)) as bv32)
  {
    Rol1WordBits(e);
  }

  lemma Rol1WordIs(e: bv16)
    ensures Rol1Word(Wide16(e)) == Same((((e as bv32) << 1) | ((e as bv32) >> 15)) & 0xffff)
            && Wide16(RolOne16(e)) == Same(((e << 1) | (e >> 15)) as bv32)
  {
  }

  lemma UpRoundWordIs16(e: bv16)
    ensures UpRound(Word, Wide16(e)) == Wide16(RolOne16(e))
  {
    hide Rol1Word, Wide16, RolOne16, Same;
    Rol1WordIs(e);
    Rol1WordKept(e);
  }

  lemma RolWord(src: bv32, c: bv32)
    requires Fits(Word, src) && c < 15
    ensures RolBy(Word, src, c + 1) == UpRound(Word, RolBy(Word, src, c))
  {
    hide Fits, RolBy, UpRound, Rol16, RolOne16, Wide16, Low16, Count16;
    var e := Low16(src);
    Word16(src);
    Count16Next(c);
    RolWordIs16(e, Count16(c));
    RolWordIs16(e, Count16(c + 1));
    Rol16Step(e, Count16(c));
    UpRoundWordIs16(Rol16(e, Count16(c)));
  }

  lemma RolOutWord(src: bv32, c: bv32)
    requires Fits(Word, src) && c < 15
    ensures Carried(RolOut(Word, src, c + 1)) <==> TopBit(Word, RolBy(Word, src, c))
  {
  }

  lemma RolLastWord(src: bv32)
    requires Fits(Word, src)
    ensures RolBy(Word, src, 0) == UpRound(Word, RolBy(Word, src, 15))
    ensures Carried(RolOut(Word, src, 0)) <==> TopBit(Word, RolBy(Word, src, 15))
  {
  }

  lemma RolLongBits(src: bv32, c: bv32)
    requires 0 < c < 31
    ensures (src << (c + 1)) | (src >> (32 - (c + 1)))
         == (((src << c) | (src >> (32 - c))) << 1) | (((src << c) | (src >> (32 - c))) >> 31)
  {
  }

  lemma RolLongNext(src: bv32, c: bv32)
    requires 0 < c < 31
    ensures RoundUp(src, c + 1) == Rol1((src << c) | (src >> (32 - c)))
  {
    RoundUpIs(src, c + 1);
    Rol1Is((src << c) | (src >> (32 - c)));
    hide RoundUp, Rol1;
    RolLongBits(src, c);
  }

  lemma Rol1Is(v: bv32)
    ensures Rol1(v) == (v << 1) | (v >> 31)
  {
  }

  lemma RolLongRound(src: bv32, c: bv32)
    requires 0 < c < 31
    ensures RoundUp(src, c + 1) == Rol1(RoundUp(src, c))
  {
    RolLongNext(src, c);
    RoundUpIs(src, c);
    hide RoundUp, Rol1;
  }

  lemma RolLong(src: bv32, c: bv32)
    requires c < 31
    ensures RolBy(Long, src, c + 1) == UpRound(Long, RolBy(Long, src, c))
  {
    if c > 0 {
      hide RoundUp, Rol1;
      RolLongRound(src, c);
    }
  }

  lemma RolOutLong(src: bv32, c: bv32)
    requires c < 31
    ensures Carried(RolOut(Long, src, c + 1)) <==> TopBit(Long, RolBy(Long, src, c))
  {
  }

  lemma RolLastLong(src: bv32)
    ensures RolBy(Long, src, 0) == UpRound(Long, RolBy(Long, src, 31))
    ensures Carried(RolOut(Long, src, 0)) <==> TopBit(Long, RolBy(Long, src, 31))
  {
  }

  lemma RolStep(w: Width, src: bv32, c: bv32)
    requires Fits(w, src) && c <= LastTurn(w)
    ensures RolBy(w, src, NextTurn(w, c)) == UpRound(w, RolBy(w, src, c))
    ensures Carried(RolOut(w, src, NextTurn(w, c))) <==> TopBit(w, RolBy(w, src, c))
  {
    hide RolBy, RolOut, UpRound, TopBit, Carried, Fits;
    match w
    case Byte => if c < 7 { RolByte(src, c); RolOutByte(src, c); } else { RolLastByte(src); }
    case Word => if c < 15 { RolWord(src, c); RolOutWord(src, c); } else { RolLastWord(src); }
    case Long => if c < 31 { RolLong(src, c); RolOutLong(src, c); } else { RolLastLong(src); }
  }

  lemma RorByte(src: bv32, c: bv32)
    requires Fits(Byte, src) && c < 7
    ensures RorBy(Byte, src, c + 1) == DownRound(Byte, RorBy(Byte, src, c))
  {
  }

  lemma RorOutByte(src: bv32, c: bv32)
    requires Fits(Byte, src) && c < 7
    ensures Carried(RorOut(Byte, src, c + 1)) <==> LowBit(RorBy(Byte, src, c))
  {
  }

  lemma RorLastByte(src: bv32)
    requires Fits(Byte, src)
    ensures RorBy(Byte, src, 0) == DownRound(Byte, RorBy(Byte, src, 7))
    ensures Carried(RorOut(Byte, src, 0)) <==> LowBit(RorBy(Byte, src, 7))
  {
  }

  function Ror16(e: bv16, c: bv16): bv16
    requires c < 16
  {
    (e >> c) | (e << (16 - c))
  }

  function RorOne16(e: bv16): bv16 { (e >> 1) | (e << 15) }

  lemma Ror16Bits(e: bv16, c: bv16)
    requires c < 15
    ensures (e >> (c + 1)) | (e << (16 - (c + 1)))
            == (((e >> c) | (e << (16 - c))) >> 1) | (((e >> c) | (e << (16 - c))) << 15)
  {
  }

  lemma Ror16Next(e: bv16, c: bv16)
    requires c < 15
    ensures Ror16(e, c + 1) == RorOne16((e >> c) | (e << (16 - c)))
  {
    Ror16Unfolds(e, c + 1);
    RorOne16Unfolds((e >> c) | (e << (16 - c)));
    hide Ror16, RorOne16;
    Ror16Bits(e, c);
  }

  lemma Ror16Unfolds(e: bv16, c: bv16)
    requires c < 16
    ensures Ror16(e, c) == (e >> c) | (e << (16 - c))
  {
  }

  lemma RorOne16Unfolds(e: bv16)
    ensures RorOne16(e) == (e >> 1) | (e << 15)
  {
  }

  lemma Ror16Step(e: bv16, c: bv16)
    requires c < 15
    ensures Ror16(e, c + 1) == RorOne16(Ror16(e, c))
  {
    hide Ror16, RorOne16;
    Ror16Next(e, c);
    Ror16Unfolds(e, c);
  }

  lemma RorWordBits(e: bv16, c: bv16)
    requires c < 16
    ensures (((e as bv32) >> (c as bv32)) | ((e as bv32) << (16 - (c as bv32)))) & 0xffff
            == ((e >> c) | (e << (16 - c))) as bv32
  {
  }

  lemma RorWordKept(e: bv16, c: bv16)
    requires c < 16
    ensures Same((((e as bv32) >> (c as bv32)) | ((e as bv32) << (16 - (c as bv32)))) & 0xffff)
            == Same(((e >> c) | (e << (16 - c))) as bv32)
  {
    RorWordBits(e, c);
  }

  lemma WordDownIs(e: bv16, c: bv16)
    requires c < 16
    ensures Wide16(c) <= 15 && WordDown(Wide16(e), Wide16(c))
            == Same((((e as bv32) >> (c as bv32)) | ((e as bv32) << (16 - (c as bv32)))) & 0xffff)
  {
  }

  lemma Ror16Is(e: bv16, c: bv16)
    requires c < 16
    ensures Wide16(Ror16(e, c)) == Same(((e >> c) | (e << (16 - c))) as bv32)
  {
  }

  lemma RorWordIs16(e: bv16, c: bv16)
    requires c < 16
    ensures Wide16(c) < 16 && RorBy(Word, Wide16(e), Wide16(c)) == Wide16(Ror16(e, c))
  {
    hide WordDown, Wide16, Ror16, Same;
    WordDownIs(e, c);
    RorWordKept(e, c);
    Ror16Is(e, c);
  }

  lemma Ror1WordBits(e: bv16)
    ensures (((e as bv32) >> 1) | ((e as bv32) << 15)) & 0xffff == ((e >> 1) | (e << 15)) as bv32
  {
  }

  lemma Ror1WordKept(e: bv16)
    ensures Same((((e as bv32) >> 1) | ((e as bv32) << 15)) & 0xffff) == Same(((e >> 1) | (e << 15)) as bv32)
  {
    Ror1WordBits(e);
  }

  lemma Ror1WordIs(e: bv16)
    ensures Ror1Word(Wide16(e)) == Same((((e as bv32) >> 1) | ((e as bv32) << 15)) & 0xffff)
            && Wide16(RorOne16(e)) == Same(((e >> 1) | (e << 15)) as bv32)
  {
  }

  lemma DownRoundWordIs16(e: bv16)
    ensures DownRound(Word, Wide16(e)) == Wide16(RorOne16(e))
  {
    hide Ror1Word, Wide16, RorOne16, Same;
    Ror1WordIs(e);
    Ror1WordKept(e);
  }

  lemma RorWord(src: bv32, c: bv32)
    requires Fits(Word, src) && c < 15
    ensures RorBy(Word, src, c + 1) == DownRound(Word, RorBy(Word, src, c))
  {
    hide Fits, RorBy, DownRound, Ror16, RorOne16, Wide16, Low16, Count16;
    var e := Low16(src);
    Word16(src);
    Count16Next(c);
    RorWordIs16(e, Count16(c));
    RorWordIs16(e, Count16(c + 1));
    Ror16Step(e, Count16(c));
    DownRoundWordIs16(Ror16(e, Count16(c)));
  }

  lemma RorOutWord(src: bv32, c: bv32)
    requires Fits(Word, src) && c < 15
    ensures Carried(RorOut(Word, src, c + 1)) <==> LowBit(RorBy(Word, src, c))
  {
  }

  lemma RorLastWord(src: bv32)
    requires Fits(Word, src)
    ensures RorBy(Word, src, 0) == DownRound(Word, RorBy(Word, src, 15))
    ensures Carried(RorOut(Word, src, 0)) <==> LowBit(RorBy(Word, src, 15))
  {
  }

  lemma RorLongBits(src: bv32, c: bv32)
    requires 0 < c < 31
    ensures (src >> (c + 1)) | (src << (32 - (c + 1)))
         == (((src >> c) | (src << (32 - c))) >> 1) | (((src >> c) | (src << (32 - c))) << 31)
  {
  }

  lemma RorLongNext(src: bv32, c: bv32)
    requires 0 < c < 31
    ensures RoundDown(src, c + 1) == Ror1((src >> c) | (src << (32 - c)))
  {
    RoundDownIs(src, c + 1);
    Ror1Is((src >> c) | (src << (32 - c)));
    hide RoundDown, Ror1;
    RorLongBits(src, c);
  }

  lemma Ror1Is(v: bv32)
    ensures Ror1(v) == (v >> 1) | (v << 31)
  {
  }

  lemma RorLongRound(src: bv32, c: bv32)
    requires 0 < c < 31
    ensures RoundDown(src, c + 1) == Ror1(RoundDown(src, c))
  {
    RorLongNext(src, c);
    RoundDownIs(src, c);
    hide RoundDown, Ror1;
  }

  lemma RorLong(src: bv32, c: bv32)
    requires c < 31
    ensures RorBy(Long, src, c + 1) == DownRound(Long, RorBy(Long, src, c))
  {
    if c > 0 {
      hide RoundDown, Ror1;
      RorLongRound(src, c);
    }
  }

  lemma RorOutLong(src: bv32, c: bv32)
    requires c < 31
    ensures Carried(RorOut(Long, src, c + 1)) <==> LowBit(RorBy(Long, src, c))
  {
  }

  lemma RorLastLong(src: bv32)
    ensures RorBy(Long, src, 0) == DownRound(Long, RorBy(Long, src, 31))
    ensures Carried(RorOut(Long, src, 0)) <==> LowBit(RorBy(Long, src, 31))
  {
  }

  lemma RorStep(w: Width, src: bv32, c: bv32)
    requires Fits(w, src) && c <= LastTurn(w)
    ensures RorBy(w, src, NextTurn(w, c)) == DownRound(w, RorBy(w, src, c))
    ensures Carried(RorOut(w, src, NextTurn(w, c))) <==> LowBit(RorBy(w, src, c))
  {
    hide RorBy, RorOut, DownRound, LowBit, Carried, Fits;
    match w
    case Byte => if c < 7 { RorByte(src, c); RorOutByte(src, c); } else { RorLastByte(src); }
    case Word => if c < 15 { RorWord(src, c); RorOutWord(src, c); } else { RorLastWord(src); }
    case Long => if c < 31 { RorLong(src, c); RorOutLong(src, c); } else { RorLastLong(src); }
  }

  // Arithmetic shift right: of a negative number ones come in, of another it is lsr.

  lemma AsrBitsByte(src: bv32, k: bv32)
    requires src & 0xff == src && src & 0x80 != 0 && k < 7
    ensures (src >> (k + 1)) | ((!(0xff >> (k + 1))) & 0xff)
            == (((src >> k) | ((!(0xff >> k)) & 0xff)) >> 1) | (((src >> k) | ((!(0xff >> k)) & 0xff)) & 0x80)
  {
  }

  lemma AsrNegativeByte(src: bv32, k: bv32)
    requires Fits(Byte, src) && TopBit(Byte, src) && k < 63
    ensures AsrNegative(Byte, src, k + 1) == DownSigned(Byte, AsrNegative(Byte, src, k))
  {
    if k < 7 { AsrBitsByte(src, k); }
  }

  lemma AsrPositiveByte(src: bv32, k: bv32)
    requires Fits(Byte, src) && !TopBit(Byte, src) && k < 63
    ensures Down(LsrValue(Byte, src, k)) == DownSigned(Byte, LsrValue(Byte, src, k))
  {
  }

  lemma AsrOutByte(src: bv32, k: bv32)
    requires Fits(Byte, src) && k < 63
    ensures TopBit(Byte, src) ==> (Carried(AsrCarry(Byte, src, k + 1)) <==> LowBit(AsrNegative(Byte, src, k)))
    ensures !TopBit(Byte, src) ==> (Carried(AsrCarry(Byte, src, k + 1)) <==> LowBit(LsrValue(Byte, src, k)))
  {
  }

  lemma DownOr(a: bv32, b: bv32)
    ensures Down(Or(a, b)) == Or(Down(a), Down(b))
  {
  }

  lemma DownShr(src: bv32, k: bv32)
    requires k < 31
    ensures Down(Shr(src, k)) == Shr(src, k + 1)
  {
  }

  lemma OrAssociates(a: bv32, b: bv32, c: bv32)
    ensures Or(Or(a, b), c) == Or(a, Or(b, c))
  {
  }

  lemma TableWordStep(k: bv32)
    requires k < 15
    ensures Table(Word, k + 1) == Or(Down(Table(Word, k)), 0x8000)
  {
  }

  lemma Asr1WordNegative(v: bv32)
    requires v & 0x8000 != 0
    ensures Asr1Word(v) == Or(Down(v), 0x8000)
  {
  }

  lemma FillWordNegative(src: bv32, k: bv32)
    requires src & 0x8000 != 0 && k < 16
    ensures FillWord(src, k) & 0x8000 != 0
  {
  }

  lemma FillWordNext(src: bv32, k: bv32)
    requires src & 0x8000 != 0 && k < 15
    ensures FillWord(src, k + 1) == Asr1Word(FillWord(src, k))
  {
    FillWordNegative(src, k);
    Asr1WordNegative(FillWord(src, k));
    TableWordStep(k);
    hide Or, Shr, Down, Table, Asr1Word;
    DownOr(Shr(src, k), Table(Word, k));
    DownShr(src, k);
    OrAssociates(Shr(src, k + 1), Down(Table(Word, k)), 0x8000);
  }

  lemma FillWordLast(src: bv32)
    requires src & 0x8000 != 0 && src & 0xffff == src
    ensures Asr1Word(FillWord(src, 15)) == Mask(Word) && Asr1Word(Mask(Word)) == Mask(Word)
  {
  }

  lemma AsrNegativeWord(src: bv32, k: bv32)
    requires Fits(Word, src) && TopBit(Word, src) && k < 63
    ensures AsrNegative(Word, src, k + 1) == DownSigned(Word, AsrNegative(Word, src, k))
  {
    hide FillWord, Asr1Word;
    FillWordLast(src);
    if k < 15 {
      FillWordNext(src, k);
    }
  }

  lemma AsrPositiveWord(src: bv32, k: bv32)
    requires Fits(Word, src) && !TopBit(Word, src) && k < 63
    ensures Down(LsrValue(Word, src, k)) == DownSigned(Word, LsrValue(Word, src, k))
  {
  }

  lemma AsrOutWord(src: bv32, k: bv32)
    requires Fits(Word, src) && k < 63
    ensures TopBit(Word, src) ==> (Carried(AsrCarry(Word, src, k + 1)) <==> LowBit(AsrNegative(Word, src, k)))
    ensures !TopBit(Word, src) ==> (Carried(AsrCarry(Word, src, k + 1)) <==> LowBit(LsrValue(Word, src, k)))
  {
  }

  lemma TableLongStep(k: bv32)
    requires k < 31
    ensures Table(Long, k + 1) == Or(Down(Table(Long, k)), 0x8000_0000)
  {
  }

  lemma Asr1LongNegative(v: bv32)
    requires v & 0x8000_0000 != 0
    ensures Asr1Long(v) == Or(Down(v), 0x8000_0000)
  {
  }

  lemma FillLongNegative(src: bv32, k: bv32)
    requires src & 0x8000_0000 != 0 && k < 32
    ensures FillLong(src, k) & 0x8000_0000 != 0
  {
  }

  lemma FillLongNext(src: bv32, k: bv32)
    requires src & 0x8000_0000 != 0 && k < 31
    ensures FillLong(src, k + 1) == Asr1Long(FillLong(src, k))
  {
    FillLongNegative(src, k);
    Asr1LongNegative(FillLong(src, k));
    TableLongStep(k);
    hide Or, Shr, Down, Table, Asr1Long;
    DownOr(Shr(src, k), Table(Long, k));
    DownShr(src, k);
    OrAssociates(Shr(src, k + 1), Down(Table(Long, k)), 0x8000_0000);
  }

  lemma FillLongLast(src: bv32)
    requires src & 0x8000_0000 != 0
    ensures Asr1Long(FillLong(src, 31)) == Mask(Long) && Asr1Long(Mask(Long)) == Mask(Long)
  {
  }

  lemma AsrNegativeLong(src: bv32, k: bv32)
    requires TopBit(Long, src) && k < 63
    ensures AsrNegative(Long, src, k + 1) == DownSigned(Long, AsrNegative(Long, src, k))
  {
    hide FillLong, Asr1Long;
    FillLongLast(src);
    if k < 31 {
      FillLongNext(src, k);
    }
  }

  lemma AsrPositiveLong(src: bv32, k: bv32)
    requires !TopBit(Long, src) && k < 63
    ensures Down(LsrValue(Long, src, k)) == DownSigned(Long, LsrValue(Long, src, k))
  {
  }

  lemma AsrOutLong(src: bv32, k: bv32)
    requires k < 63
    ensures TopBit(Long, src) ==> (Carried(AsrCarry(Long, src, k + 1)) <==> LowBit(AsrNegative(Long, src, k)))
    ensures !TopBit(Long, src) ==> (Carried(AsrCarry(Long, src, k + 1)) <==> LowBit(LsrValue(Long, src, k)))
  {
  }

  lemma AsrStep(w: Width, src: bv32, k: bv32)
    requires Fits(w, src) && k < 63
    ensures AsrValue(w, src, k + 1) == DownSigned(w, AsrValue(w, src, k))
    ensures Carried(AsrCarry(w, src, k + 1)) <==> LowBit(AsrValue(w, src, k))
  {
    hide AsrNegative, AsrCarry, LsrValue, LsrCarry, DownSigned, Down, TopBit, LowBit, Carried, Fits;
    LsrStep(w, src, k);
    match w
    case Byte => AsrOutByte(src, k); if TopBit(w, src) { AsrNegativeByte(src, k); } else { AsrPositiveByte(src, k); }
    case Word => AsrOutWord(src, k); if TopBit(w, src) { AsrNegativeWord(src, k); } else { AsrPositiveWord(src, k); }
    case Long => AsrOutLong(src, k); if TopBit(w, src) { AsrNegativeLong(src, k); } else { AsrPositiveLong(src, k); }
  }

  // Overflow of asl: the sign bits seen so far are the top bits of the operand.

  lemma AslOverflowByte(src: bv32, k: bv32)
    requires Fits(Byte, src) && k < 63
    ensures AslOverflow(Byte, src, k + 1) <==>
              AslOverflow(Byte, src, k) || TopBit(Byte, AslValue(Byte, src, k)) != TopBit(Byte,
                  AslValue(Byte, src, k + 1))
    ensures !AslOverflow(Byte, src, 0)
  {
  }

  // For words and longs, on the operand with its sign bit made zero: how much of it the k bits below the sign hold.

  function Hi(y: bv32, k: bv32): bv32
    requires k <= 31
  {
    y >> (31 - k)
  }

  /** The operand, complemented if negative. */
  function Magnitude(src: bv32): bv32 { if src & 0x8000_0000 != 0 then !src else src }

  /** The top k + 1 bits. */
  function HighOnes(k: bv32): bv32
    requires k < 31
  {
    !(0xffff_ffff >> (k + 1))
  }

  function Not(a: bv32): bv32 { !a }

  function OnesFrom(s: bv32): bv32
    requires s < 32
  {
    (0xffff_ffff as bv32) << s
  }

  lemma HighOnesFrom(k: bv32)
    requires k < 31
    ensures HighOnes(k) == OnesFrom(31 - k)
  {
  }

  lemma MaskedZero(d: bv32, s: bv32)
    requires s < 32 && And(d, OnesFrom(s)) == 0
    ensures Shr(d, s) == 0
  {
  }

  lemma ShiftedZero(d: bv32, s: bv32)
    requires s < 32 && Shr(d, s) == 0
    ensures And(d, OnesFrom(s)) == 0
  {
  }

  lemma HighPart(d: bv32, s: bv32)
    requires s < 32
    ensures And(d, OnesFrom(s)) == 0 <==> Shr(d, s) == 0
  {
    hide And, OnesFrom, Shr;
    if And(d, OnesFrom(s)) == 0 { MaskedZero(d, s); }
    if Shr(d, s) == 0 { ShiftedZero(d, s); }
  }

  lemma HiIsShr(d: bv32, k: bv32)
    requires k <= 31
    ensures Hi(d, k) == Shr(d, 31 - k)
  {
  }

  lemma MaskedIsHigh(d: bv32, k: bv32)
    requires k < 31
    ensures And(d, HighOnes(k)) == 0 <==> Hi(d, k) == 0
  {
    hide And, HighOnes, OnesFrom, Hi, Shr;
    HighOnesFrom(k);
    HighPart(d, 31 - k);
    HiIsShr(d, k);
  }

  function Xor(a: bv32, b: bv32): bv32 { a ^ b }

  lemma ComplementPlain(src: bv32, t: bv32)
    ensures (!src) & t == (src & t) ^ t
  {
  }

  lemma ComplementHalf(src: bv32, t: bv32)
    ensures And(!src, t) == Xor(src & t, t)
  {
    ComplementPlain(src, t);
  }

  lemma ComplementBits(src: bv32, t: bv32)
    ensures And(Not(src), t) == Xor(And(src, t), t)
  {
    ComplementHalf(src, t);
    assert Not(src) == !src && And(src, t) == src & t;
    hide And, Not, Xor;
  }

  lemma XorLaws(a: bv32, b: bv32)
    ensures Xor(a ^ b, b) == a && Xor(b, b) == 0 && Xor(0, b) == b
  {
  }

  lemma XorZero(a: bv32, b: bv32)
    ensures Xor(a, b) == 0 <==> a == b
  {
    XorLaws(a, b);
    assert Xor(a, b) == a ^ b;
    hide Xor;
  }

  lemma Complement(src: bv32, t: bv32)
    ensures And(Not(src), t) == 0 <==> And(src, t) == t
  {
    hide And, Not, Xor;
    ComplementBits(src, t);
    XorZero(And(src, t), t);
  }

  lemma TopInHighOnes(src: bv32, k: bv32)
    requires k < 31
    ensures src & 0x8000_0000 == 0 ==> And(src, HighOnes(k)) != HighOnes(k)
    ensures src & 0x8000_0000 != 0 ==> And(src, HighOnes(k)) != 0
  {
  }

  /** The top k + 1 bits are not all alike exactly when the magnitude reaches that high. */
  lemma AlikeIsLow(src: bv32, k: bv32)
    requires k < 31
    ensures And(src, HighOnes(k)) == 0 || And(src, HighOnes(k)) == HighOnes(k) <==> Hi(Magnitude(src), k) == 0
  {
    TopInHighOnes(src, k);
    MaskedIsHigh(src, k);
    MaskedIsHigh(Not(src), k);
    Complement(src, HighOnes(k));
    MagnitudeIs(src);
    hide And, HighOnes, Hi, Magnitude, Not;
  }

  lemma MagnitudeIs(src: bv32)
    ensures Magnitude(src) == if src & 0x8000_0000 != 0 then Not(src) else src
  {
  }

  lemma HiStep(y: bv32, k: bv32)
    requires k < 31
    ensures Hi(y, k + 1) >> 1 == Hi(y, k)
  {
  }

  lemma LowestBit(e: bv32)
    ensures e != 0 <==> e >> 1 != 0 || Odd(e)
  {
  }

  predicate Odd(e: bv32) { e & 1 != 0 }

  lemma HiShows(src: bv32, k: bv32)
    requires k <= 31
    ensures Odd(Hi(src, k)) <==> (src << k) & 0x8000_0000 != 0
  {
  }

  lemma HiFlipped(src: bv32, k: bv32)
    requires k <= 31
    ensures Odd(Hi(Not(src), k)) <==> !Odd(Hi(src, k))
  {
  }

  lemma HiTop(y: bv32)
    ensures Hi(Magnitude(y), 0) == 0
  {
  }

  /** `alike` up to one bit further down. */
  lemma HiGrows(y: bv32, k: bv32)
    requires k < 31
    ensures Hi(y, k + 1) != 0 <==> Hi(y, k) != 0 || Odd(Hi(y, k + 1))
  {
    HiStep(y, k);
    LowestBit(Hi(y, k + 1));
    hide Hi, Odd;
  }

  /** The sign after k steps. */
  predicate SignAt(src: bv32, k: bv32)
    requires k <= 31
  {
    (src << k) & 0x8000_0000 != 0
  }

  predicate SignOf(src: bv32) { src & 0x8000_0000 != 0 }

  lemma SignAfter(src: bv32, k: bv32)
    requires k <= 31
    ensures SignAt(src, k) != SignOf(src) <==> Odd(Hi(Magnitude(src), k))
  {
    HiShows(src, k);
    HiFlipped(src, k);
    MagnitudeIs(src);
    hide Hi, Odd, Not, Magnitude;
  }

  lemma ZeroIsEven(e: bv32)
    requires e == 0
    ensures !Odd(e)
  {
  }

  /** One more step, on the magnitude: either the sign had changed before, or it changes now. */
  lemma ChangeStep(src: bv32, k: bv32)
    requires k < 31
    ensures Hi(Magnitude(src), k + 1) != 0 <==>
              Hi(Magnitude(src), k) != 0 || SignAt(src, k) != SignAt(src, k + 1)
  {
    hide Hi, Odd, Magnitude, SignAt, SignOf;
    HiGrows(Magnitude(src), k);
    SignAfter(src, k);
    SignAfter(src, k + 1);
    if Hi(Magnitude(src), k) == 0 { ZeroIsEven(Hi(Magnitude(src), k)); }
  }

  lemma LastAlike(src: bv32)
    ensures src == 0 || src == 0xffff_ffff <==> Hi(Magnitude(src), 31) == 0
    ensures src != 0 <==> !(src == 0 || src == 0xffff_ffff) || (src << 31) & 0x8000_0000 != 0
  {
  }

  // Back in the handlers' terms.

  predicate Alike(src: bv32, k: bv32)
    requires k < 31
  {
    And(src, HighOnes(k)) == 0 || And(src, HighOnes(k)) == HighOnes(k)
  }

  lemma OverflowIsNotAlike(src: bv32, k: bv32)
    requires k < 31
    ensures AslOverflow(Long, src, k) <==> !Alike(src, k)
  {
  }

  lemma OverflowLast(src: bv32)
    ensures AslOverflow(Long, src, 31) <==> src != 0 && src != 0xffff_ffff
  {
  }

  lemma OverflowIsHigh(src: bv32, k: bv32)
    requires k <= 31
    ensures AslOverflow(Long, src, k) <==> Hi(Magnitude(src), k) != 0
  {
    hide AslOverflow, Hi, Magnitude, And, HighOnes;
    if k < 31 {
      OverflowIsNotAlike(src, k);
      AlikeIsLow(src, k);
    } else {
      OverflowLast(src);
      LastAlike(src);
    }
  }

  lemma LongSign(src: bv32, k: bv32)
    ensures k <= 31 ==> (TopBit(Long, AslValue(Long, src, k)) <==> SignAt(src, k))
    ensures k > 31 ==> !TopBit(Long, AslValue(Long, src, k))
  {
  }

  lemma OverflowBeyond(src: bv32, k: bv32)
    requires k > 31
    ensures AslOverflow(Long, src, k) <==> src != 0
  {
  }

  lemma AslOverflowLong(src: bv32, k: bv32)
    requires k < 63
    ensures AslOverflow(Long, src, k + 1) <==>
              AslOverflow(Long, src, k) || TopBit(Long, AslValue(Long, src, k)) != TopBit(Long,
                  AslValue(Long, src, k + 1))
    ensures !AslOverflow(Long, src, 0)
  {
    hide AslOverflow, Hi, Magnitude, TopBit, AslValue, SignAt;
    LongSign(src, k);
    LongSign(src, k + 1);
    OverflowIsHigh(src, 0);
    HiTop(src);
    if k < 31 {
      OverflowIsHigh(src, k);
      OverflowIsHigh(src, k + 1);
      ChangeStep(src, k);
    } else if k == 31 {
      OverflowLast(src);
      OverflowBeyond(src, 32);
      LastSign(src);
    } else {
      OverflowBeyond(src, k);
      OverflowBeyond(src, k + 1);
    }
  }

  lemma LastSign(src: bv32)
    ensures src != 0 <==> !(src == 0 || src == 0xffff_ffff) || SignAt(src, 31)
  {
  }

  // A word is a long with its bits moved up.

  function Lift(a: bv32): bv32 { a << 16 }

  predicate Is16(a: bv32) { a & 0xffff == a }

  lemma LiftDown(a: bv32)
    requires Is16(a)
    ensures Lift(a) >> 16 == a
  {
  }

  lemma LiftInjective(a: bv32, b: bv32)
    requires Is16(a) && Is16(b)
    ensures Lift(a) == Lift(b) <==> a == b
  {
    LiftDown(a);
    LiftDown(b);
    hide Lift, Is16;
  }

  lemma LiftAnd(a: bv32, b: bv32)
    requires Is16(a)
    ensures And(Lift(a), Lift(b)) == Lift(And(a, b)) && Is16(And(a, b)) && Lift(0) == 0 && Is16(0)
  {
  }

  lemma LiftedMixed(src: bv32, t: bv32)
    requires Is16(src) && Is16(t)
    ensures Mixed(src, t) <==> Mixed(Lift(src), Lift(t))
  {
    hide Lift, Is16, And;
    LiftAnd(src, t);
    LiftInjective(And(src, t), 0);
    LiftInjective(And(src, t), t);
  }

  lemma LiftedTable(j: bv32)
    requires j <= 16
    ensures Lift(Table(Word, j)) == Table(Long, j) && Is16(Table(Word, j))
  {
  }

  lemma LiftedOverflowLow(src: bv32, k: bv32)
    requires Is16(src) && k < 16
    ensures AslOverflow(Word, src, k) <==> AslOverflow(Long, Lift(src), k)
  {
    hide Lift, Table, Mixed;
    LiftedTable(k + 1);
    LiftedMixed(src, Table(Word, k + 1));
  }

  lemma LiftedHigh(src: bv32, k: bv32)
    requires Is16(src) && 16 <= k < 31
    ensures And(Lift(src), Table(Long, k + 1)) == Lift(src) && Lift(src) != Table(Long, k + 1)
  {
  }

  lemma LiftedOverflow(src: bv32, k: bv32)
    requires Is16(src)
    ensures AslOverflow(Word, src, k) <==> AslOverflow(Long, Lift(src), k)
  {
    if k < 16 {
      LiftedOverflowLow(src, k);
    } else {
      LiftLast(src);
      LiftInjective(src, 0);
      if k < 31 { LiftedHigh(src, k); }
      hide Lift, Table, And;
    }
  }

  lemma LiftLast(src: bv32)
    requires Is16(src)
    ensures Lift(0) == 0 && Table(Long, 32) == 0xffff_ffff && Lift(src) != 0xffff_ffff
            && And(Lift(src), 0xffff_ffff) == Lift(src) && Is16(0)
  {
  }

  lemma LiftedSign(src: bv32, k: bv32)
    requires Is16(src)
    ensures TopBit(Word, AslValue(Word, src, k)) <==> TopBit(Long, AslValue(Long, Lift(src), k))
  {
  }

  lemma AslOverflowWord(src: bv32, k: bv32)
    requires Fits(Word, src) && k < 63
    ensures AslOverflow(Word, src, k + 1) <==>
              AslOverflow(Word, src, k) || TopBit(Word, AslValue(Word, src, k)) != TopBit(Word,
                  AslValue(Word, src, k + 1))
    ensures !AslOverflow(Word, src, 0)
  {
    hide AslOverflow, TopBit, AslValue, Lift;
    LiftedOverflow(src, k);
    LiftedOverflow(src, k + 1);
    LiftedOverflow(src, 0);
    LiftedSign(src, k);
    LiftedSign(src, k + 1);
    AslOverflowLong(Lift(src), k);
  }

  lemma AslOverflowStep(w: Width, src: bv32, k: bv32)
    requires Fits(w, src) && k < 63
    ensures AslOverflow(w, src, k + 1) <==>
              AslOverflow(w, src, k) || TopBit(w, AslValue(w, src, k)) != TopBit(w, AslValue(w, src, k + 1))
    ensures !AslOverflow(w, src, 0)
  {
    hide AslOverflow, AslValue, TopBit, Fits;
    match w
    case Byte => AslOverflowByte(src, k);
    case Word => AslOverflowWord(src, k);
    case Long => AslOverflowLong(src, k);
  }


  // ---------------------------------------------------------------------------
  // A count of zero
  // ---------------------------------------------------------------------------

  lemma NoTurn(w: Width)
    ensures Turn(w, 0) == 0
  {
  }

  lemma StartByte(src: bv32)
    requires Fits(Byte, src)
    ensures LslValue(Byte, src, 0) == src && AslValue(Byte, src, 0) == src && LsrValue(Byte, src, 0) == src
    ensures RolBy(Byte, src, 0) == src && RorBy(Byte, src, 0) == src && AsrNegative(Byte, src, 0) == src
  {
  }

  lemma StartAsrWord(src: bv32)
    requires Fits(Word, src)
    ensures AsrNegative(Word, src, 0) == src
  {
    assert Table(Word, 0) == 0;
    hide Table;
  }

  lemma StartRotateWord(src: bv32)
    requires Fits(Word, src)
    ensures RolBy(Word, src, 0) == src && RorBy(Word, src, 0) == src
  {
  }

  lemma StartWord(src: bv32)
    requires Fits(Word, src)
    ensures LslValue(Word, src, 0) == src && AslValue(Word, src, 0) == src && LsrValue(Word, src, 0) == src
    ensures RolBy(Word, src, 0) == src && RorBy(Word, src, 0) == src && AsrNegative(Word, src, 0) == src
  {
    hide RolBy, RorBy, AsrNegative;
    StartAsrWord(src);
    StartRotateWord(src);
  }

  lemma StartLong(src: bv32)
    ensures LslValue(Long, src, 0) == src && AslValue(Long, src, 0) == src && LsrValue(Long, src, 0) == src
    ensures RolBy(Long, src, 0) == src && RorBy(Long, src, 0) == src && AsrNegative(Long, src, 0) == src
  {
  }
}
