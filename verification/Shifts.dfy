/**
 The register-count shifts and rotates of the Musashi core (tools/r68k/musashi/m68k_in.c)
 against the one-bit instruction, and the handlers on the processor state.
 */
module Shifts {
  import opened ShiftForms
  import opened Memory68k
  import opened Cpu68k

  datatype Op = ShiftLeft | ArithmeticLeft | ShiftRight | ArithmeticRight | RotateLeft | RotateRight

  // ---------------------------------------------------------------------------
  // The reference: one bit, k times
  // ---------------------------------------------------------------------------

  /** The instruction with a count of one. */
  function One(op: Op, w: Width, v: bv32): bv32 {
    match op
    case ShiftLeft => Up(w, v)
    case ArithmeticLeft => Up(w, v)
    case ShiftRight => Down(v)
    case ArithmeticRight => DownSigned(w, v)
    case RotateLeft => UpRound(w, v)
    case RotateRight => DownRound(w, v)
  }

  /** The bit it moves out. */
  predicate Out(op: Op, w: Width, v: bv32) {
    if op.ShiftLeft? || op.ArithmeticLeft? || op.RotateLeft? then TopBit(w, v) else LowBit(v)
  }

  function Iterate(op: Op, w: Width, v: bv32, k: bv32): bv32
    decreases k
  {
    if k == 0 then v else One(op, w, Iterate(op, w, v, k - 1))
  }

  /** The last bit moved out in k steps; none in no steps. */
  predicate LastOut(op: Op, w: Width, v: bv32, k: bv32) { k != 0 && Out(op, w, Iterate(op, w, v, k - 1)) }

  /** Some one of the k steps of a left shift changed the sign bit. */
  predicate SignChanges(w: Width, v: bv32, k: bv32)
    decreases k
  {
    k != 0 &&
    (SignChanges(w, v, k - 1) ||
     TopBit(w, Iterate(ArithmeticLeft, w, v, k - 1)) != TopBit(w, Iterate(ArithmeticLeft, w, v, k)))
  }

  // ---------------------------------------------------------------------------
  // The handlers' closed forms
  // ---------------------------------------------------------------------------

  function Value(op: Op, w: Width, src: bv32, k: bv32): bv32 {
    TurnBelow(w, k);
    match op
    case ShiftLeft => LslValue(w, src, k)
    case ArithmeticLeft => AslValue(w, src, k)
    case ShiftRight => LsrValue(w, src, k)
    case ArithmeticRight => AsrValue(w, src, k)
    case RotateLeft => RolBy(w, src, Turn(w, k))
    case RotateRight => RorBy(w, src, Turn(w, k))
  }

  function CarryFlag(op: Op, w: Width, src: bv32, k: bv32): bv32 {
    TurnBelow(w, k);
    match op
    case ShiftLeft => LslCarry(w, src, k)
    case ArithmeticLeft => AslCarry(w, src, k)
    case ShiftRight => LsrCarry(w, src, k)
    case ArithmeticRight => AsrCarry(w, src, k)
    case RotateLeft => RolOut(w, src, Turn(w, k))
    case RotateRight => RorOut(w, src, Turn(w, k))
  }

  predicate Rotates(op: Op) { op.RotateLeft? || op.RotateRight? }

  lemma ShiftStep(op: Op, w: Width, src: bv32, k: bv32)
    requires Fits(w, src) && k < 63 && !Rotates(op)
    ensures Value(op, w, src, k + 1) == One(op, w, Value(op, w, src, k))
    ensures Carried(CarryFlag(op, w, src, k + 1)) <==> Out(op, w, Value(op, w, src, k))
  {
    hide Fits, Carried, TopBit, LowBit, LslValue, LslCarry, AslValue, AslCarry, LsrValue, LsrCarry, AsrValue, AsrCarry,
         RolBy, RolOut, RorBy, RorOut, Turn, NextTurn, LastTurn, Up, Down, DownSigned, UpRound, DownRound;
    match op
    case ShiftLeft => LslStep(w, src, k);
    case ArithmeticLeft => AslStep(w, src, k);
    case ShiftRight => LsrStep(w, src, k);
    case ArithmeticRight => AsrStep(w, src, k);
  }

  lemma RolValueStep(w: Width, src: bv32, k: bv32)
    requires Fits(w, src) && k < 63
    ensures Value(RotateLeft, w, src, k + 1) == One(RotateLeft, w, Value(RotateLeft, w, src, k))
    ensures Carried(CarryFlag(RotateLeft, w, src, k + 1)) <==> Out(RotateLeft, w, Value(RotateLeft, w, src, k))
  {
    hide Fits, Carried, TopBit, LowBit, RolBy, RolOut, Turn, NextTurn, LastTurn, UpRound, DownRound;
    TurnStep(w, k);
    RolStep(w, src, Turn(w, k));
  }

  lemma RorValueStep(w: Width, src: bv32, k: bv32)
    requires Fits(w, src) && k < 63
    ensures Value(RotateRight, w, src, k + 1) == One(RotateRight, w, Value(RotateRight, w, src, k))
    ensures Carried(CarryFlag(RotateRight, w, src, k + 1)) <==> Out(RotateRight, w, Value(RotateRight, w, src, k))
  {
    hide Fits, Carried, TopBit, LowBit, RorBy, RorOut, Turn, NextTurn, LastTurn, UpRound, DownRound;
    TurnStep(w, k);
    RorStep(w, src, Turn(w, k));
  }

  lemma ValueStep(op: Op, w: Width, src: bv32, k: bv32)
    requires Fits(w, src) && k < 63
    ensures Value(op, w, src, k + 1) == One(op, w, Value(op, w, src, k))
    ensures Carried(CarryFlag(op, w, src, k + 1)) <==> Out(op, w, Value(op, w, src, k))
  {
    hide Fits, Carried, Value, CarryFlag, One, Out;
    match op
    case RotateLeft => RolValueStep(w, src, k);
    case RotateRight => RorValueStep(w, src, k);
    case _ => ShiftStep(op, w, src, k);
  }

  lemma ValueStart(op: Op, w: Width, src: bv32)
    requires Fits(w, src)
    ensures Value(op, w, src, 0) == src
  {
    hide Fits, TopBit, LslValue, AslValue, LsrValue, AsrNegative, RolBy, RorBy;
    NoTurn(w);
    match w
    case Byte => StartByte(src);
    case Word => StartWord(src);
    case Long => StartLong(src);
  }

  // Counting up: what k + 1 steps are in terms of k.

  lemma Before(k: bv32)
    ensures (k + 1) - 1 == k
  {
  }

  lemma Predecessor(k: bv32)
    requires k != 0 && k < 64
    ensures k - 1 < 63 && (k - 1) + 1 == k
  {
  }

  lemma NotZero(k: bv32)
    requires k < 63
    ensures k + 1 != 0
  {
  }

  lemma IterateNext(op: Op, w: Width, v: bv32, k: bv32)
    requires k < 63
    ensures Iterate(op, w, v, k + 1) == One(op, w, Iterate(op, w, v, k))
    ensures LastOut(op, w, v, k + 1) <==> Out(op, w, Iterate(op, w, v, k))
  {
    hide One, Out;
    Before(k);
    NotZero(k);
  }

  lemma SignChangesNext(w: Width, v: bv32, k: bv32)
    requires k < 63
    ensures SignChanges(w, v, k + 1) <==>
              SignChanges(w, v, k) || TopBit(w, Iterate(ArithmeticLeft, w, v, k)) != TopBit(w,
                  Iterate(ArithmeticLeft, w, v, k + 1))
  {
    hide Iterate, TopBit;
    Before(k);
    NotZero(k);
  }

  lemma NoSteps(op: Op, w: Width, v: bv32)
    ensures Iterate(op, w, v, 0) == v && !LastOut(op, w, v, 0) && !SignChanges(w, v, 0)
  {
  }

  lemma HandlerNext(op: Op, w: Width, src: bv32, k: bv32)
    requires Fits(w, src) && k < 63 && Value(op, w, src, k) == Iterate(op, w, src, k)
    ensures Value(op, w, src, k + 1) == Iterate(op, w, src, k + 1)
    ensures Carried(CarryFlag(op, w, src, k + 1)) <==> LastOut(op, w, src, k + 1)
  {
    hide Value, CarryFlag, Fits, One, Out, Carried, Iterate, LastOut;
    ValueStep(op, w, src, k);
    IterateNext(op, w, src, k);
  }

  /** Every shift or rotate by k gives the result and the carry of k steps of one bit. */
  lemma {:induction false} HandlerIsIterated(op: Op, w: Width, src: bv32, k: bv32)
    requires Fits(w, src) && k < 64
    ensures Value(op, w, src, k) == Iterate(op, w, src, k)
    ensures k != 0 ==> (Carried(CarryFlag(op, w, src, k)) <==> LastOut(op, w, src, k))
    decreases k
  {
    hide Value, CarryFlag, Fits, Carried, Iterate, LastOut;
    if k == 0 {
      ValueStart(op, w, src);
      NoSteps(op, w, src);
    } else {
      Predecessor(k);
      HandlerIsIterated(op, w, src, k - 1);
      HandlerNext(op, w, src, k - 1);
    }
  }

  lemma OverflowNext(w: Width, src: bv32, k: bv32)
    requires Fits(w, src) && k < 63 && (AslOverflow(w, src, k) <==> SignChanges(w, src, k))
    ensures AslOverflow(w, src, k + 1) <==> SignChanges(w, src, k + 1)
  {
    ValueOfAsl(w, src, k);
    ValueOfAsl(w, src, k + 1);
    hide Fits, AslOverflow, Iterate, TopBit, AslValue, SignChanges, Value;
    AslOverflowStep(w, src, k);
    SignChangesNext(w, src, k);
  }

  lemma ValueOfAsl(w: Width, src: bv32, k: bv32)
    requires Fits(w, src) && k < 64
    ensures AslValue(w, src, k) == Iterate(ArithmeticLeft, w, src, k)
  {
    hide Fits, AslValue, Iterate;
    HandlerIsIterated(ArithmeticLeft, w, src, k);
  }

  /** V of asl: set exactly when the sign bit changed at some step. */
  lemma {:induction false} OverflowIsSignChange(w: Width, src: bv32, k: bv32)
    requires Fits(w, src) && k < 64
    ensures AslOverflow(w, src, k) <==> SignChanges(w, src, k)
    decreases k
  {
    hide Fits, AslOverflow, SignChanges;
    if k == 0 {
      AslOverflowStep(w, src, 0);
      NoSteps(ArithmeticLeft, w, src);
    } else {
      Predecessor(k);
      OverflowIsSignChange(w, src, k - 1);
      OverflowNext(w, src, k - 1);
    }
  }

  // ---------------------------------------------------------------------------
  // The handlers
  // ---------------------------------------------------------------------------

  /** MASK_OUT_ABOVE_8 and its like */
  function Part(w: Width, v: bv32): bv32 { v & Mask(w) }

  /** *r_dst = MASK_OUT_BELOW_8(*r_dst) | res */
  function Merge(w: Width, dst: bv32, res: bv32): bv32 { (dst & !Mask(w)) | res }

  /** NFLAG_8, NFLAG_16, NFLAG_32 */
  function NFlag(w: Width, v: bv32): bv32 { match w case Byte => v case Word => v >> 8 case Long => v >> 24 }

  lemma NFlagIsSign(w: Width, v: bv32)
    ensures Set80(NFlag(w, v)) <==> TopBit(w, v)
  {
    match w
    case Byte => assert v & 0x80 != 0 <==> TopBit(Byte, v);
    case Word => assert (v >> 8) & 0x80 != 0 <==> TopBit(Word, v);
    case Long => assert (v >> 24) & 0x80 != 0 <==> TopBit(Long, v);
  }

  /** DX & 0x3f */
  function CountOf(dx: bv32): (k: bv32)
    ensures k < 64
  {
    dx & 0x3f
  }

  // A register as its upper 26 bits and its lower six

  function Upper26(v: bv32): bv26 { ((v >> 6) & 0x3ff_ffff) as bv26 }

  function Lower6(v: bv32): bv6 { (v & 0x3f) as bv6 }

  function Joined(h: bv26, l: bv6): bv32 { ((h as bv32) << 6) | (l as bv32) }

  function Number26(h: bv26): nat { h as int }

  function Number6(l: bv6): nat { l as int }

  lemma JoinedNumber(h: bv26, l: bv6)
    ensures Nat(Joined(h, l)) == 64 * Number26(h) + Number6(l)
  {
  }

  lemma SixBits(l: bv6)
    ensures Nat(Joined(0, l)) == Number6(l) < 64
  {
  }

  lemma JoinedParts(v: bv32)
    ensures Joined(Upper26(v), Lower6(v)) == v && Joined(0, Lower6(v)) == CountOf(v)
  {
  }

  /** The count is the register modulo 64. */
  lemma CountIsModulo(dx: bv32)
    ensures Nat(CountOf(dx)) == Nat(dx) % 64
  {
    hide CountOf, Joined, Upper26, Lower6, Nat, Number26, Number6;
    JoinedParts(dx);
    JoinedNumber(Upper26(dx), Lower6(dx));
    SixBits(Lower6(dx));
  }

  lemma PartFits(w: Width, v: bv32)
    ensures Fits(w, Part(w, v))
  {
  }

  /** What a handler puts into Dy, FLAG_C and FLAG_V; nothing moves for a count of zero. */
  function ShiftResult(op: Op, w: Width, src: bv32, k: bv32): bv32 { if k != 0 then Value(op, w, src, k) else src }

  function ShiftCarry(op: Op, w: Width, src: bv32, k: bv32): bv32 { if k != 0 then CarryFlag(op, w, src, k) else 0 }

  function ShiftOverflow(op: Op, w: Width, src: bv32, k: bv32): bv32 {
    if k != 0 && op.ArithmeticLeft? && AslOverflow(w, src, k) then 0x80 else 0
  }

  lemma ShiftHolds(op: Op, w: Width, src: bv32, k: bv32)
    requires Fits(w, src) && k < 64
    ensures var res := ShiftResult(op, w, src, k);
            && res == Iterate(op, w, src, k) && (Set80(NFlag(w, res)) <==> TopBit(w, res))
            && (Carried(ShiftCarry(op, w, src, k)) <==> LastOut(op, w, src, k))
            && (Set80(ShiftOverflow(op, w, src, k)) <==> op.ArithmeticLeft? && SignChanges(w, src, k))
  {
    hide Value, CarryFlag, Iterate, SignChanges, AslOverflow, Fits, NFlag, TopBit, Carried, Set80, LastOut;
    NoSteps(op, w, src);
    HandlerIsIterated(op, w, src, k);
    OverflowIsSignChange(w, src, k);
    NotCarried();
    NFlagIsSign(w, ShiftResult(op, w, src, k));
  }

  /** A data register with the flags X, N, Z, V and C */
  datatype Flagged = Flagged(d: bv32, x: bv32, n: bv32, notZ: bv32, v: bv32, c: bv32)

  /** `r` is what k one-bit instructions make of the operand in `d`, flags included. */
  predicate ShiftedBy(op: Op, w: Width, k: bv32, d: bv32, x: bv32, r: Flagged) {
    var src := Part(w, d);
    var res := Iterate(op, w, src, k);
    && r.d == (if k == 0 then d else Merge(w, d, res))
    && (Set80(r.n) <==> TopBit(w, res)) && (r.notZ == 0 <==> res == 0)
    && (Carried(r.c) <==> LastOut(op, w, src, k))
    && (Set80(r.v) <==> op.ArithmeticLeft? && SignChanges(w, src, k))
    && r.x == (if k == 0 || Rotates(op) then x else r.c)
  }

  /** The handlers' computation */
  function Shift(op: Op, w: Width, k: bv32, d: bv32, x: bv32): Flagged {
    var src := Part(w, d);
    var res, carry := ShiftResult(op, w, src, k), ShiftCarry(op, w, src, k);
    Flagged(
      if k != 0 then Merge(w, d, res) else d, if k == 0 || Rotates(op) then x else carry,
      NFlag(w, res), res, ShiftOverflow(op, w, src, k), carry)
  }

  lemma ShiftIsIterated(op: Op, w: Width, k: bv32, d: bv32, x: bv32)
    requires k < 64
    ensures ShiftedBy(op, w, k, d, x, Shift(op, w, k, d, x))
  {
    hide Part, Merge, Fits, Iterate, Set80, NFlag, TopBit, Carried, LastOut, SignChanges, ShiftResult, ShiftCarry,
         ShiftOverflow;
    PartFits(w, d);
    ShiftHolds(op, w, Part(w, d), k);
  }

  /**
   asr, asl, lsr, lsl, ror and rol of Dy by Dx: the result, X, N, Z, V and C are those of
   the one-bit instruction applied as often as the count says.
   */
  method ShiftRegister(cpu: Cpu, op: Op, w: Width, dx: nat, dy: nat)
    requires cpu.Valid() && dx < 8 && dy < 8
    modifies cpu`dar, cpu`x, cpu`n, cpu`notZ, cpu`v, cpu`c
    ensures cpu.Valid() && cpu.dar == old(cpu.dar)[dy := cpu.dar[dy]]
    ensures ShiftedBy(
              op, w, CountOf(old(cpu.dar)[dx]), old(cpu.dar)[dy], old(cpu.x),
              Flagged(cpu.dar[dy], cpu.x, cpu.n, cpu.notZ, cpu.v, cpu.c))
    ensures Nat(CountOf(old(cpu.dar)[dx])) == Nat(old(cpu.dar)[dx]) % 64
  {
    hide KnownCpu, Modes, TraceAndMask, IsLevel, CountOf, Nat, Shift, ShiftedBy;
    CountIsModulo(cpu.dar[dx]);
    var k, d := CountOf(cpu.dar[dx]), cpu.dar[dy];
    ShiftIsIterated(op, w, k, d, cpu.x);
    var r := Shift(op, w, k, d, cpu.x);
    cpu.dar, cpu.x, cpu.c, cpu.v, cpu.n, cpu.notZ := cpu.dar[dy := r.d], r.x, r.c, r.v, r.n, r.notZ;
  }

  lemma NotCarried()
    ensures !Carried(0) && !Set80(0) && Set80(0x80)
  {
  }
}
