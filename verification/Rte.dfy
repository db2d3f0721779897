/**
 Interrupts and RTE (tools/r68k/musashi/m68kcpu.h, m68k_in.c).
 */
module Rte {
  import opened Memory68k
  import opened Cpu68k
  import opened Exceptions

  const INT_ACK_AUTOVECTOR: bv32 := 0xffffffff
  const INT_ACK_SPURIOUS: bv32 := 0xfffffffe

  // ---------------------------------------------------------------------------
  // Interrupts
  // ---------------------------------------------------------------------------

  /** A frame below stack address `a`: what RTE would find there. */
  predicate FrameBelow(m: Memory, mask: bv32, a: bv32, pc: bv32, sr: bv32) {
    FrameAt(m, Bus(mask, a), Bus(mask, Plus(a, 2)), pc, sr)
  }

  function FormatBelow(m: Memory, mask: bv32, a: bv32): bv32 {
    Top4(Read16(m, Bus(mask, Plus(a, 6))))
  }

  /** Writing a four-word frame at p, q, r touches no word of the one at p', q', r'. */
  predicate ApartFrom(p: bv32, q: bv32, r: bv32, p': bv32, q': bv32, r': bv32) {
    && WordsApart(p, p') && WordLongApart(p, q') && WordsApart(p, r')
    && LongWordApart(q, p') && LongsApart(q, q') && LongWordApart(q, r')
    && WordsApart(r, p') && WordLongApart(r, q') && WordsApart(r, r')
  }

  /** The four-word frames at stack addresses `a` and `b` share no byte. */
  predicate FramesApart(mask: bv32, a: bv32, b: bv32) {
    ApartFrom(Bus(mask, a), Bus(mask, Plus(a, 2)), Bus(mask, Plus(a, 6)),
              Bus(mask, b), Bus(mask, Plus(b, 2)), Bus(mask, Plus(b, 6)))
  }

  /** As the frames of stacks in different places are. */
  lemma DifferentPlaces()
    ensures FramesApart(0xffffff, 0x1000, 0x2000) && FramesApart(0xffffffff, 0x1000, 0x2000)
  {
  }

  lemma FrameKept(m: Memory, p: bv32, q: bv32, r: bv32, p': bv32, q': bv32, r': bv32, pc: bv32, sr: bv32, format: bv32)
    requires ApartFrom(p, q, r, p', q', r')
    ensures var m' := LongFrame(m, p, q, r, pc, sr, format);
            Read16(m', p') == Read16(m, p') && Read32(m', q') == Read32(m, q') && Read16(m', r') == Read16(m, r')
  {
    hide Read16, Read32, Write16, Write32, WordsApart, WordLongApart, LongWordApart, LongsApart;
    var m1 := Write16(m, r, format);
    var m2 := Write32(m1, q, pc);
    WordKeepsWord(m, r, format, p');
    WordKeepsLong(m, r, format, q');
    WordKeepsWord(m, r, format, r');
    LongKeepsWord(m1, q, pc, p');
    LongKeepsLong(m1, q, pc, q');
    LongKeepsWord(m1, q, pc, r');
    WordKeepsWord(m2, p, sr, p');
    WordKeepsLong(m2, p, sr, q');
    WordKeepsWord(m2, p, sr, r');
  }

  /** The vector an interrupt uses, or none when the acknowledge answered with a bad one. */
  function InterruptVector(level: bv32, ack: bv32): (vector: bv32)
  {
    if ack == INT_ACK_AUTOVECTOR then 24 + level else if ack == INT_ACK_SPURIOUS then 24 else ack
  }

  /** The processor takes the interrupt: it is not halted and the acknowledge gave a vector. */
  predicate Taken(halted: bool, level: bv32, ack: bv32) {
    !halted && InterruptVector(level, ack) <= 255
  }

  /**
   An interrupt taken with M set: the return frame is on the master stack, and a
   throwaway frame with S forced on is on the interrupt stack, which is active.
   */
  ghost predicate EnteredTwice(cpu: Cpu, stacks: (bv32, bv32, bv32), dar: seq<bv32>, pc: bv32, sr: bv32)
    requires |cpu.dar| == 16 && |cpu.sp| == 7 && |dar| == 16
    reads cpu`sp, cpu`dar, cpu`s, cpu`m, cpu`t1, cpu`t0, cpu`mem
  {
    var i, master := Minus(stacks.1, 8), Minus(stacks.2, 8);
    && cpu.s == SFLAG_SET && cpu.m == 0 && cpu.t1 == 0 && cpu.t0 == 0
    && cpu.dar == dar[15 := i]
    && cpu.Stacks() == (stacks.0, i, master)
    && FrameBelow(cpu.mem, cpu.addressMask, i, pc, ForceS(sr))
    && FormatBelow(cpu.mem, cpu.addressMask, i) == 1
    && FrameBelow(cpu.mem, cpu.addressMask, master, pc, sr)
    && FormatBelow(cpu.mem, cpu.addressMask, master) == 0
  }

  function ForceS(sr: bv32): bv32 { sr | 0x2000 }

  lemma MinusOfSum(a: bv32, k: bv32)
    ensures Minus(a + k, k) == a
  {
  }

  lemma MinusOfPlus(a: bv32, b: bv32, k: bv32)
    requires b == Plus(a, k)
    ensures a == Minus(b, k)
  {
    MinusOfSum(a, k);
    PlusIs(a, k);
    hide Plus, Minus;
  }

  lemma SupervisorModes()
    ensures Modes(SFLAG_SET, 0)
  {
  }

  /** Where the status register holds an interrupt level. */
  function LevelBits(level: bv32): bv32 { level << 8 }

  lemma LevelNumber(level: bv32)
    requires level <= 7
    ensures Nat(LevelBits(level)) == 256 * Nat(level)
  {
    assert level == 0 || level == 1 || level == 2 || level == 3 || level == 4 || level == 5 || level == 6 || level == 7;
  }

  lemma LevelMask(level: bv32)
    requires level <= 7
    ensures TraceAndMask(0, 0, LevelBits(level))
  {
  }

  lemma MasterMode(s: bv32, m: bv32)
    requires Modes(s, m) && m != 0
    ensures m == MFLAG_SET
  {
  }

  /** m68ki_stack_frame_0001 */
  method StackFrame0001(cpu: Cpu, pc: bv32, sr: bv32, vector: bv32)
    requires cpu.Valid() && vector <= 255 && Low16(sr) == sr
    modifies cpu`dar, cpu`mem
    ensures cpu.Valid() && cpu.dar == old(cpu.dar)[15 := cpu.dar[15]] && old(cpu.dar)[15] == Plus(cpu.dar[15], 8)
    ensures FrameOnTop(cpu, pc, sr) && FormatOnTop(cpu) == 1 && WordOnTop(cpu) == FormatWord(1, vector)
    ensures cpu.mem == LongFrame(old(cpu.mem), cpu.Address(cpu.dar[15]), cpu.Address(Plus(cpu.dar[15], 2)),
                                 cpu.Address(Plus(cpu.dar[15], 6)), pc, sr, 0x1000 | (vector << 2))
  {
    hide KnownCpu, Modes, TraceAndMask, IsLevel, Plus, Bus, FrameAt, LongFrame, Read16, Top4, Low16, AddressMask,
         FormatWord;
    KnownMask(cpu.cpuType, cpu.addressMask, cpu.srMask);
    PushLongFrame(cpu, pc, sr, 0x1000 | (vector << 2));
    LongOnTop(old(cpu.mem), cpu.addressMask, cpu.dar[15], pc, sr, 0x1000 | (vector << 2));
    FormatWords(vector);
    FormatWordBits(vector);
  }

  /** The interrupt stack becomes active, with the return frame left on the master stack. */
  method ToInterruptStack(cpu: Cpu, pc: bv32, sr: bv32, ghost stacks: (bv32, bv32, bv32), ghost dar: seq<bv32>)
    requires cpu.Valid() && |dar| == 16 && cpu.m == MFLAG_SET && cpu.cpuType != CPU_TYPE_000
    requires Entered(cpu, stacks, dar, MFLAG_SET, pc, sr, 8, 0)
    modifies cpu`dar, cpu`sp, cpu`s, cpu`m
    ensures cpu.Valid() && cpu.s == SFLAG_SET && cpu.m == 0 && cpu.t1 == 0 && cpu.t0 == 0
    ensures cpu.dar == dar[15 := stacks.1]
    ensures forall a :: StacksOf(cpu.sp, a, SFLAG_SET, 0) == (stacks.0, a, Minus(stacks.2, 8))
    ensures FrameBelow(cpu.mem, cpu.addressMask, Minus(stacks.2, 8), pc, sr)
            && FormatBelow(cpu.mem, cpu.addressMask, Minus(stacks.2, 8)) == 0
  {
    hide KnownCpu, Modes, TraceAndMask, IsLevel, Plus, Minus, Bus, FrameAt, Read16, Top4, Sr, Ccr, StacksOf;
    ghost var master := cpu.dar[15];
    MinusOfPlus(master, stacks.2, 8);
    SupervisorModes();
    cpu.SetModes(SFLAG_SET, 0);
    SupervisorView(cpu.sp, cpu.dar[15], 0);
  }

  /** Adding the throwaway frame to a normal one. */
  method PushThrowaway(cpu: Cpu, pc: bv32, sr: bv32, vector: bv32, ghost stacks: (bv32, bv32, bv32),
                       ghost dar: seq<bv32>)
    requires cpu.Valid() && vector <= 255 && |dar| == 16 && Low16(ForceS(sr)) == ForceS(sr)
    requires cpu.m == MFLAG_SET && Entered(cpu, stacks, dar, MFLAG_SET, pc, sr, 8, 0) && cpu.cpuType != CPU_TYPE_000
    modifies cpu`dar, cpu`sp, cpu`s, cpu`m, cpu`mem
    ensures cpu.Valid()
    ensures FramesApart(cpu.addressMask, Minus(stacks.1, 8), Minus(stacks.2, 8)) ==>
              EnteredTwice(cpu, stacks, dar, pc, sr)
    ensures WordOnTop(cpu) == FormatWord(1, vector)
  {
    hide KnownCpu, Modes, TraceAndMask, IsLevel, Plus, Minus, Bus, FrameAt, Read16, Top4, Low16, Sr, Ccr, StacksOf,
         LongFrame, FrameBytes, AddressMask, ApartFrom, ForceS, FormatWord, WordOnTop, Entered, FramesApart;
    ToInterruptStack(cpu, pc, sr, stacks, dar);
    ghost var m0 := cpu.mem;
    StackFrame0001(cpu, pc, ForceS(sr), vector);
    ghost var i, master := cpu.dar[15], Minus(stacks.2, 8);
    MinusOfPlus(i, stacks.1, 8);
    if FramesApart(cpu.addressMask, i, master) {
      MasterFrameKept(m0, cpu.addressMask, i, master, pc, ForceS(sr), 0x1000 | (vector << 2), pc, sr);
    }
  }

  lemma MasterFrameKept(m: Memory, mask: bv32, a: bv32, b: bv32, pc: bv32, sr: bv32, format: bv32, pc': bv32, sr': bv32)
    requires FramesApart(mask, a, b) && FrameBelow(m, mask, b, pc', sr')
    ensures var m' := LongFrame(m, Bus(mask, a), Bus(mask, Plus(a, 2)), Bus(mask, Plus(a, 6)), pc, sr, format);
            FrameBelow(m', mask, b, pc', sr') && FormatBelow(m', mask, b) == FormatBelow(m, mask, b)
  {
    hide Bus, Plus, Read16, Read32, LongFrame, Top4, ApartFrom;
    FrameKept(m, Bus(mask, a), Bus(mask, Plus(a, 2)), Bus(mask, Plus(a, 6)),
              Bus(mask, b), Bus(mask, Plus(b, 2)), Bus(mask, Plus(b, 6)), pc, sr, format);
  }

  /** The outcome of an interrupt taken at `pc` with status register `sr` and M as `m`. */
  ghost predicate Interrupted(cpu: Cpu, stacks: (bv32, bv32, bv32), dar: seq<bv32>, m: bv32, pc: bv32, sr: bv32,
                              level: bv32)
    requires |cpu.dar| == 16 && |cpu.sp| == 7 && |dar| == 16
    reads cpu`sp, cpu`dar, cpu`s, cpu`m, cpu`t1, cpu`t0, cpu`mem, cpu`intMask
  {
    && cpu.intMask == LevelBits(level)
    && if m == 0 || !IsEc020Plus(cpu.cpuType) then
         Entered(cpu, stacks, dar, m, pc, sr, FrameBytes(cpu.cpuType), 0)
       else
         FramesApart(cpu.addressMask, Minus(stacks.1, 8), Minus(stacks.2, 8)) ==> EnteredTwice(cpu, stacks, dar, pc, sr)
  }

  /** Where the vector points, or the uninitialized interrupt vector does when that is zero. */
  function InterruptEntry(mem: Memory, mask: bv32, vbr: bv32, vector: bv32): bv32 {
    if VectorIn(mem, mask, vbr, vector) == 0 then VectorIn(mem, mask, vbr, 15) else VectorIn(mem, mask, vbr, vector)
  }

  function InterruptTarget(cpu: Cpu, vector: bv32): bv32
    reads cpu`mem, cpu`vbr
  {
    InterruptEntry(cpu.mem, cpu.addressMask, cpu.vbr, vector)
  }

  /** The mask is the level of the interrupt, and the frame on top names its format and the vector. */
  ghost predicate Marked(cpu: Cpu, m: bv32, level: bv32, vector: bv32)
    requires |cpu.dar| == 16
    reads cpu`dar, cpu`mem, cpu`intMask
  {
    && Nat(cpu.intMask) == 256 * Nat(level)
    && (cpu.cpuType != CPU_TYPE_000 ==>
         WordOnTop(cpu) == FormatWord(if m != 0 && IsEc020Plus(cpu.cpuType) then 1 else 0, vector))
  }

  /** m68ki_exception_interrupt up to its first stack frame */
  method EnterInterrupt(cpu: Cpu, level: bv32, vector: bv32) returns (sr: bv32, target: bv32)
    requires cpu.Valid() && level <= 7 && vector <= 255
    modifies cpu`t1, cpu`t0, cpu`sp, cpu`s, cpu`m, cpu`dar, cpu`mem, cpu`intMask
    ensures cpu.Valid() && cpu.intMask == LevelBits(level) && sr == old(cpu.GetSr())
            && target == old(InterruptTarget(cpu, vector))
    ensures cpu.m == old(cpu.m) && Low16(ForceS(sr)) == ForceS(sr)
    ensures Entered(cpu, old(cpu.Stacks()), old(cpu.dar), old(cpu.m), cpu.pc, sr, FrameBytes(cpu.cpuType), 0)
    ensures cpu.cpuType != CPU_TYPE_000 ==> WordOnTop(cpu) == FormatWord(0, vector)
    ensures Nat(cpu.intMask) == 256 * Nat(level)
  {
    hide KnownCpu, Modes, TraceAndMask, IsLevel, Plus, Bus, FrameAt, Read16, Top4, Low16, Sr, Ccr, StacksOf,
         SupervisorStack, WithSupervisorStack, ShortFrame, LongFrame, FrameBytes, LevelBits, VectorIn, FormatWord,
         Nat;
    LevelNumber(level);
    SrIsWord(cpu);
    sr := InitException(cpu);
    SupervisorView(cpu.sp, cpu.dar[15], cpu.m);
    LevelMask(level);
    cpu.intMask := LevelBits(level);
    target := VectorTarget(cpu, vector);
    if target == 0 {
      target := VectorTarget(cpu, 15);
    }
    StackFrame0000(cpu, cpu.pc, sr, vector);
  }

  lemma Ec020Facts(cpuType: bv32)
    requires IsEc020Plus(cpuType)
    ensures cpuType != CPU_TYPE_000 && FrameBytes(cpuType) == 8
  {
  }

  /** m68ki_exception_interrupt from the point where the interrupt is taken */
  method ServiceInterrupt(cpu: Cpu, level: bv32, vector: bv32)
    requires cpu.Valid() && level <= 7 && vector <= 255
    modifies cpu`t1, cpu`t0, cpu`sp, cpu`s, cpu`m, cpu`dar, cpu`mem, cpu`intMask, cpu`pc
    ensures cpu.Valid() && cpu.pc == old(InterruptTarget(cpu, vector))
    ensures Interrupted(cpu, old(cpu.Stacks()), old(cpu.dar), old(cpu.m), old(cpu.pc), old(cpu.GetSr()), level)
    ensures Marked(cpu, old(cpu.m), level, vector)
  {
    hide KnownCpu, Modes, TraceAndMask, IsLevel, Sr, Ccr, StacksOf, Entered, EnteredTwice, FramesApart,
         InterruptTarget, Minus, LevelBits, Low16, ForceS, WordOnTop, FormatWord, Nat, IsEc020Plus, FrameBytes;
    if IsEc020Plus(cpu.cpuType) { Ec020Facts(cpu.cpuType); }
    var sr, target := EnterInterrupt(cpu, level, vector);
    if cpu.m != 0 && IsEc020Plus(cpu.cpuType) {
      MasterMode(cpu.s, cpu.m);
      PushThrowaway(cpu, cpu.pc, sr, vector, old(cpu.Stacks()), old(cpu.dar));
    }
    cpu.pc := target;
  }

  /** The choice of a vector by the answer to the acknowledge */
  method Acknowledge(level: bv32, ack: bv32) returns (vector: bv32)
    requires level <= 7
    ensures vector == InterruptVector(level, ack)
  {
    vector := ack;
    if vector == INT_ACK_AUTOVECTOR {
      vector := 24 + level;
    } else if vector == INT_ACK_SPURIOUS {
      vector := 24;
    }
  }

  /** m68ki_exception_interrupt */
  method ExceptionInterrupt(cpu: Cpu, level: bv32, ack: bv32)
    requires cpu.Valid() && level <= 7
    modifies cpu`t1, cpu`t0, cpu`sp, cpu`s, cpu`m, cpu`dar, cpu`mem, cpu`intMask, cpu`pc, cpu`stopped
    ensures cpu.Valid() && !cpu.stopped
    ensures Taken(cpu.halted, level, ack) ==>
              && cpu.pc == old(InterruptTarget(cpu, InterruptVector(level, ack)))
              && Interrupted(cpu, old(cpu.Stacks()), old(cpu.dar), old(cpu.m), old(cpu.pc), old(cpu.GetSr()), level)
              && Marked(cpu, old(cpu.m), level, InterruptVector(level, ack))
    ensures !Taken(cpu.halted, level, ack) ==>
              && cpu.pc == old(cpu.pc) && cpu.GetSr() == old(cpu.GetSr()) && cpu.Stacks() == old(cpu.Stacks())
              && cpu.dar == old(cpu.dar) && cpu.mem == old(cpu.mem)
  {
    hide KnownCpu, Modes, TraceAndMask, IsLevel, Sr, Ccr, StacksOf, Interrupted, InterruptVector, InterruptTarget,
         Marked;
    cpu.stopped := false;
    if cpu.halted { return; }
    var vector := Acknowledge(level, ack);
    if vector > 255 { return; }
    ServiceInterrupt(cpu, level, vector);
  }

  /** The interrupt that m68ki_check_interrupts would service with status register `sr`. */
  function PendingLevel(nmi: bool, intLevel: bv32): bv32 { if nmi then 7 else intLevel >> 8 }

  predicate Above(intLevel: bv32, intMask: bv32) { intLevel > intMask }

  predicate Pending(nmi: bool, intLevel: bv32, sr: bv32) { nmi || Above(intLevel, MaskOf(sr)) }

  lemma PendingLevelFits(nmi: bool, intLevel: bv32)
    requires IsLevel(intLevel)
    ensures PendingLevel(nmi, intLevel) <= 7
  {
  }

  /**
   The processor goes on at `pc` with status register `sr`, the stacks and registers
   given (A7 follows from the stacks) and the memory given, unless an interrupt is
   waiting and is taken: then it goes on in that handler, set to return there.
   */
  ghost predicate Resumed(cpu: Cpu, stacks: (bv32, bv32, bv32), dar: seq<bv32>, mem: Memory, pc: bv32, sr: bv32,
                          nmi: bool, ack: bv32)
    requires |cpu.dar| == 16 && |cpu.sp| == 7 && |dar| == 16
    reads cpu`sp, cpu`dar, cpu`s, cpu`m, cpu`t1, cpu`t0, cpu`x, cpu`n, cpu`notZ, cpu`v, cpu`c, cpu`mem, cpu`intMask,
          cpu`pc, cpu`vbr, cpu`intLevel, cpu`halted
  {
    var level := PendingLevel(nmi, cpu.intLevel);
    if Pending(nmi, cpu.intLevel, sr) && Taken(cpu.halted, level, ack) then
      && Interrupted(cpu, stacks, dar, MOf(sr), pc, sr, level)
      && cpu.pc == InterruptEntry(mem, cpu.addressMask, cpu.vbr, InterruptVector(level, ack))
    else
      && cpu.pc == pc && cpu.GetSr() == sr && cpu.Stacks() == stacks
      && cpu.dar == dar[15 := cpu.dar[15]] && cpu.mem == mem
  }

  lemma SrHolds(cpu: Cpu)
    requires cpu.Valid()
    ensures MaskOf(cpu.GetSr()) == cpu.intMask && MOf(cpu.GetSr()) == cpu.m
  {
    hide KnownCpu, Modes, TraceAndMask, IsLevel, Sr, Ccr, MaskOf, MOf, SOf, T1Of, T0Of;
    SrFields(cpu.t1, cpu.t0, cpu.s, cpu.m, cpu.intMask, cpu.x, cpu.n, cpu.notZ, cpu.v, cpu.c);
  }

  /** m68ki_check_interrupts */
  method CheckInterrupts(cpu: Cpu, ack: bv32)
    requires cpu.Valid()
    modifies cpu`t1, cpu`t0, cpu`sp, cpu`s, cpu`m, cpu`dar, cpu`mem, cpu`intMask, cpu`pc, cpu`stopped, cpu`nmiPending
    ensures cpu.Valid() && !cpu.nmiPending
    ensures Resumed(cpu, old(cpu.Stacks()), old(cpu.dar), old(cpu.mem), old(cpu.pc), old(cpu.GetSr()),
                    old(cpu.nmiPending), ack)
    ensures !Pending(old(cpu.nmiPending), cpu.intLevel, old(cpu.GetSr())) ==>
              unchanged(cpu`t1, cpu`t0, cpu`s, cpu`m, cpu`sp, cpu`dar, cpu`mem, cpu`intMask, cpu`pc, cpu`stopped)
  {
    hide KnownCpu, Modes, TraceAndMask, IsLevel, Sr, Ccr, StacksOf, Interrupted, InterruptVector, InterruptEntry,
         PendingLevel, MaskOf, MOf, Above, Taken, Marked;
    SrHolds(cpu);
    PendingLevelFits(cpu.nmiPending, cpu.intLevel);
    var level := PendingLevel(cpu.nmiPending, cpu.intLevel);
    if cpu.nmiPending {
      cpu.nmiPending := false;
      ExceptionInterrupt(cpu, level, ack);
    } else if Above(cpu.intLevel, cpu.intMask) {
      ExceptionInterrupt(cpu, level, ack);
    }
  }

  /** A line asserted at `level` is serviced as `level` exactly when the mask holds a lower one, and an NMI as 7. */
  lemma LinesAndMasks(level: bv32, masked: bv32)
    requires level <= 7 && masked <= 7
    ensures Pending(false, LevelBits(level), 0x2000 | LevelBits(masked)) <==> Nat(level) > Nat(masked)
    ensures PendingLevel(false, LevelBits(level)) == level && PendingLevel(true, LevelBits(level)) == 7
  {
    assert level == 0 || level == 1 || level == 2 || level == 3 || level == 4 || level == 5 || level == 6 || level == 7;
    assert masked == 0 || masked == 1 || masked == 2 || masked == 3 || masked == 4 || masked == 5 || masked == 6
           || masked == 7;
  }

  lemma ServedIsNotAbove(nmi: bool, intLevel: bv32)
    requires IsLevel(intLevel)
    ensures !Above(intLevel, LevelBits(PendingLevel(nmi, intLevel)))
  {
  }

  /**
   An interrupt that is taken is not taken a second time while its handler runs with the
   mask as it is, although the line is still asserted.
   */
  method CheckTwice(cpu: Cpu, ack: bv32, ack': bv32)
    requires cpu.Valid() && Pending(cpu.nmiPending, cpu.intLevel, cpu.GetSr())
    requires Taken(cpu.halted, PendingLevel(cpu.nmiPending, cpu.intLevel), ack)
    modifies cpu`t1, cpu`t0, cpu`sp, cpu`s, cpu`m, cpu`dar, cpu`mem, cpu`intMask, cpu`pc, cpu`stopped, cpu`nmiPending
    ensures cpu.Valid() && !cpu.nmiPending
    ensures var level := PendingLevel(old(cpu.nmiPending), cpu.intLevel);
            && Interrupted(cpu, old(cpu.Stacks()), old(cpu.dar), old(cpu.m), old(cpu.pc), old(cpu.GetSr()), level)
            && !Pending(false, cpu.intLevel, cpu.GetSr())
  {
    hide KnownCpu, Modes, TraceAndMask, Sr, Ccr, StacksOf, Entered, EnteredTwice, FramesApart, Minus, FrameBytes,
         InterruptVector, InterruptEntry, PendingLevel, MaskOf, MOf, Above, Taken, LevelBits, IsLevel;
    SrHolds(cpu);
    ServedIsNotAbove(cpu.nmiPending, cpu.intLevel);
    CheckInterrupts(cpu, ack);
    SrHolds(cpu);
    CheckInterrupts(cpu, ack');
    SrHolds(cpu);
  }

  /** A7 of the register file given plays no part: it follows from the stacks. */
  lemma SameButA7(cpu: Cpu, stacks: (bv32, bv32, bv32), d: seq<bv32>, d': seq<bv32>, mem: Memory, pc: bv32, sr: bv32,
                  nmi: bool, ack: bv32)
    requires |cpu.dar| == 16 && |cpu.sp| == 7 && |d| == |d'| == 16 && d == d'[15 := d[15]]
    requires Resumed(cpu, stacks, d, mem, pc, sr, nmi, ack)
    ensures Resumed(cpu, stacks, d', mem, pc, sr, nmi, ack)
  {
    hide Sr, Ccr, StacksOf, InterruptVector, PendingLevel, MaskOf, MOf, FramesApart, FrameBelow, FormatBelow,
         FrameOnTop,
         FormatOnTop, SupervisorStack, WithSupervisorStack, ForceS, Minus, Plus, LevelBits, FrameBytes, KnownCpu;
    assert d[15 := cpu.dar[15]] == d'[15 := cpu.dar[15]];
    assert d[15 := Minus(stacks.1, 8)] == d'[15 := Minus(stacks.1, 8)];
  }

  /** m68ki_set_sr */
  method SetSr(cpu: Cpu, value: bv32, ack: bv32)
    requires cpu.Valid()
    modifies cpu`t1, cpu`t0, cpu`sp, cpu`s, cpu`m, cpu`dar, cpu`mem, cpu`intMask, cpu`pc, cpu`stopped, cpu`nmiPending,
             cpu`x, cpu`n, cpu`notZ, cpu`v, cpu`c
    ensures cpu.Valid() && !cpu.nmiPending
    ensures Resumed(cpu, old(cpu.Stacks()), old(cpu.dar), old(cpu.mem), old(cpu.pc), MaskSr(value, cpu.srMask),
                    old(cpu.nmiPending), ack)
  {
    hide KnownCpu, Modes, TraceAndMask, IsLevel, Sr, Ccr, StacksOf, Resumed, MaskSr, SOf, MOf, MaskOf;
    cpu.SetSrNoInt(value);
    ghost var d1 := cpu.dar;
    CheckInterrupts(cpu, ack);
    SameButA7(cpu, old(cpu.Stacks()), d1, old(cpu.dar), old(cpu.mem), old(cpu.pc), MaskSr(value, cpu.srMask),
        old(cpu.nmiPending), ack);
  }

  // ---------------------------------------------------------------------------
  // RTE
  // ---------------------------------------------------------------------------

  /** The stack A7 stands for. */
  function ActiveStack(stacks: (bv32, bv32, bv32), s: bv32, m: bv32): bv32 {
    if s == 0 then stacks.0 else SupervisorStack(stacks, m)
  }

  function WithActiveStack(stacks: (bv32, bv32, bv32), s: bv32, m: bv32, a: bv32): (bv32, bv32, bv32) {
    if s == 0 then (a, stacks.1, stacks.2) else WithSupervisorStack(stacks, m, a)
  }

  lemma ActiveView(sp: seq<bv32>, a7: bv32, s: bv32, m: bv32)
    requires |sp| == 7
    ensures a7 == ActiveStack(StacksOf(sp, a7, s, m), s, m)
    ensures forall a :: StacksOf(sp, a, s, m) == WithActiveStack(StacksOf(sp, a7, s, m), s, m, a)
  {
  }

  function SrBelow(m: Memory, mask: bv32, a: bv32): bv32 { Read16(m, Bus(mask, a)) }

  function PcBelow(m: Memory, mask: bv32, a: bv32): bv32 { Read32(m, Bus(mask, Plus(a, 2))) }

  /** The bytes RTE pops for a frame of this format; zero for the formats it does not return from. */
  function PoppedBytes(cpuType: bv32, format: bv32): bv32 {
    if cpuType == CPU_TYPE_000 then 6
    else if format == 0 then 8
    else if cpuType == CPU_TYPE_010 then (if format == 8 then 58 else 0)
    else if format == 2 then 12
    else 0
  }

  /** RTE popped the frame on the stack that was active, and the processor goes on from it. */
  ghost predicate ReturnedFrom(cpu: Cpu, stacks: (bv32, bv32, bv32), s: bv32, m: bv32, dar: seq<bv32>, mem: Memory,
                               bytes: bv32, nmi: bool, ack: bv32)
    requires |cpu.dar| == 16 && |cpu.sp| == 7 && |dar| == 16
    reads cpu`sp, cpu`dar, cpu`s, cpu`m, cpu`t1, cpu`t0, cpu`x, cpu`n, cpu`notZ, cpu`v, cpu`c, cpu`mem, cpu`intMask,
          cpu`pc, cpu`vbr, cpu`intLevel, cpu`halted
  {
    var a := ActiveStack(stacks, s, m);
    Resumed(cpu, WithActiveStack(stacks, s, m, Plus(a, bytes)), dar, mem, PcBelow(mem, cpu.addressMask, a),
            MaskSr(SrBelow(mem, cpu.addressMask, a), cpu.srMask), nmi, ack)
  }

  method PullWords(cpu: Cpu, skip: bv32, ghost bytes: bv32) returns (newSr: bv32, newPc: bv32)
    requires cpu.Valid() && bytes == 6 + skip
    modifies cpu`dar
    ensures cpu.Valid() && cpu.dar == old(cpu.dar)[15 := cpu.dar[15]]
    ensures var a := ActiveStack(old(cpu.Stacks()), cpu.s, cpu.m);
            && cpu.Stacks() == WithActiveStack(old(cpu.Stacks()), cpu.s, cpu.m, Plus(a, bytes))
            && newSr == SrBelow(cpu.mem, cpu.addressMask, a) && newPc == PcBelow(cpu.mem, cpu.addressMask, a)
  {
    hide KnownCpu, Modes, TraceAndMask, IsLevel, StacksOf, ActiveStack, WithActiveStack, Plus, Bus, Read16, Read32;
    ghost var a := cpu.dar[15];
    ActiveView(cpu.sp, a, cpu.s, cpu.m);
    PlusPlus(a, 2, 4);
    PlusPlus(a, 6, skip);
    newSr := cpu.Pull16();
    newPc := cpu.Pull32();
    cpu.MoveStack(skip);
  }

  /** Status register, program counter and `skip` further bytes: one return. */
  method PullFrame(cpu: Cpu, skip: bv32, ghost bytes: bv32, ack: bv32)
    requires cpu.Valid() && bytes == 6 + skip
    modifies cpu`t1, cpu`t0, cpu`sp, cpu`s, cpu`m, cpu`dar, cpu`mem, cpu`intMask, cpu`pc, cpu`stopped, cpu`nmiPending,
             cpu`x, cpu`n, cpu`notZ, cpu`v, cpu`c, cpu`runMode
    ensures cpu.Valid() && cpu.runMode.Normal?
    ensures ReturnedFrom(cpu, old(cpu.Stacks()), old(cpu.s), old(cpu.m), old(cpu.dar), old(cpu.mem), bytes,
                         old(cpu.nmiPending), ack)
  {
    hide KnownCpu, Modes, TraceAndMask, IsLevel, Sr, Ccr, StacksOf, ActiveStack, WithActiveStack, Resumed, Plus, MaskSr,
         SrBelow, PcBelow;
    var newSr, newPc := PullWords(cpu, skip, bytes);
    cpu.pc := newPc;
    ghost var d1, st := cpu.dar, cpu.Stacks();
    SetSr(cpu, newSr, ack);
    SameButA7(cpu, st, d1, old(cpu.dar), old(cpu.mem), newPc, MaskSr(newSr, cpu.srMask), old(cpu.nmiPending), ack);
    cpu.runMode := Normal;
  }

  /** A throwaway frame: its status register selects the stack that holds the next frame. */
  method PullThrowaway(cpu: Cpu)
    requires cpu.Valid()
    modifies cpu`t1, cpu`t0, cpu`sp, cpu`s, cpu`m, cpu`dar, cpu`intMask, cpu`x, cpu`n, cpu`notZ, cpu`v, cpu`c
    ensures cpu.Valid() && cpu.dar == old(cpu.dar)[15 := cpu.dar[15]]
    ensures cpu.Stacks() == WithActiveStack(old(cpu.Stacks()), old(cpu.s), old(cpu.m), Plus(old(cpu.dar)[15], 8))
    ensures var sr := MaskSr(SrBelow(cpu.mem, cpu.addressMask, old(cpu.dar)[15]), cpu.srMask);
            cpu.GetSr() == sr && cpu.s == SOf(sr) && cpu.m == MOf(sr)
  {
    hide KnownCpu, Modes, TraceAndMask, IsLevel, Sr, Ccr, StacksOf, WithActiveStack, Plus, Bus, MaskSr, Read16, MaskOf,
         SOf, MOf;
    ghost var a := cpu.dar[15];
    ActiveView(cpu.sp, a, cpu.s, cpu.m);
    PlusPlus(a, 2, 4);
    PlusPlus(a, 6, 2);
    var newSr := cpu.Pull16();
    cpu.MoveStack(4);
    cpu.MoveStack(2);
    cpu.SetSrNoInt(newSr);
  }

  /** RTE on a 68020 or later follows throwaway frames from stack to stack. */
  predicate IsThrowaway(cpuType: bv32, format: bv32) { !Is010Less(cpuType) && format == 1 }

  lemma TopOfStack(cpu: Cpu)
    requires cpu.Valid()
    ensures cpu.dar[15] == ActiveStack(cpu.Stacks(), cpu.s, cpu.m)
  {
    hide KnownCpu, Modes, TraceAndMask, IsLevel, StacksOf, ActiveStack;
    ActiveView(cpu.sp, cpu.dar[15], cpu.s, cpu.m);
  }

  /** The end of every return that is not from a throwaway frame: the frame is popped or a format error is raised. */
  method ReturnOrFormatError(cpu: Cpu, format: bv32, ack: bv32)
    requires cpu.Valid() && !IsThrowaway(cpu.cpuType, format)
    modifies cpu`t1, cpu`t0, cpu`sp, cpu`s, cpu`m, cpu`dar, cpu`mem, cpu`intMask, cpu`pc, cpu`stopped, cpu`nmiPending,
             cpu`x, cpu`n, cpu`notZ, cpu`v, cpu`c, cpu`runMode
    ensures cpu.Valid() && cpu.runMode.Normal?
    ensures PoppedBytes(cpu.cpuType, format) != 0 ==>
              ReturnedFrom(cpu, old(cpu.Stacks()), old(cpu.s), old(cpu.m), old(cpu.dar), old(cpu.mem),
                           PoppedBytes(cpu.cpuType, format), old(cpu.nmiPending), ack)
    ensures PoppedBytes(cpu.cpuType, format) == 0 ==>
              && cpu.pc == VectorTarget(cpu, 14)
              && Entered(cpu, old(cpu.Stacks()), old(cpu.dar), old(cpu.m), old(cpu.pc), old(cpu.GetSr()),
                  FrameBytes(cpu.cpuType), 0)
  {
    hide KnownCpu, Modes, TraceAndMask, IsLevel, Sr, Ccr, StacksOf, Entered, ReturnedFrom, VectorTarget, FormatOnTop,
         FrameBytes;
    if cpu.cpuType == CPU_TYPE_000 {
      PullFrame(cpu, 0, 6, ack);
    } else if format == 0 {
      PullFrame(cpu, 2, 8, ack);
    } else if cpu.cpuType == CPU_TYPE_010 && format == 8 {
      PullFrame(cpu, 52, 58, ack);
    } else if cpu.cpuType != CPU_TYPE_010 && format == 2 {
      PullFrame(cpu, 6, 12, ack);
    } else {
      cpu.runMode := Normal;
      EnterNormal(cpu, cpu.pc, 14);
    }
  }

  /**
   The RTE instruction. Nothing in the code stops it from following throwaway frames for
   ever; `limit` is how many are followed here, and `Ends` says when that is enough.
   */
  method ReturnFromException(cpu: Cpu, limit: nat, ack: bv32) returns (finished: bool)
    requires cpu.Valid()
    modifies cpu`t1, cpu`t0, cpu`sp, cpu`s, cpu`m, cpu`dar, cpu`mem, cpu`intMask, cpu`pc, cpu`stopped, cpu`nmiPending,
             cpu`x, cpu`n, cpu`notZ, cpu`v, cpu`c, cpu`runMode
    ensures cpu.Valid()
    ensures old(cpu.s) == 0 ==>
              && finished && cpu.pc == VectorTarget(cpu, 8)
              && Entered(cpu, old(cpu.Stacks()), old(cpu.dar), old(cpu.m), cpu.ppc, old(cpu.GetSr()),
                  FrameBytes(cpu.cpuType), 0)
    ensures old(cpu.s) != 0 ==>
              FrameFollowed(cpu, finished, limit, old(cpu.Stacks()), old(cpu.s), old(cpu.m), old(cpu.dar), old(cpu.mem),
                            old(cpu.pc), old(cpu.GetSr()), old(cpu.nmiPending), ack)
    ensures finished <==> old(cpu.s) == 0 || Ends(cpu, limit, old(cpu.Stacks()), old(cpu.s), old(cpu.m), old(cpu.mem))
  {
    hide KnownCpu, Modes, TraceAndMask, IsLevel, Sr, Ccr, StacksOf, Entered, FrameFollowed, FrameBytes, VectorTarget,
         Ends;
    if cpu.s != 0 {
      finished := FollowFrames(cpu, limit, ack);
      FinishedExactlyWhen(cpu, finished, limit, old(cpu.Stacks()), old(cpu.s), old(cpu.m), old(cpu.dar), old(cpu.mem),
                          old(cpu.pc), old(cpu.GetSr()), old(cpu.nmiPending), ack);
    } else {
      ExceptionPrivilegeViolation(cpu);
      finished := true;
    }
  }

  /** What RTE in supervisor mode does with the frame on the active stack, and with the one behind a throwaway frame. */
  ghost predicate FrameFollowed(cpu: Cpu, finished: bool, limit: nat, stacks: (bv32, bv32, bv32), s: bv32, m: bv32,
                                dar: seq<bv32>,
                                mem: Memory, pc: bv32, sr: bv32, nmi: bool, ack: bv32)
    requires |cpu.dar| == 16 && |cpu.sp| == 7 && |dar| == 16
    reads cpu
  {
    var a := ActiveStack(stacks, s, m);
    var format := FormatBelow(mem, cpu.addressMask, a);
    if !IsThrowaway(cpu.cpuType, format) then
      && finished && cpu.runMode.Normal?
      && (if PoppedBytes(cpu.cpuType, format) != 0 then
            ReturnedFrom(cpu, stacks, s, m, dar, mem, PoppedBytes(cpu.cpuType, format), nmi, ack)
          else
            && cpu.pc == VectorTarget(cpu, 14)
            && Entered(cpu, stacks, dar, m, pc, sr, FrameBytes(cpu.cpuType), 0))
    else
      && (limit == 0 ==> !finished)
      && (limit > 0 ==>
           var stacks', sr' := WithActiveStack(stacks, s, m, Plus(a, 8)),
               MaskSr(SrBelow(mem, cpu.addressMask, a), cpu.srMask);
           FrameFollowed(cpu, finished, limit - 1, stacks', SOf(sr'), MOf(sr'), dar, mem, pc, sr', nmi, ack))
  }

  /** The loop of RTE in supervisor mode */
  method FollowFrames(cpu: Cpu, limit: nat, ack: bv32) returns (finished: bool)
    requires cpu.Valid()
    modifies cpu`t1, cpu`t0, cpu`sp, cpu`s, cpu`m, cpu`dar, cpu`mem, cpu`intMask, cpu`pc, cpu`stopped, cpu`nmiPending,
             cpu`x, cpu`n, cpu`notZ, cpu`v, cpu`c, cpu`runMode
    ensures cpu.Valid()
    ensures FrameFollowed(cpu, finished, limit, old(cpu.Stacks()), old(cpu.s), old(cpu.m), old(cpu.dar), old(cpu.mem),
                          old(cpu.pc), old(cpu.GetSr()), old(cpu.nmiPending), ack)
    decreases limit
  {
    hide KnownCpu, Modes, TraceAndMask, IsLevel, Sr, Ccr, StacksOf, Entered, ReturnedFrom, FrameBytes, VectorTarget,
         ActiveStack, WithActiveStack, MaskSr, SOf, MOf, SrBelow, FormatBelow, Plus, PoppedBytes, IsThrowaway,
             FrameFollowed;
    TopOfStack(cpu);
    var format := FormatBelow(cpu.mem, cpu.addressMask, cpu.dar[15]);
    if !IsThrowaway(cpu.cpuType, format) {
      ReturnOrFormatError(cpu, format, ack);
      finished := true;
      FollowedOnce(cpu, true, limit, old(cpu.Stacks()), old(cpu.s), old(cpu.m), old(cpu.dar), old(cpu.mem), old(cpu.pc),
                   old(cpu.GetSr()), old(cpu.nmiPending), ack, format);
    } else if limit == 0 {
      finished := false;
      FollowedOnce(cpu, false, limit, cpu.Stacks(), cpu.s, cpu.m, cpu.dar, cpu.mem, cpu.pc, cpu.GetSr(), cpu.nmiPending,
                   ack, format);
    } else {
      PullThrowaway(cpu);
      ghost var d1, st, s1, m1, sr1 := cpu.dar, cpu.Stacks(), cpu.s, cpu.m, cpu.GetSr();
      finished := FollowFrames(cpu, limit - 1, ack);
      FollowedButA7(cpu, finished, limit - 1, st, s1, m1, d1, old(cpu.dar), old(cpu.mem), old(cpu.pc), sr1,
                    old(cpu.nmiPending), ack);
      FollowedFurther(cpu, finished, limit, old(cpu.Stacks()), old(cpu.s), old(cpu.m), old(cpu.dar), old(cpu.mem),
                      old(cpu.pc), old(cpu.GetSr()), old(cpu.nmiPending), ack);
    }
  }

  lemma FollowedOnce(cpu: Cpu, finished: bool, limit: nat, stacks: (bv32, bv32, bv32), s: bv32, m: bv32, dar: seq<bv32>,
                     mem: Memory, pc: bv32, sr: bv32, nmi: bool, ack: bv32, format: bv32)
    requires |cpu.dar| == 16 && |cpu.sp| == 7 && |dar| == 16
    requires format == FormatBelow(mem, cpu.addressMask, ActiveStack(stacks, s, m))
    requires IsThrowaway(cpu.cpuType, format) ==> limit == 0 && !finished
    requires !IsThrowaway(cpu.cpuType, format) ==> finished && cpu.runMode.Normal?
    requires !IsThrowaway(cpu.cpuType, format) && PoppedBytes(cpu.cpuType, format) != 0 ==>
               ReturnedFrom(cpu, stacks, s, m, dar, mem, PoppedBytes(cpu.cpuType, format), nmi, ack)
    requires !IsThrowaway(cpu.cpuType, format) && PoppedBytes(cpu.cpuType, format) == 0 ==>
               cpu.pc == VectorTarget(cpu, 14) && Entered(cpu, stacks, dar, m, pc, sr, FrameBytes(cpu.cpuType), 0)
    ensures FrameFollowed(cpu, finished, limit, stacks, s, m, dar, mem, pc, sr, nmi, ack)
  {
    hide ActiveStack, WithActiveStack, FormatBelow, Plus, MaskSr, SrBelow, SOf, MOf, VectorTarget, FrameBytes, Entered,
         ReturnedFrom, PoppedBytes, IsThrowaway;
  }

  lemma FollowedFurther(cpu: Cpu, finished: bool, limit: nat, stacks: (bv32, bv32, bv32), s: bv32, m: bv32,
                        dar: seq<bv32>,
                        mem: Memory, pc: bv32, sr: bv32, nmi: bool, ack: bv32)
    requires |cpu.dar| == 16 && |cpu.sp| == 7 && |dar| == 16 && limit > 0
    requires IsThrowaway(cpu.cpuType, FormatBelow(mem, cpu.addressMask, ActiveStack(stacks, s, m)))
    requires var a := ActiveStack(stacks, s, m);
             var sr' := MaskSr(SrBelow(mem, cpu.addressMask, a), cpu.srMask);
             FrameFollowed(cpu, finished, limit - 1, WithActiveStack(stacks, s, m, Plus(a, 8)), SOf(sr'), MOf(sr'), dar,
                 mem, pc, sr', nmi, ack)
    ensures FrameFollowed(cpu, finished, limit, stacks, s, m, dar, mem, pc, sr, nmi, ack)
  {
    hide ActiveStack, WithActiveStack, FormatBelow, Plus, MaskSr, SrBelow, SOf, MOf, VectorTarget, FrameBytes, Entered,
         ReturnedFrom, PoppedBytes, IsThrowaway;
  }

  lemma EnteredButA7(cpu: Cpu, stacks: (bv32, bv32, bv32), d: seq<bv32>, d': seq<bv32>, m: bv32, pc: bv32, sr: bv32,
                     bytes: bv32)
    requires |cpu.dar| == 16 && |cpu.sp| == 7 && |d| == |d'| == 16 && d == d'[15 := d[15]]
    requires Entered(cpu, stacks, d, m, pc, sr, bytes, 0)
    ensures Entered(cpu, stacks, d', m, pc, sr, bytes, 0)
  {
    hide Plus, SupervisorStack, WithSupervisorStack, StacksOf, FrameOnTop, FormatOnTop;
    assert d[15 := cpu.dar[15]] == d'[15 := cpu.dar[15]];
  }

  lemma ReturnedButA7(cpu: Cpu, stacks: (bv32, bv32, bv32), s: bv32, m: bv32, d: seq<bv32>, d': seq<bv32>, mem: Memory,
                      bytes: bv32, nmi: bool, ack: bv32)
    requires |cpu.dar| == 16 && |cpu.sp| == 7 && |d| == |d'| == 16 && d == d'[15 := d[15]]
    requires ReturnedFrom(cpu, stacks, s, m, d, mem, bytes, nmi, ack)
    ensures ReturnedFrom(cpu, stacks, s, m, d', mem, bytes, nmi, ack)
  {
    hide ActiveStack, WithActiveStack, Plus, MaskSr, SrBelow, PcBelow, Resumed;
    var a := ActiveStack(stacks, s, m);
    SameButA7(cpu, WithActiveStack(stacks, s, m, Plus(a, bytes)), d, d', mem, PcBelow(mem, cpu.addressMask, a),
              MaskSr(SrBelow(mem, cpu.addressMask, a), cpu.srMask), nmi, ack);
  }

  lemma FollowedButA7(cpu: Cpu, finished: bool, limit: nat, stacks: (bv32, bv32, bv32), s: bv32, m: bv32, d: seq<bv32>,
                      d': seq<bv32>,
                      mem: Memory, pc: bv32, sr: bv32, nmi: bool, ack: bv32)
    requires |cpu.dar| == 16 && |cpu.sp| == 7 && |d| == |d'| == 16 && d == d'[15 := d[15]]
    requires FrameFollowed(cpu, finished, limit, stacks, s, m, d, mem, pc, sr, nmi, ack)
    ensures FrameFollowed(cpu, finished, limit, stacks, s, m, d', mem, pc, sr, nmi, ack)
  {
    hide ActiveStack, WithActiveStack, FormatBelow, Plus, MaskSr, SrBelow, SOf, MOf, VectorTarget, FrameBytes, Entered,
         ReturnedFrom, PoppedBytes, IsThrowaway;
    var a := ActiveStack(stacks, s, m);
    var format := FormatBelow(mem, cpu.addressMask, a);
    if IsThrowaway(cpu.cpuType, format) {
      if limit > 0 {
        var stacks', sr' := WithActiveStack(stacks, s, m, Plus(a, 8)),
            MaskSr(SrBelow(mem, cpu.addressMask, a), cpu.srMask);
        FollowedButA7(cpu, finished, limit - 1, stacks', SOf(sr'), MOf(sr'), d, d', mem, pc, sr', nmi, ack);
      }
    } else if PoppedBytes(cpu.cpuType, format) != 0 {
      ReturnedButA7(cpu, stacks, s, m, d, d', mem, PoppedBytes(cpu.cpuType, format), nmi, ack);
    } else {
      EnteredButA7(cpu, stacks, d, d', m, pc, sr, FrameBytes(cpu.cpuType));
    }
  }

  // ---------------------------------------------------------------------------
  // When RTE ends
  // ---------------------------------------------------------------------------

  /**
   Following throwaway frames from the active stack, RTE meets a frame of another kind
   after at most `limit` of them.
   */
  ghost predicate Ends(cpu: Cpu, limit: nat, stacks: (bv32, bv32, bv32), s: bv32, m: bv32, mem: Memory) {
    var a := ActiveStack(stacks, s, m);
    if IsThrowaway(cpu.cpuType, FormatBelow(mem, cpu.addressMask, a)) then
      limit > 0
      && var sr' := MaskSr(SrBelow(mem, cpu.addressMask, a), cpu.srMask);
         Ends(cpu, limit - 1, WithActiveStack(stacks, s, m, Plus(a, 8)), SOf(sr'), MOf(sr'), mem)
    else true
  }

  /** RTE is done exactly when such a frame is met within the limit. */
  lemma {:induction false} FinishedExactlyWhen(cpu: Cpu, finished: bool, limit: nat, stacks: (bv32, bv32, bv32),
                                               s: bv32,
                                               m: bv32, dar: seq<bv32>, mem: Memory, pc: bv32, sr: bv32, nmi: bool,
                                               ack: bv32)
    requires |cpu.dar| == 16 && |cpu.sp| == 7 && |dar| == 16
    requires FrameFollowed(cpu, finished, limit, stacks, s, m, dar, mem, pc, sr, nmi, ack)
    ensures finished <==> Ends(cpu, limit, stacks, s, m, mem)
  {
    hide ActiveStack, WithActiveStack, FormatBelow, Plus, MaskSr, SrBelow, SOf, MOf, VectorTarget, FrameBytes, Entered,
         ReturnedFrom, PoppedBytes, IsThrowaway;
    if limit > 0 && IsThrowaway(cpu.cpuType, FormatBelow(mem, cpu.addressMask, ActiveStack(stacks, s, m))) {
      var a := ActiveStack(stacks, s, m);
      var sr' := MaskSr(SrBelow(mem, cpu.addressMask, a), cpu.srMask);
      FinishedExactlyWhen(cpu, finished, limit - 1, WithActiveStack(stacks, s, m, Plus(a, 8)), SOf(sr'), MOf(sr'), dar,
                          mem, pc, sr', nmi, ack);
    }
  }

  /**
   A limit that suffices does not matter: what RTE then does is what it does with any
   higher limit, and so without one.
   */
  lemma {:induction false} LimitDoesNotMatter(cpu: Cpu, limit: nat, limit': nat, stacks: (bv32, bv32, bv32), s: bv32,
                                              m: bv32, dar: seq<bv32>, mem: Memory, pc: bv32, sr: bv32, nmi: bool,
                                              ack: bv32)
    requires |cpu.dar| == 16 && |cpu.sp| == 7 && |dar| == 16 && limit <= limit'
    requires Ends(cpu, limit, stacks, s, m, mem)
    ensures Ends(cpu, limit', stacks, s, m, mem)
    ensures FrameFollowed(cpu, true, limit, stacks, s, m, dar, mem, pc, sr, nmi, ack) <==>
              FrameFollowed(cpu, true, limit', stacks, s, m, dar, mem, pc, sr, nmi, ack)
  {
    hide ActiveStack, WithActiveStack, FormatBelow, Plus, MaskSr, SrBelow, SOf, MOf, VectorTarget, FrameBytes, Entered,
         ReturnedFrom, PoppedBytes, IsThrowaway;
    if IsThrowaway(cpu.cpuType, FormatBelow(mem, cpu.addressMask, ActiveStack(stacks, s, m))) {
      var a := ActiveStack(stacks, s, m);
      var sr' := MaskSr(SrBelow(mem, cpu.addressMask, a), cpu.srMask);
      LimitDoesNotMatter(cpu, limit - 1, limit' - 1, WithActiveStack(stacks, s, m, Plus(a, 8)), SOf(sr'), MOf(sr'), dar,
                         mem, pc, sr', nmi, ack);
    }
  }

  lemma TopOfThrowaway()
    ensures Top4(Join16(0x10, 0x10)) == 1
  {
  }

  lemma ThrowawaysEverywhere(mem: Memory, mask: bv32, a: bv32)
    requires forall b: bv32 :: Byte(mem, b) == 0x10
    ensures FormatBelow(mem, mask, a) == 1
  {
    TopOfThrowaway();
    hide Bus, Plus, Join16, Top4, Byte;
  }

  lemma {:induction false} NeverEnds(cpu: Cpu, limit: nat, stacks: (bv32, bv32, bv32), s: bv32, m: bv32, mem: Memory)
    requires !Is010Less(cpu.cpuType) && forall b: bv32 :: Byte(mem, b) == 0x10
    ensures !Ends(cpu, limit, stacks, s, m, mem)
  {
    hide ActiveStack, WithActiveStack, FormatBelow, Plus, MaskSr, SrBelow, SOf, MOf, Byte;
    var a := ActiveStack(stacks, s, m);
    ThrowawaysEverywhere(mem, cpu.addressMask, a);
    if limit > 0 {
      var sr' := MaskSr(SrBelow(mem, cpu.addressMask, a), cpu.srMask);
      NeverEnds(cpu, limit - 1, WithActiveStack(stacks, s, m, Plus(a, 8)), SOf(sr'), MOf(sr'), mem);
    }
  }

  /** Where throwaway frames are known, RTE in a memory filled with 0x10 is not done after any number of them. */
  method CanFollowForever(cpu: Cpu, limit: nat, ack: bv32) returns (finished: bool)
    requires cpu.Valid() && !Is010Less(cpu.cpuType) && cpu.s != 0 && forall b: bv32 :: Byte(cpu.mem, b) == 0x10
    modifies cpu`t1, cpu`t0, cpu`sp, cpu`s, cpu`m, cpu`dar, cpu`mem, cpu`intMask, cpu`pc, cpu`stopped, cpu`nmiPending,
             cpu`x, cpu`n, cpu`notZ, cpu`v, cpu`c, cpu`runMode
    ensures cpu.Valid() && !finished
  {
    hide KnownCpu, Modes, TraceAndMask, IsLevel, Is010Less, Sr, Ccr, StacksOf, Entered, FrameFollowed, FrameBytes,
         VectorTarget, Ends, Byte;
    NeverEnds(cpu, limit, cpu.Stacks(), cpu.s, cpu.m, cpu.mem);
    finished := ReturnFromException(cpu, limit, ack);
  }
}
