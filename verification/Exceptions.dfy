/**
 Exception entry and the frames it stacks (tools/r68k/musashi/m68kcpu.h).
 */
module Exceptions {
  import opened Memory68k
  import opened Cpu68k

  // ---------------------------------------------------------------------------
  // Stack frames in memory
  // ---------------------------------------------------------------------------

  predicate AddressMask(mask: bv32) { mask == 0x00ffffff || mask == 0xffffffff }

  function Top4(word: bv32): bv32 { word >> 12 }

  /** Status register at `p`, program counter at `q`: the three-word frame of the 68000. */
  function ShortFrame(m: Memory, p: bv32, q: bv32, pc: bv32, sr: bv32): Memory {
    Write16(Write32(m, q, pc), p, sr)
  }

  /** The four-word frame of the later processors has a format word at `r` besides. */
  function LongFrame(m: Memory, p: bv32, q: bv32, r: bv32, pc: bv32, sr: bv32, format: bv32): Memory {
    ShortFrame(Write16(m, r, format), p, q, pc, sr)
  }

  predicate FrameAt(m: Memory, p: bv32, q: bv32, pc: bv32, sr: bv32) {
    Read16(m, p) == sr && Read32(m, q) == pc
  }

  predicate FrameApart(p: bv32, q: bv32, r: bv32) {
    WordLongApart(p, q) && WordsApart(p, r) && LongWordApart(q, r)
  }

  /** The words of a frame do not overlap, wherever the stack pointer stands. */
  lemma FrameWordsApart(mask: bv32, a: bv32)
    requires AddressMask(mask)
    ensures FrameApart(a & mask, (a + 2) & mask, (a + 6) & mask)
  {
  }

  lemma LongFrameReads(m: Memory, p: bv32, q: bv32, r: bv32, pc: bv32, sr: bv32, format: bv32)
    requires FrameApart(p, q, r)
    ensures var m' := LongFrame(m, p, q, r, pc, sr, format);
            FrameAt(m', p, q, pc, Low16(sr)) && Read16(m', r) == Low16(format)
  {
    hide Read16, Read32, Write16, Write32, WordsApart, WordLongApart, LongWordApart, Low16;
    var m1 := Write16(m, r, format);
    var m2 := Write32(m1, q, pc);
    ReadBack16(m, r, format);
    ReadBack32(m1, q, pc);
    ReadBack16(m2, p, sr);
    WordKeepsLong(m2, p, sr, q);
    WordKeepsWord(m2, p, sr, r);
    LongKeepsWord(m1, q, pc, r);
  }

  lemma ShortFrameReads(m: Memory, p: bv32, q: bv32, pc: bv32, sr: bv32)
    requires WordLongApart(p, q)
    ensures FrameAt(ShortFrame(m, p, q, pc, sr), p, q, pc, Low16(sr))
  {
    hide Read16, Read32, Write16, Write32, WordLongApart, Low16;
    var m1 := Write32(m, q, pc);
    ReadBack32(m, q, pc);
    ReadBack16(m1, p, sr);
    WordKeepsLong(m1, p, sr, q);
  }

  // ---------------------------------------------------------------------------
  // Exception entry
  // ---------------------------------------------------------------------------

  /** The stack an exception uses: the interrupt stack, or the master stack when M is set. */
  function SupervisorStack(stacks: (bv32, bv32, bv32), m: bv32): bv32 {
    if m == 0 then stacks.1 else stacks.2
  }

  function WithSupervisorStack(stacks: (bv32, bv32, bv32), m: bv32, a: bv32): (bv32, bv32, bv32) {
    if m == 0 then (stacks.0, a, stacks.2) else (stacks.0, stacks.1, a)
  }

  lemma SupervisorView(sp: seq<bv32>, a7: bv32, m: bv32)
    requires |sp| == 7
    ensures a7 == SupervisorStack(StacksOf(sp, a7, SFLAG_SET, m), m)
    ensures forall a :: StacksOf(sp, a, SFLAG_SET, m) == WithSupervisorStack(StacksOf(sp, a7, SFLAG_SET, m), m, a)
  {
  }

  /** m68ki_init_exception */
  method InitException(cpu: Cpu) returns (sr: bv32)
    requires cpu.Valid()
    modifies cpu`t1, cpu`t0, cpu`sp, cpu`s, cpu`m, cpu`dar
    ensures cpu.Valid() && sr == old(cpu.GetSr())
    ensures cpu.s == SFLAG_SET && cpu.m == old(cpu.m) && cpu.t1 == 0 && cpu.t0 == 0
    ensures cpu.Stacks() == old(cpu.Stacks())
    ensures cpu.dar == old(cpu.dar)[15 := SupervisorStack(old(cpu.Stacks()), cpu.m)]
  {
    hide KnownCpu, StacksOf, Sr, Ccr;
    sr := cpu.GetSr();
    cpu.t1, cpu.t0 := 0, 0;
    cpu.SetModes(SFLAG_SET, cpu.m);
    SupervisorView(cpu.sp, cpu.dar[15], cpu.m);
  }

  lemma PushSteps(a0: bv32)
    ensures var a := Minus(Minus(Minus(a0, 2), 4), 2);
            Plus(a, 2) == Minus(Minus(a0, 2), 4) && Plus(a, 6) == Minus(a0, 2) && Plus(a, 8) == a0
    ensures var a := Minus(Minus(a0, 4), 2); Plus(a, 2) == Minus(a0, 4) && Plus(a, 6) == a0
  {
    hide Plus, Minus;
    PlusMinus(a0, 2);
    PlusMinus(Minus(a0, 2), 4);
    PlusMinus(Minus(Minus(a0, 2), 4), 2);
    PlusMinus(a0, 4);
    PlusMinus(Minus(a0, 4), 2);
    PlusPlus(Minus(Minus(Minus(a0, 2), 4), 2), 2, 4);
    PlusPlus(Minus(Minus(Minus(a0, 2), 4), 2), 6, 2);
    PlusPlus(Minus(Minus(a0, 4), 2), 2, 4);
  }

  /** m68ki_stack_frame_0000 on a 68000: the three-word frame. */
  method PushShortFrame(cpu: Cpu, pc: bv32, sr: bv32)
    requires cpu.Valid()
    modifies cpu`dar, cpu`mem
    ensures cpu.Valid() && cpu.dar == old(cpu.dar)[15 := cpu.dar[15]] && Plus(cpu.dar[15], 6) == old(cpu.dar)[15]
    ensures cpu.mem == ShortFrame(old(cpu.mem), cpu.Address(cpu.dar[15]), cpu.Address(Plus(cpu.dar[15], 2)), pc, sr)
  {
    hide KnownCpu, Modes, TraceAndMask, IsLevel, Write16, Write32, Plus, Minus, Cpu.Address;
    PushSteps(cpu.dar[15]);
    cpu.Push32(pc);
    cpu.Push16(sr);
  }

  /** A format word, the program counter and the status register. */
  method PushLongFrame(cpu: Cpu, pc: bv32, sr: bv32, format: bv32)
    requires cpu.Valid()
    modifies cpu`dar, cpu`mem
    ensures cpu.Valid() && cpu.dar == old(cpu.dar)[15 := cpu.dar[15]] && Plus(cpu.dar[15], 8) == old(cpu.dar)[15]
    ensures cpu.mem == LongFrame(old(cpu.mem), cpu.Address(cpu.dar[15]), cpu.Address(Plus(cpu.dar[15], 2)),
                                 cpu.Address(Plus(cpu.dar[15], 6)), pc, sr, format)
  {
    hide KnownCpu, Modes, TraceAndMask, IsLevel, Write16, Write32, Plus, Minus, Cpu.Address;
    PushSteps(cpu.dar[15]);
    cpu.Push16(format);
    cpu.Push32(pc);
    cpu.Push16(sr);
  }

  /** The frame at the top of the active stack holds `pc` and `sr`. */
  predicate FrameOnTop(cpu: Cpu, pc: bv32, sr: bv32)
    requires |cpu.dar| == 16
    reads cpu`dar, cpu`mem
  {
    FrameAt(cpu.mem, cpu.Address(cpu.dar[15]), cpu.Address(Plus(cpu.dar[15], 2)), pc, sr)
  }

  /** The format nibble RTE reads. */
  function FormatOnTop(cpu: Cpu): bv32
    requires |cpu.dar| == 16
    reads cpu`dar, cpu`mem
  {
    Top4(Read16(cpu.mem, cpu.Address(Plus(cpu.dar[15], 6))))
  }

  /** The word that names the frame's format and vector */
  function WordOnTop(cpu: Cpu): bv32
    requires |cpu.dar| == 16
    reads cpu`dar, cpu`mem
  {
    Read16(cpu.mem, cpu.Address(Plus(cpu.dar[15], 6)))
  }

  /** The format in the top four bits, and the vector's offset in the vector table below */
  function FormatWord(format: bv32, vector: bv32): bv32 { 0x1000 * format + 4 * vector }

  lemma KnownMask(cpuType: bv32, addressMask: bv32, srMask: bv32)
    requires KnownCpu(cpuType, addressMask, srMask)
    ensures AddressMask(addressMask)
  {
  }

  // The same fact with the three addresses written as the core computes them, one at a time.

  lemma StackFrameApart1(mask: bv32, a: bv32)
    requires AddressMask(mask)
    ensures FrameApart(Bus(mask, a), (a + 2) & mask, (a + 6) & mask)
  {
    hide FrameApart, AddressMask, Plus, Bus;
    FrameWordsApart(mask, a);
    BusIs(mask, a);
  }

  lemma StackFrameApart2(mask: bv32, a: bv32)
    requires AddressMask(mask)
    ensures FrameApart(Bus(mask, a), Bus(mask, Plus(a, 2)), (a + 6) & mask)
  {
    hide FrameApart, AddressMask, Plus, Bus;
    StackFrameApart1(mask, a);
    BusPlus(mask, a, 2);
  }

  lemma StackFrameApart(mask: bv32, a: bv32)
    requires AddressMask(mask)
    ensures FrameApart(Bus(mask, a), Bus(mask, Plus(a, 2)), Bus(mask, Plus(a, 6)))
  {
    hide FrameApart, AddressMask, Plus, Bus;
    StackFrameApart2(mask, a);
    BusPlus(mask, a, 6);
  }

  /** What `m68ki_get_sr` returns survives being pushed as a word, also with S forced on. */
  lemma SrFitsWord(t1: bv32, t0: bv32, s: bv32, m: bv32, intMask: bv32, ccr: bv32)
    requires TraceAndMask(t1, t0, intMask) && Modes(s, m) && ccr & 0x1f == ccr
    ensures var sr := Sr(t1, t0, s, m, intMask, ccr); Low16(sr) == sr && Low16(sr | 0x2000) == sr | 0x2000
  {
  }

  lemma CcrFits(x: bv32, n: bv32, notZ: bv32, v: bv32, c: bv32)
    ensures Ccr(x, n, notZ, v, c) & 0x1f == Ccr(x, n, notZ, v, c)
  {
  }

  lemma FormatWords(vector: bv32)
    requires vector <= 255
    ensures Top4(Low16(vector << 2)) == 0
    ensures Top4(Low16(0x1000 | (vector << 2))) == 1
    ensures Top4(Low16(0x2000 | (vector << 2))) == 2
    ensures Top4(Low16(0x8000 | (vector << 2))) == 8
  {
  }

  lemma FormatWordBits(vector: bv32)
    requires vector <= 255
    ensures Low16(vector << 2) == FormatWord(0, vector)
    ensures Low16(0x1000 | (vector << 2)) == FormatWord(1, vector)
    ensures Low16(0x2000 | (vector << 2)) == FormatWord(2, vector)
    ensures Low16(0x8000 | (vector << 2)) == FormatWord(8, vector)
  {
  }

  /** m68ki_stack_frame_0000: three words on a 68000, four with format 0 on the others. */
  method StackFrame0000(cpu: Cpu, pc: bv32, sr: bv32, vector: bv32)
    requires cpu.Valid() && vector <= 255 && Low16(sr) == sr
    modifies cpu`dar, cpu`mem
    ensures cpu.Valid() && cpu.dar == old(cpu.dar)[15 := cpu.dar[15]]
    ensures old(cpu.dar)[15] == Plus(cpu.dar[15], FrameBytes(cpu.cpuType))
    ensures FrameOnTop(cpu, pc, sr)
    ensures cpu.cpuType != CPU_TYPE_000 ==> FormatOnTop(cpu) == 0 && WordOnTop(cpu) == FormatWord(0, vector)
    ensures cpu.cpuType == CPU_TYPE_000 ==>
              cpu.mem == ShortFrame(old(cpu.mem), cpu.Address(cpu.dar[15]), cpu.Address(Plus(cpu.dar[15], 2)), pc, sr)
    ensures cpu.cpuType != CPU_TYPE_000 ==>
              cpu.mem == LongFrame(old(cpu.mem), cpu.Address(cpu.dar[15]), cpu.Address(Plus(cpu.dar[15], 2)),
                                   cpu.Address(Plus(cpu.dar[15], 6)), pc, sr, vector << 2)
  {
    hide KnownCpu, Modes, TraceAndMask, IsLevel, Plus, Bus, FrameAt, ShortFrame, LongFrame, Read16, Top4, Low16,
         AddressMask;
    KnownMask(cpu.cpuType, cpu.addressMask, cpu.srMask);
    if cpu.cpuType == CPU_TYPE_000 {
      PushShortFrame(cpu, pc, sr);
      ShortOnTop(old(cpu.mem), cpu.addressMask, cpu.dar[15], pc, sr);
    } else {
      PushLongFrame(cpu, pc, sr, vector << 2);
      LongOnTop(old(cpu.mem), cpu.addressMask, cpu.dar[15], pc, sr, vector << 2);
      FormatWords(vector);
      FormatWordBits(vector);
    }
  }

  function FrameBytes(cpuType: bv32): bv32 {
    if cpuType == CPU_TYPE_000 then 6 else 8
  }

  lemma ShortOnTop(m: Memory, mask: bv32, a: bv32, pc: bv32, sr: bv32)
    requires AddressMask(mask)
    ensures var p, q := Bus(mask, a), Bus(mask, Plus(a, 2));
            FrameAt(ShortFrame(m, p, q, pc, sr), p, q, pc, Low16(sr))
  {
    hide AddressMask, Plus, Bus, Low16, Read16, Read32, Write16, Write32, WordLongApart, WordsApart, LongWordApart;
    StackFrameApart(mask, a);
    ShortFrameReads(m, Bus(mask, a), Bus(mask, Plus(a, 2)), pc, sr);
  }

  lemma LongOnTop(m: Memory, mask: bv32, a: bv32, pc: bv32, sr: bv32, format: bv32)
    requires AddressMask(mask)
    ensures var p, q, r := Bus(mask, a), Bus(mask, Plus(a, 2)), Bus(mask, Plus(a, 6));
            var m' := LongFrame(m, p, q, r, pc, sr, format);
            FrameAt(m', p, q, pc, Low16(sr)) && Read16(m', r) == Low16(format)
  {
    hide AddressMask, Plus, Bus, Low16, Read16, Read32, Write16, Write32, FrameApart, FrameAt, LongFrame;
    StackFrameApart(mask, a);
    LongFrameReads(m, Bus(mask, a), Bus(mask, Plus(a, 2)), Bus(mask, Plus(a, 6)), pc, sr, format);
  }

  /**
   An exception has been taken: supervisor mode on the same M, trace off, every
   register but A7 as before, and a frame of `bytes` bytes with the old program
   counter and status register on the supervisor stack; the other stacks unmoved.
   */
  ghost predicate Entered(cpu: Cpu, stacks: (bv32, bv32, bv32), dar: seq<bv32>, m: bv32, pc: bv32, sr: bv32,
                          bytes: bv32, format: bv32)
    requires |cpu.dar| == 16 && |cpu.sp| == 7 && |dar| == 16
    reads cpu`sp, cpu`dar, cpu`s, cpu`m, cpu`t1, cpu`t0, cpu`mem
  {
    && cpu.s == SFLAG_SET && cpu.m == m && cpu.t1 == 0 && cpu.t0 == 0
    && cpu.dar == dar[15 := cpu.dar[15]]
    && SupervisorStack(stacks, m) == Plus(cpu.dar[15], bytes)
    && cpu.Stacks() == WithSupervisorStack(stacks, m, cpu.dar[15])
    && FrameOnTop(cpu, pc, sr)
    && (cpu.cpuType != CPU_TYPE_000 ==> FormatOnTop(cpu) == format)
  }

  /** m68ki_init_exception, m68ki_stack_frame_0000 and m68ki_jump_vector, as most exceptions run them. */
  method EnterNormal(cpu: Cpu, pc: bv32, vector: bv32)
    requires cpu.Valid() && vector <= 255
    modifies cpu`t1, cpu`t0, cpu`sp, cpu`s, cpu`m, cpu`dar, cpu`mem, cpu`pc
    ensures cpu.Valid() && cpu.pc == VectorTarget(cpu, vector)
    ensures Entered(cpu, old(cpu.Stacks()), old(cpu.dar), old(cpu.m), pc, old(cpu.GetSr()),
                    FrameBytes(cpu.cpuType), 0)
    ensures cpu.cpuType != CPU_TYPE_000 ==> WordOnTop(cpu) == FormatWord(0, vector)
  {
    hide KnownCpu, Modes, TraceAndMask, IsLevel, Plus, Bus, FrameAt, Read16, Top4, Low16, Sr, Ccr, StacksOf,
         SupervisorStack, WithSupervisorStack, ShortFrame, LongFrame, FrameBytes, FormatWord, VectorIn;
    SrIsWord(cpu);
    var sr := InitException(cpu);
    SupervisorView(cpu.sp, cpu.dar[15], cpu.m);
    StackFrame0000(cpu, pc, sr, vector);
    cpu.pc := VectorTarget(cpu, vector);
  }

  /** m68ki_exception_trapN: TRAP #n */
  method ExceptionTrapN(cpu: Cpu, vector: bv32)
    requires cpu.Valid() && vector <= 255
    modifies cpu`t1, cpu`t0, cpu`sp, cpu`s, cpu`m, cpu`dar, cpu`mem, cpu`pc
    ensures cpu.Valid() && cpu.pc == VectorTarget(cpu, vector)
    ensures Entered(cpu, old(cpu.Stacks()), old(cpu.dar), old(cpu.m), old(cpu.pc), old(cpu.GetSr()),
                    FrameBytes(cpu.cpuType), 0)
    ensures cpu.cpuType != CPU_TYPE_000 ==> WordOnTop(cpu) == FormatWord(0, vector)
  {
    hide KnownCpu, Modes, TraceAndMask, IsLevel, Sr, Ccr, StacksOf, Entered, WordOnTop, FormatWord, VectorIn;
    EnterNormal(cpu, cpu.pc, vector);
  }

  /** m68ki_exception_privilege_violation: returns to the instruction that was refused. */
  method ExceptionPrivilegeViolation(cpu: Cpu)
    requires cpu.Valid()
    modifies cpu`t1, cpu`t0, cpu`sp, cpu`s, cpu`m, cpu`dar, cpu`mem, cpu`pc
    ensures cpu.Valid() && cpu.pc == VectorTarget(cpu, 8)
    ensures Entered(cpu, old(cpu.Stacks()), old(cpu.dar), old(cpu.m), cpu.ppc, old(cpu.GetSr()),
                    FrameBytes(cpu.cpuType), 0)
    ensures cpu.cpuType != CPU_TYPE_000 ==> WordOnTop(cpu) == FormatWord(0, 8)
  {
    hide KnownCpu, Modes, TraceAndMask, IsLevel, Sr, Ccr, StacksOf, Entered, WordOnTop, FormatWord, VectorIn;
    EnterNormal(cpu, cpu.ppc, 8);
  }

  /** What a vector holds: the long word `vector` places into the table that starts at `vbr` */
  function VectorIn(mem: Memory, mask: bv32, vbr: bv32, vector: bv32): (target: bv32)
    ensures target == Read32(mem, (vbr + 4 * vector) & mask)
  {
    Read32(mem, VectorAddress(mask, vbr, vector))
  }

  function VectorAddress(mask: bv32, vbr: bv32, vector: bv32): (a: bv32)
    ensures a == (vbr + 4 * vector) & mask
  {
    Bus(mask, (vector << 2) + vbr)
  }

  /** m68ki_jump_vector */
  function VectorTarget(cpu: Cpu, vector: bv32): bv32
    reads cpu`mem, cpu`vbr
  {
    VectorIn(cpu.mem, cpu.addressMask, cpu.vbr, vector)
  }

  lemma SrIsWord(cpu: Cpu)
    requires cpu.Valid()
    ensures Low16(cpu.GetSr()) == cpu.GetSr() && Low16(cpu.GetSr() | 0x2000) == cpu.GetSr() | 0x2000
  {
    hide KnownCpu, Modes, TraceAndMask, IsLevel, Low16, Sr, Ccr, StacksOf;
    CcrFits(cpu.x, cpu.n, cpu.notZ, cpu.v, cpu.c);
    SrFitsWord(cpu.t1, cpu.t0, cpu.s, cpu.m, cpu.intMask, Ccr(cpu.x, cpu.n, cpu.notZ, cpu.v, cpu.c));
  }

  /** m68ki_stack_frame_0010: the instruction's address, then a four-word frame with format 2. */
  method StackFrame0010(cpu: Cpu, sr: bv32, vector: bv32)
    requires cpu.Valid() && vector <= 255 && Low16(sr) == sr
    modifies cpu`dar, cpu`mem
    ensures cpu.Valid() && cpu.dar == old(cpu.dar)[15 := cpu.dar[15]]
    ensures old(cpu.dar)[15] == Plus(cpu.dar[15], 12)
    ensures FrameOnTop(cpu, cpu.pc, sr) && FormatOnTop(cpu) == 2 && WordOnTop(cpu) == FormatWord(2, vector)
    ensures Read32(cpu.mem, cpu.Address(Plus(cpu.dar[15], 8))) == cpu.ppc
    ensures cpu.mem == LongFrame(Write32(old(cpu.mem), cpu.Address(Plus(cpu.dar[15], 8)), cpu.ppc),
                                 cpu.Address(cpu.dar[15]), cpu.Address(Plus(cpu.dar[15], 2)),
                                 cpu.Address(Plus(cpu.dar[15], 6)), cpu.pc, sr, 0x2000 | (vector << 2))
  {
    hide KnownCpu, Modes, TraceAndMask, IsLevel, Plus, Minus, Bus, FrameAt, Read16, Read32, Write32, Top4, Low16,
         LongFrame,
         AddressMask, FormatWord;
    KnownMask(cpu.cpuType, cpu.addressMask, cpu.srMask);
    ghost var a0 := cpu.dar[15];
    cpu.Push32(cpu.ppc);
    PlusMinus(a0, 4);
    ghost var m1 := cpu.mem;
    PushLongFrame(cpu, cpu.pc, sr, 0x2000 | (vector << 2));
    PlusPlus(cpu.dar[15], 8, 4);
    LongOnTop(m1, cpu.addressMask, cpu.dar[15], cpu.pc, sr, 0x2000 | (vector << 2));
    FormatWords(vector);
    FormatWordBits(vector);
    ReadBack32(old(cpu.mem), cpu.Address(Plus(cpu.dar[15], 8)), cpu.ppc);
    PpcKept(m1, cpu.addressMask, cpu.dar[15], cpu.pc, sr, 0x2000 | (vector << 2));
  }

  // The frame does not reach the long word above it.

  lemma WordBelow24Plain(a: bv32, x: bv32)
    requires x <= 6
    ensures WordLongApart((a + x) & 0xffffff, (a + 8) & 0xffffff)
  {
  }

  lemma WordBelow24Half(a: bv32, x: bv32)
    requires x <= 6
    ensures WordLongApart(Bus(0xffffff, Plus(a, x)), (a + 8) & 0xffffff)
  {
    hide WordLongApart, Bus, Plus;
    BusPlus(0xffffff, a, x);
    WordBelow24Plain(a, x);
  }

  lemma WordBelow24(a: bv32, x: bv32)
    requires x <= 6
    ensures WordLongApart(Bus(0xffffff, Plus(a, x)), Bus(0xffffff, Plus(a, 8)))
  {
    hide WordLongApart, Bus, Plus;
    BusPlus(0xffffff, a, 8);
    WordBelow24Half(a, x);
  }

  lemma WordBelow32Plain(a: bv32, x: bv32)
    requires x <= 6
    ensures WordLongApart((a + x) & 0xffffffff, (a + 8) & 0xffffffff)
  {
  }

  lemma WordBelow32Half(a: bv32, x: bv32)
    requires x <= 6
    ensures WordLongApart(Bus(0xffffffff, Plus(a, x)), (a + 8) & 0xffffffff)
  {
    hide WordLongApart, Bus, Plus;
    BusPlus(0xffffffff, a, x);
    WordBelow32Plain(a, x);
  }

  lemma WordBelow32(a: bv32, x: bv32)
    requires x <= 6
    ensures WordLongApart(Bus(0xffffffff, Plus(a, x)), Bus(0xffffffff, Plus(a, 8)))
  {
    hide WordLongApart, Bus, Plus;
    BusPlus(0xffffffff, a, 8);
    WordBelow32Half(a, x);
  }

  lemma WordBelow(mask: bv32, a: bv32, x: bv32)
    requires AddressMask(mask) && x <= 6
    ensures WordLongApart(Bus(mask, Plus(a, x)), Bus(mask, Plus(a, 8)))
  {
    hide WordLongApart, Bus, Plus;
    if mask == 0xffffff { WordBelow24(a, x); } else { WordBelow32(a, x); }
  }

  lemma LongBelow24Plain(a: bv32, x: bv32)
    requires x <= 4
    ensures LongsApart((a + x) & 0xffffff, (a + 8) & 0xffffff)
  {
  }

  lemma LongBelow24Half(a: bv32, x: bv32)
    requires x <= 4
    ensures LongsApart(Bus(0xffffff, Plus(a, x)), (a + 8) & 0xffffff)
  {
    hide LongsApart, Bus, Plus;
    BusPlus(0xffffff, a, x);
    LongBelow24Plain(a, x);
  }

  lemma LongBelow24(a: bv32, x: bv32)
    requires x <= 4
    ensures LongsApart(Bus(0xffffff, Plus(a, x)), Bus(0xffffff, Plus(a, 8)))
  {
    hide LongsApart, Bus, Plus;
    BusPlus(0xffffff, a, 8);
    LongBelow24Half(a, x);
  }

  lemma LongBelow32Plain(a: bv32, x: bv32)
    requires x <= 4
    ensures LongsApart((a + x) & 0xffffffff, (a + 8) & 0xffffffff)
  {
  }

  lemma LongBelow32Half(a: bv32, x: bv32)
    requires x <= 4
    ensures LongsApart(Bus(0xffffffff, Plus(a, x)), (a + 8) & 0xffffffff)
  {
    hide LongsApart, Bus, Plus;
    BusPlus(0xffffffff, a, x);
    LongBelow32Plain(a, x);
  }

  lemma LongBelow32(a: bv32, x: bv32)
    requires x <= 4
    ensures LongsApart(Bus(0xffffffff, Plus(a, x)), Bus(0xffffffff, Plus(a, 8)))
  {
    hide LongsApart, Bus, Plus;
    BusPlus(0xffffffff, a, 8);
    LongBelow32Half(a, x);
  }

  lemma LongBelow(mask: bv32, a: bv32, x: bv32)
    requires AddressMask(mask) && x <= 4
    ensures LongsApart(Bus(mask, Plus(a, x)), Bus(mask, Plus(a, 8)))
  {
    hide LongsApart, Bus, Plus;
    if mask == 0xffffff { LongBelow24(a, x); } else { LongBelow32(a, x); }
  }

  lemma PlusZero(a: bv32)
    ensures Plus(a, 0) == a
  {
  }

  lemma AboveFrame(mask: bv32, a: bv32)
    requires AddressMask(mask)
    ensures var q := Bus(mask, Plus(a, 8));
            WordLongApart(Bus(mask, a), q) && LongsApart(Bus(mask, Plus(a, 2)), q)
            && WordLongApart(Bus(mask, Plus(a, 6)), q)
  {
    hide WordLongApart, LongsApart, Bus, Plus, AddressMask;
    PlusZero(a);
    WordBelow(mask, a, 0);
    LongBelow(mask, a, 2);
    WordBelow(mask, a, 6);
  }

  lemma PpcKept(m: Memory, mask: bv32, a: bv32, pc: bv32, sr: bv32, format: bv32)
    requires AddressMask(mask)
    ensures var m' := LongFrame(m, Bus(mask, a), Bus(mask, Plus(a, 2)), Bus(mask, Plus(a, 6)), pc, sr, format);
            Read32(m', Bus(mask, Plus(a, 8))) == Read32(m, Bus(mask, Plus(a, 8)))
  {
    hide AddressMask, WordLongApart, LongsApart, Bus, Plus, Read32, Write32, Write16;
    AboveFrame(mask, a);
    var p, q, r, b := Bus(mask, a), Bus(mask, Plus(a, 2)), Bus(mask, Plus(a, 6)), Bus(mask, Plus(a, 8));
    WordKeepsLong(m, r, format, b);
    LongKeepsLong(Write16(m, r, format), q, pc, b);
    WordKeepsLong(Write32(Write16(m, r, format), q, pc), p, sr, b);
  }

  /** m68ki_exception_trap: group 2 exceptions stack a format 2 frame on the 68020 and up. */
  method ExceptionTrap(cpu: Cpu, vector: bv32)
    requires cpu.Valid() && vector <= 255
    modifies cpu`t1, cpu`t0, cpu`sp, cpu`s, cpu`m, cpu`dar, cpu`mem, cpu`pc
    ensures cpu.Valid() && cpu.pc == VectorTarget(cpu, vector)
    ensures Entered(cpu, old(cpu.Stacks()), old(cpu.dar), old(cpu.m), old(cpu.pc), old(cpu.GetSr()),
                    TrapFrameBytes(cpu.cpuType), TrapFormat(cpu.cpuType))
    ensures cpu.cpuType != CPU_TYPE_000 ==> WordOnTop(cpu) == FormatWord(TrapFormat(cpu.cpuType), vector)
    ensures !Is010Less(cpu.cpuType) ==> Read32(cpu.mem, cpu.Address(Plus(cpu.dar[15], 8))) == cpu.ppc
  {
    hide KnownCpu, Modes, TraceAndMask, IsLevel, Bus, Sr, Ccr, StacksOf, Entered, FrameBytes, WordOnTop, FormatWord,
         Read32, Plus, VectorIn;
    if Is010Less(cpu.cpuType) {
      ExceptionTrapN(cpu, vector);
    } else {
      EnterTrap020(cpu, vector);
    }
  }

  function TrapFrameBytes(cpuType: bv32): bv32 { if Is010Less(cpuType) then FrameBytes(cpuType) else 12 }

  function TrapFormat(cpuType: bv32): bv32 { if Is010Less(cpuType) then 0 else 2 }

  method EnterTrap020(cpu: Cpu, vector: bv32)
    requires cpu.Valid() && vector <= 255
    modifies cpu`t1, cpu`t0, cpu`sp, cpu`s, cpu`m, cpu`dar, cpu`mem, cpu`pc
    ensures cpu.Valid() && cpu.pc == VectorTarget(cpu, vector)
    ensures Entered(cpu, old(cpu.Stacks()), old(cpu.dar), old(cpu.m), old(cpu.pc), old(cpu.GetSr()), 12, 2)
    ensures WordOnTop(cpu) == FormatWord(2, vector)
    ensures Read32(cpu.mem, cpu.Address(Plus(cpu.dar[15], 8))) == cpu.ppc
  {
    hide KnownCpu, Modes, TraceAndMask, IsLevel, Plus, Minus, Bus, FrameAt, Read16, Read32, Write32, Top4, Low16, Sr,
         Ccr,
         StacksOf, SupervisorStack, WithSupervisorStack, LongFrame, FrameBytes, AddressMask, FormatWord, VectorIn;
    SrIsWord(cpu);
    var sr := InitException(cpu);
    SupervisorView(cpu.sp, cpu.dar[15], cpu.m);
    StackFrame0010(cpu, sr, vector);
    cpu.pc := VectorTarget(cpu, vector);
  }

  /**
   The part of the format 8 frame that RTE skips: 25 words, three of them written as zero
   besides the fault address and status.
   */
  method PushBusErrorDetails(cpu: Cpu)
    requires cpu.Valid()
    modifies cpu`dar, cpu`mem
    ensures cpu.Valid() && cpu.dar == old(cpu.dar)[15 := cpu.dar[15]]
    ensures old(cpu.dar)[15] == Plus(cpu.dar[15], 50)
    ensures cpu.mem == Details(old(cpu.mem), cpu.addressMask, old(cpu.dar)[15])
  {
    hide KnownCpu, Modes, TraceAndMask, IsLevel, Plus, Minus, Bus, Write16, Write32;
    var a0 := cpu.dar[15];
    DetailPlaces(a0);
    cpu.dar := cpu.dar[15 := Minus(a0, 32)];
    PlusMinus(a0, 32);
    PushBlank(cpu, 32, a0);
    PushBlank(cpu, 36, a0);
    PushBlank(cpu, 40, a0);
    ghost var a := cpu.dar[15];
    cpu.Push32(0);
    PlusMinus(a, 4);
    PlusPlus(cpu.dar[15], 4, 44);
    ghost var b := cpu.dar[15];
    cpu.Push16(0);
    PlusMinus(b, 2);
    PlusPlus(cpu.dar[15], 2, 48);
  }

  /** Three words of zero with a gap above each, a long word and a word of zero, below 16 words left as they are */
  function Details(m: Memory, mask: bv32, a: bv32): Memory {
    var m1 := Write16(m, Bus(mask, Minus(a, 34)), 0);
    var m2 := Write16(m1, Bus(mask, Minus(a, 38)), 0);
    var m3 := Write16(m2, Bus(mask, Minus(a, 42)), 0);
    Write16(Write32(m3, Bus(mask, Minus(a, 48)), 0), Bus(mask, Minus(a, 50)), 0)
  }

  lemma MinusSum(a: bv32, j: bv32, k: bv32)
    ensures Minus(a - j, k) == Minus(a, j + k)
  {
  }

  lemma MinusMinus(a: bv32, j: bv32, k: bv32)
    ensures Minus(Minus(a, j), k) == Minus(a, j + k)
  {
    MinusSum(a, j, k);
    assert Minus(a, j) == a - j;
    hide Minus;
  }

  lemma DetailPlaces(a: bv32)
    ensures Minus(Minus(a, 32), 2) == Minus(a, 34) && Minus(Minus(a, 34), 2) == Minus(a, 36)
    ensures Minus(Minus(a, 36), 2) == Minus(a, 38) && Minus(Minus(a, 38), 2) == Minus(a, 40)
    ensures Minus(Minus(a, 40), 2) == Minus(a, 42) && Minus(Minus(a, 42), 2) == Minus(a, 44)
    ensures Minus(Minus(a, 44), 4) == Minus(a, 48) && Minus(Minus(a, 48), 2) == Minus(a, 50)
  {
    hide Minus;
    MinusMinus(a, 32, 2);
    MinusMinus(a, 34, 2);
    MinusMinus(a, 36, 2);
    MinusMinus(a, 38, 2);
    MinusMinus(a, 40, 2);
    MinusMinus(a, 42, 2);
    MinusMinus(a, 44, 4);
    MinusMinus(a, 48, 2);
  }

  /** A word of zero and a word left unwritten. */
  method PushBlank(cpu: Cpu, ghost done: bv32, ghost a0: bv32)
    requires cpu.Valid() && a0 == Plus(cpu.dar[15], done)
    modifies cpu`dar, cpu`mem
    ensures cpu.Valid() && cpu.dar == old(cpu.dar)[15 := cpu.dar[15]]
    ensures cpu.dar[15] == Minus(Minus(old(cpu.dar)[15], 2), 2)
    ensures cpu.mem == Write16(old(cpu.mem), cpu.Address(Minus(old(cpu.dar)[15], 2)), 0)
    ensures a0 == Plus(cpu.dar[15], 4 + done)
  {
    hide KnownCpu, Modes, TraceAndMask, IsLevel, Plus, Minus, Bus, Write16;
    ghost var a := cpu.dar[15];
    cpu.Push16(0);
    PlusMinus(a, 2);
    ghost var b := cpu.dar[15];
    cpu.dar := cpu.dar[15 := Minus(cpu.dar[15], 2)];
    PlusMinus(b, 2);
    PlusPlus(cpu.dar[15], 2, 2);
    PlusPlus(cpu.dar[15], 4, done);
  }

  /** m68ki_stack_frame_1000: the 29-word frame of the 68010. */
  method StackFrame1000(cpu: Cpu, pc: bv32, sr: bv32, vector: bv32)
    requires cpu.Valid() && vector <= 255 && Low16(sr) == sr
    modifies cpu`dar, cpu`mem
    ensures cpu.Valid() && cpu.dar == old(cpu.dar)[15 := cpu.dar[15]]
    ensures old(cpu.dar)[15] == Plus(cpu.dar[15], 58)
    ensures FrameOnTop(cpu, pc, sr) && FormatOnTop(cpu) == 8 && WordOnTop(cpu) == FormatWord(8, vector)
    ensures cpu.mem == LongFrame(Details(old(cpu.mem), cpu.addressMask, old(cpu.dar)[15]),
                                 cpu.Address(cpu.dar[15]), cpu.Address(Plus(cpu.dar[15], 2)),
                                 cpu.Address(Plus(cpu.dar[15], 6)), pc, sr, 0x8000 | (vector << 2))
  {
    hide KnownCpu, Modes, TraceAndMask, IsLevel, Plus, Minus, Bus, FrameAt, Read16, Top4, Low16, LongFrame, AddressMask,
         Details,
         FormatWord;
    KnownMask(cpu.cpuType, cpu.addressMask, cpu.srMask);
    PushBusErrorDetails(cpu);
    ghost var m1 := cpu.mem;
    PushLongFrame(cpu, pc, sr, 0x8000 | (vector << 2));
    PlusPlus(cpu.dar[15], 8, 50);
    LongOnTop(m1, cpu.addressMask, cpu.dar[15], pc, sr, 0x8000 | (vector << 2));
    FormatWords(vector);
    FormatWordBits(vector);
  }

  /** m68ki_exception_bus_error: restart the instruction with the registers it began with. */
  method ExceptionBusError(cpu: Cpu)
    requires cpu.Valid()
    modifies cpu`t1, cpu`t0, cpu`sp, cpu`s, cpu`m, cpu`dar, cpu`mem, cpu`pc, cpu`halted, cpu`runMode
    ensures cpu.Valid()
    ensures old(cpu.runMode).WritingStackFrame? ==>
              cpu.halted && cpu.dar == old(cpu.dar) && cpu.mem == old(cpu.mem) && cpu.pc == old(cpu.pc)
    ensures !old(cpu.runMode).WritingStackFrame? ==>
              && cpu.runMode == StackFrameDone && cpu.pc == VectorTarget(cpu, 2)
              && Entered(cpu, StacksOf(old(cpu.sp), old(cpu.darSave)[15], old(cpu.s), old(cpu.m)),
                         old(cpu.darSave), old(cpu.m), old(cpu.ppc), old(cpu.GetSr()), 58, 8)
              && WordOnTop(cpu) == FormatWord(8, 2)
  {
    hide KnownCpu, Modes, TraceAndMask, IsLevel, Bus, Sr, Ccr, StacksOf, Entered, WordOnTop, FormatWord, VectorIn;
    if cpu.runMode.WritingStackFrame? {
      cpu.halted := true;
      return;
    }
    cpu.runMode := WritingStackFrame;
    cpu.dar := cpu.darSave;
    EnterBusError(cpu);
    cpu.runMode := StackFrameDone;
  }

  /** Stacking the frame; the mode says that a bus error meanwhile is a second one. */
  method EnterBusError(cpu: Cpu)
    requires cpu.Valid() && cpu.runMode.WritingStackFrame?
    modifies cpu`t1, cpu`t0, cpu`sp, cpu`s, cpu`m, cpu`dar, cpu`mem, cpu`pc
    ensures cpu.Valid() && cpu.pc == VectorTarget(cpu, 2)
    ensures Entered(cpu, old(cpu.Stacks()), old(cpu.dar), old(cpu.m), old(cpu.ppc), old(cpu.GetSr()), 58, 8)
    ensures WordOnTop(cpu) == FormatWord(8, 2)
  {
    hide KnownCpu, Modes, TraceAndMask, IsLevel, Plus, Bus, FrameAt, Read16, Top4, Low16, Sr, Ccr, StacksOf,
         SupervisorStack, WithSupervisorStack, LongFrame, Details, FormatWord, VectorIn;
    SrIsWord(cpu);
    var sr := InitException(cpu);
    SupervisorView(cpu.sp, cpu.dar[15], cpu.m);
    StackFrame1000(cpu, cpu.ppc, sr, 2);
    cpu.pc := VectorTarget(cpu, 2);
  }
}
