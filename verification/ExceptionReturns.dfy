/**
 From an exception back to the interrupted program: what entry stacks
 (tools/r68k/musashi/m68kcpu.h), RTE (m68k_in.c) takes back.
 */
module ExceptionReturns {
  import opened Memory68k
  import opened Cpu68k
  import opened Exceptions
  import opened Rte

  /** The processor is back at `pc` with this status register, these three stack pointers and these registers. */
  ghost predicate BackAt(cpu: Cpu, stacks: (bv32, bv32, bv32), dar: seq<bv32>, pc: bv32, sr: bv32)
    requires |cpu.dar| == 16 && |cpu.sp| == 7 && |dar| == 16
    reads cpu
  {
    cpu.pc == pc && cpu.GetSr() == sr && cpu.Stacks() == stacks && cpu.dar == dar[15 := cpu.dar[15]]
        && cpu.runMode.Normal?
  }

  /**
   RTE takes what the frame on top says, and as many bytes off the supervisor stack as
   the processor takes the frame to have, which may not be as many as were stacked.
   */
  method ReturnFromFrame(cpu: Cpu, ack: bv32, ghost stacks: (bv32, bv32, bv32), ghost dar: seq<bv32>, ghost m: bv32,
                         ghost pc: bv32, ghost sr: bv32, ghost bytes: bv32, ghost format: bv32)
    requires cpu.Valid() && |dar| == 16 && Entered(cpu, stacks, dar, m, pc, sr, bytes, format)
    requires PoppedBytes(cpu.cpuType, format) != 0
    requires !Pending(cpu.nmiPending, cpu.intLevel, MaskSr(sr, cpu.srMask))
    modifies cpu`t1, cpu`t0, cpu`sp, cpu`s, cpu`m, cpu`dar, cpu`mem, cpu`intMask, cpu`pc, cpu`stopped, cpu`nmiPending,
             cpu`x, cpu`n, cpu`notZ, cpu`v, cpu`c, cpu`runMode
    ensures cpu.Valid()
    ensures BackAt(cpu, WithSupervisorStack(stacks, m, Plus(old(cpu.dar)[15], PoppedBytes(cpu.cpuType, format))), dar,
            pc,
                   MaskSr(sr, cpu.srMask))
  {
    hide KnownCpu, Modes, TraceAndMask, IsLevel, Sr, Ccr, StacksOf, SupervisorStack, WithSupervisorStack, ActiveStack,
         WithActiveStack, Plus, Bus, Read16, Read32, Top4, MaskSr, Pending, Interrupted, MOf;
    TopOfStack(cpu);
    ghost var d1 := cpu.dar;
    PopFromStack(stacks, m, cpu.dar[15], Plus(cpu.dar[15], PoppedBytes(cpu.cpuType, format)));
    var finished := ReturnFromException(cpu, 0, ack);
    assert dar[15 := cpu.dar[15]] == d1[15 := cpu.dar[15]];
  }

  lemma PopFromStack(stacks: (bv32, bv32, bv32), m: bv32, a: bv32, b: bv32)
    ensures ActiveStack(WithSupervisorStack(stacks, m, a), SFLAG_SET, m) == a
    ensures WithActiveStack(WithSupervisorStack(stacks, m, a), SFLAG_SET, m, b) == WithSupervisorStack(stacks, m, b)
  {
  }

  lemma PopUndoesPush(stacks: (bv32, bv32, bv32), m: bv32)
    ensures WithSupervisorStack(stacks, m, SupervisorStack(stacks, m)) == stacks
  {
  }

  /**
   Entry is undone by RTE once the handler is done: whatever the handler did in between,
   if the state is still as entry left it as far as `Entered` says, and no interrupt waits.
   */
  method ReturnFromEntry(cpu: Cpu, ack: bv32, ghost stacks: (bv32, bv32, bv32), ghost dar: seq<bv32>, ghost m: bv32,
                         ghost pc: bv32, ghost sr: bv32, ghost bytes: bv32, ghost format: bv32)
    requires cpu.Valid() && |dar| == 16 && Entered(cpu, stacks, dar, m, pc, sr, bytes, format)
    requires bytes == PoppedBytes(cpu.cpuType, format) && bytes != 0
    requires !Pending(cpu.nmiPending, cpu.intLevel, MaskSr(sr, cpu.srMask))
    modifies cpu`t1, cpu`t0, cpu`sp, cpu`s, cpu`m, cpu`dar, cpu`mem, cpu`intMask, cpu`pc, cpu`stopped, cpu`nmiPending,
             cpu`x, cpu`n, cpu`notZ, cpu`v, cpu`c, cpu`runMode
    ensures cpu.Valid() && BackAt(cpu, stacks, dar, pc, MaskSr(sr, cpu.srMask))
  {
    hide KnownCpu, Modes, TraceAndMask, IsLevel, Sr, Ccr, StacksOf, SupervisorStack, WithSupervisorStack, Plus, Bus,
         FrameOnTop, FormatOnTop, MaskSr, Pending, BackAt, PoppedBytes;
    PopUndoesPush(stacks, m);
    ReturnFromFrame(cpu, ack, stacks, dar, m, pc, sr, bytes, format);
  }

  lemma SameA7(cpu: Cpu, stacks: (bv32, bv32, bv32), dar: seq<bv32>, pc: bv32, sr: bv32, s: bv32, m: bv32)
    requires cpu.Valid() && |dar| == 16 && BackAt(cpu, stacks, dar, pc, sr)
    requires dar[15] == ActiveStack(stacks, s, m) && SOf(sr) == s && MOf(sr) == m
    ensures cpu.dar == dar
  {
    hide KnownCpu, Modes, TraceAndMask, IsLevel, Sr, Ccr, StacksOf, ActiveStack, SOf, MOf;
    TopOfStack(cpu);
    SrModes(cpu);
  }

  lemma SrModes(cpu: Cpu)
    requires cpu.Valid()
    ensures SOf(cpu.GetSr()) == cpu.s && MOf(cpu.GetSr()) == cpu.m
  {
    hide KnownCpu, Modes, TraceAndMask, IsLevel, Sr, Ccr, MaskOf, MOf, SOf, T1Of, T0Of;
    SrFields(cpu.t1, cpu.t0, cpu.s, cpu.m, cpu.intMask, cpu.x, cpu.n, cpu.notZ, cpu.v, cpu.c);
  }

  /** Every stack pointer and register is back, A7 included, when the processor implements the bits that were set. */
  twostate predicate Restored(cpu: Cpu, new pc: bv32)
    requires old(cpu.Valid()) && cpu.Valid()
    reads cpu
  {
    && BackAt(cpu, old(cpu.Stacks()), old(cpu.dar), pc, MaskSr(old(cpu.GetSr()), cpu.srMask))
    && (MaskSr(old(cpu.GetSr()), cpu.srMask) == old(cpu.GetSr()) ==> cpu.dar == old(cpu.dar))
  }

  /** TRAP #n, then RTE. */
  method TrapNReturns(cpu: Cpu, vector: bv32, ack: bv32)
    requires cpu.Valid() && vector <= 255
    requires !Pending(cpu.nmiPending, cpu.intLevel, MaskSr(cpu.GetSr(), cpu.srMask))
    modifies cpu`t1, cpu`t0, cpu`sp, cpu`s, cpu`m, cpu`dar, cpu`mem, cpu`intMask, cpu`pc, cpu`stopped, cpu`nmiPending,
             cpu`x, cpu`n, cpu`notZ, cpu`v, cpu`c, cpu`runMode
    ensures cpu.Valid() && Restored(cpu, old(cpu.pc))
  {
    hide KnownCpu, Modes, TraceAndMask, IsLevel, Sr, Ccr, StacksOf, MaskSr, Pending, Entered, BackAt, SOf, MOf,
         ActiveStack;
    TopOfStack(cpu);
    SrModes(cpu);
    ghost var st, d, m, s, sr := cpu.Stacks(), cpu.dar, cpu.m, cpu.s, cpu.GetSr();
    ExceptionTrapN(cpu, vector);
    ReturnFromEntry(cpu, ack, st, d, m, old(cpu.pc), sr, FrameBytes(cpu.cpuType), 0);
    if MaskSr(sr, cpu.srMask) == sr {
      SameA7(cpu, st, d, old(cpu.pc), sr, s, m);
    }
  }

  /** CHK, TRAPV, a zero divide and the other group 2 exceptions, then RTE. */
  method TrapReturns(cpu: Cpu, vector: bv32, ack: bv32)
    requires cpu.Valid() && vector <= 255
    requires !Pending(cpu.nmiPending, cpu.intLevel, MaskSr(cpu.GetSr(), cpu.srMask))
    modifies cpu`t1, cpu`t0, cpu`sp, cpu`s, cpu`m, cpu`dar, cpu`mem, cpu`intMask, cpu`pc, cpu`stopped, cpu`nmiPending,
             cpu`x, cpu`n, cpu`notZ, cpu`v, cpu`c, cpu`runMode
    ensures cpu.Valid() && Restored(cpu, old(cpu.pc))
  {
    hide KnownCpu, Modes, TraceAndMask, IsLevel, Sr, Ccr, StacksOf, MaskSr, Pending, Entered, BackAt, SOf, MOf,
         ActiveStack;
    TopOfStack(cpu);
    SrModes(cpu);
    ghost var st, d, m, s, sr := cpu.Stacks(), cpu.dar, cpu.m, cpu.s, cpu.GetSr();
    ExceptionTrap(cpu, vector);
    ReturnFromEntry(cpu, ack, st, d, m, old(cpu.pc), sr, TrapFrameBytes(cpu.cpuType), TrapFormat(cpu.cpuType));
    if MaskSr(sr, cpu.srMask) == sr {
      SameA7(cpu, st, d, old(cpu.pc), sr, s, m);
    }
  }

  /**
   A bus error, then RTE. Every processor stacks the 58-byte frame of the 68010, and only
   a 68010 takes it back: the faulting instruction starts again with the registers it
   began with. A 68000 goes on there as well, but with 52 bytes left on the supervisor
   stack; the others refuse the frame with a format error, stacked below it.
   */
  method BusErrorReturns(cpu: Cpu, ack: bv32)
    requires cpu.Valid() && !cpu.runMode.WritingStackFrame?
    requires !Pending(cpu.nmiPending, cpu.intLevel, MaskSr(cpu.GetSr(), cpu.srMask))
    modifies cpu`t1, cpu`t0, cpu`sp, cpu`s, cpu`m, cpu`dar, cpu`mem, cpu`intMask, cpu`pc, cpu`stopped, cpu`nmiPending,
             cpu`x, cpu`n, cpu`notZ, cpu`v, cpu`c, cpu`runMode, cpu`halted
    ensures cpu.Valid()
    ensures var stacks := StacksOf(old(cpu.sp), cpu.darSave[15], old(cpu.s), old(cpu.m));
            var sr := MaskSr(old(cpu.GetSr()), cpu.srMask);
            && (BackAt(cpu, stacks, cpu.darSave, cpu.ppc, sr) <==> cpu.cpuType == CPU_TYPE_010)
            && (cpu.cpuType == CPU_TYPE_000 ==>
                 BackAt(cpu, Lowered(stacks, old(cpu.m), 52), cpu.darSave, cpu.ppc, sr))
            && (!Is010Less(cpu.cpuType) ==>
                 cpu.pc == VectorTarget(cpu, 14) && cpu.Stacks() == Lowered(stacks, old(cpu.m), 66))
  {
    hide KnownCpu, Modes, TraceAndMask, IsLevel, Sr, Ccr, StacksOf, MaskSr, Pending, Entered, BackAt, VectorTarget,
         Lowered;
    ghost var st, m, sr := StacksOf(cpu.sp, cpu.darSave[15], cpu.s, cpu.m), cpu.m, cpu.GetSr();
    ExceptionBusError(cpu);
    if cpu.cpuType == CPU_TYPE_010 {
      ReturnFromEntry(cpu, ack, st, cpu.darSave, m, cpu.ppc, sr, 58, 8);
    } else if cpu.cpuType == CPU_TYPE_000 {
      PopsTooLittle(cpu, ack, st, m, sr);
    } else {
      RefusesFormat8(cpu, ack, st, m, sr);
    }
    NotBackAt(cpu, st, m, cpu.darSave, cpu.ppc, MaskSr(sr, cpu.srMask));
  }

  /** The supervisor stack is `bytes` too low. */
  function Lowered(stacks: (bv32, bv32, bv32), m: bv32, bytes: bv32): (bv32, bv32, bv32) {
    WithSupervisorStack(stacks, m, Minus(SupervisorStack(stacks, m), bytes))
  }

  lemma NotBackAt(cpu: Cpu, stacks: (bv32, bv32, bv32), m: bv32, dar: seq<bv32>, pc: bv32, sr: bv32)
    requires cpu.Valid() && |dar| == 16
    ensures BackAt(cpu, stacks, dar, pc, sr) ==>
              cpu.Stacks() != Lowered(stacks, m, 52) && cpu.Stacks() != Lowered(stacks, m, 66)
    ensures BackAt(cpu, Lowered(stacks, m, 52), dar, pc, sr) ==> cpu.Stacks() == Lowered(stacks, m, 52)
  {
    hide KnownCpu, Modes, TraceAndMask, IsLevel, Sr, Ccr, StacksOf, Minus;
    LowerIsLower(SupervisorStack(stacks, m));
  }

  lemma LowerIsLower(a: bv32)
    ensures Minus(a, 52) != a && Minus(a, 66) != a
  {
  }

  lemma SixOfFiftyEight(a: bv32)
    ensures Plus(a, 6) == Minus(a + 58, 52)
  {
  }

  method PopsTooLittle(cpu: Cpu, ack: bv32, ghost stacks: (bv32, bv32, bv32), ghost m: bv32, ghost sr: bv32)
    requires cpu.Valid() && cpu.cpuType == CPU_TYPE_000 && Entered(cpu, stacks, cpu.darSave, m, cpu.ppc, sr, 58, 8)
    requires !Pending(cpu.nmiPending, cpu.intLevel, MaskSr(sr, cpu.srMask))
    modifies cpu`t1, cpu`t0, cpu`sp, cpu`s, cpu`m, cpu`dar, cpu`mem, cpu`intMask, cpu`pc, cpu`stopped, cpu`nmiPending,
             cpu`x, cpu`n, cpu`notZ, cpu`v, cpu`c, cpu`runMode
    ensures cpu.Valid() && BackAt(cpu, Lowered(stacks, m, 52), cpu.darSave, cpu.ppc, MaskSr(sr, cpu.srMask))
  {
    hide KnownCpu, Modes, TraceAndMask, IsLevel, Sr, Ccr, StacksOf, SupervisorStack, WithSupervisorStack, Plus, Minus,
         Bus,
         FrameOnTop, FormatOnTop, MaskSr, Pending, BackAt;
    SixOfFiftyEight(cpu.dar[15]);
    PlusIs(cpu.dar[15], 58);
    ReturnFromFrame(cpu, ack, stacks, cpu.darSave, m, cpu.ppc, sr, 58, 8);
  }

  lemma BelowRefusedFrame(a: bv32, b: bv32, c: bv32)
    requires Plus(c, 8) == b && Plus(b, 58) == a
    ensures c == Minus(a, 66)
  {
    MinusOfPlus(c, b, 8);
    MinusOfPlus(b, a, 58);
    MinusTwice(a);
    hide Plus, Minus;
  }

  lemma MinusOfDifference(a: bv32)
    ensures Minus(a - 58, 8) == Minus(a, 66)
  {
  }

  lemma MinusTwice(a: bv32)
    ensures Minus(Minus(a, 58), 8) == Minus(a, 66)
  {
    MinusOfDifference(a);
    assert Minus(a, 58) == a - 58;
    hide Minus;
  }

  method RefusesFormat8(cpu: Cpu, ack: bv32, ghost stacks: (bv32, bv32, bv32), ghost m: bv32, ghost sr: bv32)
    requires cpu.Valid() && !Is010Less(cpu.cpuType) && Entered(cpu, stacks, cpu.darSave, m, cpu.ppc, sr, 58, 8)
    modifies cpu`t1, cpu`t0, cpu`sp, cpu`s, cpu`m, cpu`dar, cpu`mem, cpu`intMask, cpu`pc, cpu`stopped, cpu`nmiPending,
             cpu`x, cpu`n, cpu`notZ, cpu`v, cpu`c, cpu`runMode
    ensures cpu.Valid() && cpu.pc == VectorTarget(cpu, 14) && cpu.Stacks() == Lowered(stacks, m, 66)
  {
    hide KnownCpu, Modes, TraceAndMask, IsLevel, Sr, Ccr, StacksOf, SupervisorStack, WithSupervisorStack, ActiveStack,
         WithActiveStack, Plus, Minus, Bus, Read16, Read32, Top4, MaskSr, VectorTarget, ReturnedFrom, MOf, SOf;
    TopOfStack(cpu);
    ghost var a := cpu.dar[15];
    var finished := ReturnFromException(cpu, 0, ack);
    PushBelow(stacks, m, a, cpu.dar[15]);
    BelowRefusedFrame(SupervisorStack(stacks, m), a, cpu.dar[15]);
  }

  lemma PushBelow(stacks: (bv32, bv32, bv32), m: bv32, a: bv32, b: bv32)
    ensures SupervisorStack(WithSupervisorStack(stacks, m, a), m) == a
    ensures WithSupervisorStack(WithSupervisorStack(stacks, m, a), m, b) == WithSupervisorStack(stacks, m, b)
  {
  }

  // ---------------------------------------------------------------------------
  // Interrupts
  // ---------------------------------------------------------------------------

  /** The throwaway frame leads RTE to the master stack. */
  lemma ForcedModes(sr: bv32, cpuType: bv32, addressMask: bv32, srMask: bv32)
    requires KnownCpu(cpuType, addressMask, srMask) && IsEc020Plus(cpuType)
    ensures SOf(MaskSr(ForceS(sr), srMask)) == SFLAG_SET && MOf(MaskSr(ForceS(sr), srMask)) == MOf(sr)
  {
  }

  /** Both frames popped: the interrupt stack from the throwaway frame, the master stack from the other. */
  lemma TwoPops(stacks: (bv32, bv32, bv32), i: bv32, master: bv32)
    requires Plus(i, 8) == stacks.1 && Plus(master, 8) == stacks.2
    ensures var entered := (stacks.0, i, master);
            && ActiveStack(entered, SFLAG_SET, 0) == i
            && var popped := WithActiveStack(entered, SFLAG_SET, 0, Plus(i, 8));
               && ActiveStack(popped, SFLAG_SET, MFLAG_SET) == master
               && WithActiveStack(popped, SFLAG_SET, MFLAG_SET, Plus(master, 8)) == stacks
  {
    hide Plus;
  }

  /** RTE at the end of an interrupt handler that was entered with M set. */
  method ReturnFromTwoFrames(cpu: Cpu, ack: bv32, ghost stacks: (bv32, bv32, bv32), ghost dar: seq<bv32>,
                             ghost pc: bv32, ghost sr: bv32)
    requires cpu.Valid() && |dar| == 16 && IsEc020Plus(cpu.cpuType) && MOf(sr) == MFLAG_SET
    requires EnteredTwice(cpu, stacks, dar, pc, sr)
    requires !Pending(cpu.nmiPending, cpu.intLevel, MaskSr(sr, cpu.srMask))
    modifies cpu`t1, cpu`t0, cpu`sp, cpu`s, cpu`m, cpu`dar, cpu`mem, cpu`intMask, cpu`pc, cpu`stopped, cpu`nmiPending,
             cpu`x, cpu`n, cpu`notZ, cpu`v, cpu`c, cpu`runMode
    ensures cpu.Valid() && BackAt(cpu, stacks, dar, pc, MaskSr(sr, cpu.srMask))
  {
    hide KnownCpu, Modes, TraceAndMask, IsLevel, Sr, Ccr, StacksOf, ActiveStack, WithActiveStack,
         Plus, Minus, Bus, Read16, Read32, Top4, MaskSr, Pending, Interrupted, MOf, SOf, ForceS;
    ForcedModes(sr, cpu.cpuType, cpu.addressMask, cpu.srMask);
    PlusMinus(stacks.1, 8);
    PlusMinus(stacks.2, 8);
    TwoPops(stacks, Minus(stacks.1, 8), Minus(stacks.2, 8));
    ghost var d1 := cpu.dar;
    var finished := ReturnFromException(cpu, 1, ack);
    assert dar[15 := cpu.dar[15]] == d1[15 := cpu.dar[15]];
  }

  lemma NormalFramePops(cpuType: bv32)
    ensures FrameBytes(cpuType) == PoppedBytes(cpuType, 0) && FrameBytes(cpuType) != 0
  {
  }

  /**
   An interrupt that is taken, its request withdrawn by the handler, then RTE. With M
   set on a 68020 the two frames must not overlap.
   */
  method InterruptReturns(cpu: Cpu, level: bv32, ack: bv32, withdrawn: bv32)
    requires cpu.Valid() && level <= 7 && Taken(cpu.halted, level, ack)
    requires cpu.m != 0 && IsEc020Plus(cpu.cpuType) ==>
               FramesApart(cpu.addressMask, Minus(cpu.Stacks().1, 8), Minus(cpu.Stacks().2, 8))
    requires IsLevel(withdrawn) && !Pending(cpu.nmiPending, withdrawn, MaskSr(cpu.GetSr(), cpu.srMask))
    modifies cpu`t1, cpu`t0, cpu`sp, cpu`s, cpu`m, cpu`dar, cpu`mem, cpu`intMask, cpu`pc, cpu`stopped, cpu`nmiPending,
             cpu`x, cpu`n, cpu`notZ, cpu`v, cpu`c, cpu`runMode, cpu`intLevel
    ensures cpu.Valid() && Restored(cpu, old(cpu.pc))
  {
    hide KnownCpu, Modes, TraceAndMask, IsLevel, Sr, Ccr, StacksOf, MaskSr, Pending, Entered, EnteredTwice, BackAt, SOf,
         MOf,
         ActiveStack, InterruptTarget, InterruptVector, Taken, FramesApart, Minus, LevelBits, IsEc020Plus, FrameBytes,
         PoppedBytes, Marked;
    NormalFramePops(cpu.cpuType);
    TopOfStack(cpu);
    SrModes(cpu);
    ghost var st, d, m, s, sr := cpu.Stacks(), cpu.dar, cpu.m, cpu.s, cpu.GetSr();
    var twice := cpu.m != 0 && IsEc020Plus(cpu.cpuType);
    if twice {
      MasterMode(cpu.s, cpu.m);
    }
    ExceptionInterrupt(cpu, level, ack);
    cpu.intLevel := withdrawn;
    if twice {
      ReturnFromTwoFrames(cpu, ack, st, d, old(cpu.pc), sr);
    } else {
      ReturnFromEntry(cpu, ack, st, d, m, old(cpu.pc), sr, FrameBytes(cpu.cpuType), 0);
    }
    if MaskSr(sr, cpu.srMask) == sr {
      SameA7(cpu, st, d, old(cpu.pc), sr, s, m);
    }
  }
}
