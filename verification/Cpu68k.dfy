/**
 The part of the Musashi 68k core (tools/r68k/musashi/m68kcpu.h, m68kcpu.c) that
 holds the processor state: registers, the three banked stack pointers, the status
 register and its flags, and the stack.
 */
module Cpu68k {
  import opened Memory68k

  const SFLAG_SET: bv32 := 4
  const MFLAG_SET: bv32 := 2

  const CPU_TYPE_000: bv32 := 0x001
  const CPU_TYPE_010: bv32 := 0x004
  const CPU_TYPE_EC020: bv32 := 0x008
  const CPU_TYPE_020: bv32 := 0x010
  const CPU_TYPE_EC030: bv32 := 0x020
  const CPU_TYPE_030: bv32 := 0x040
  const CPU_TYPE_EC040: bv32 := 0x080
  const CPU_TYPE_LC040: bv32 := 0x100
  const CPU_TYPE_040: bv32 := 0x200
  const CPU_TYPE_SCC070: bv32 := 0x400

  /**
   The rows of m68k_set_cpu_type: type, address mask, status register mask. The row of
   the 68LC040 leaves the address mask as it was.
   */
  predicate KnownCpu(cpuType: bv32, addressMask: bv32, srMask: bv32) {
    || ((cpuType == CPU_TYPE_000 || cpuType == CPU_TYPE_010) && addressMask == 0x00ffffff && srMask == 0xa71f)
    || (cpuType == CPU_TYPE_SCC070 && addressMask == 0xffffffff && srMask == 0xa71f)
    || (cpuType == CPU_TYPE_EC020 && addressMask == 0x00ffffff && srMask == 0xf71f)
    || ((cpuType == CPU_TYPE_020 || cpuType == CPU_TYPE_EC030 || cpuType == CPU_TYPE_030
         || cpuType == CPU_TYPE_EC040 || cpuType == CPU_TYPE_040) && addressMask == 0xffffffff && srMask == 0xf71f)
    || (cpuType == CPU_TYPE_LC040 && (addressMask == 0x00ffffff || addressMask == 0xffffffff) && srMask == 0xf71f)
  }

  lemma ProcessorTable()
    ensures KnownCpu(CPU_TYPE_000, 0x00ffffff, 0xa71f) && KnownCpu(CPU_TYPE_010, 0x00ffffff, 0xa71f)
    ensures KnownCpu(CPU_TYPE_SCC070, 0xffffffff, 0xa71f) && KnownCpu(CPU_TYPE_EC020, 0x00ffffff, 0xf71f)
    ensures KnownCpu(CPU_TYPE_020, 0xffffffff, 0xf71f) && KnownCpu(CPU_TYPE_EC030, 0xffffffff, 0xf71f)
    ensures KnownCpu(CPU_TYPE_030, 0xffffffff, 0xf71f) && KnownCpu(CPU_TYPE_EC040, 0xffffffff, 0xf71f)
    ensures KnownCpu(CPU_TYPE_040, 0xffffffff, 0xf71f) && KnownCpu(CPU_TYPE_LC040, 0xffffffff, 0xf71f)
  {
  }

  /** The bits that CPU_TYPE_IS_EC020_PLUS tests */
  lemma Ec020PlusBits(cpuType: bv32, addressMask: bv32, srMask: bv32)
    requires KnownCpu(cpuType, addressMask, srMask)
    ensures IsEc020Plus(cpuType) <==>
              cpuType & (CPU_TYPE_EC020 | CPU_TYPE_020 | CPU_TYPE_EC030 | CPU_TYPE_030 | CPU_TYPE_EC040
                  | CPU_TYPE_040) != 0
    ensures Is010Less(cpuType) <==> cpuType & (CPU_TYPE_000 | CPU_TYPE_010) != 0
  {
  }

  predicate Is010Less(cpuType: bv32) { cpuType == CPU_TYPE_000 || cpuType == CPU_TYPE_010 }

  /** CPU_TYPE_IS_EC020_PLUS, which the 68LC040 and the SCC68070 do not meet */
  predicate IsEc020Plus(cpuType: bv32) {
    !Is010Less(cpuType) && cpuType != CPU_TYPE_LC040 && cpuType != CPU_TYPE_SCC070
  }

  // ---------------------------------------------------------------------------
  // The status register
  // ---------------------------------------------------------------------------

  predicate Modes(s: bv32, m: bv32) {
    (s == 0 || s == SFLAG_SET) && (m == 0 || m == MFLAG_SET)
  }

  /** m68ki_get_ccr: only some bits of each stored flag are meaningful. */
  function Ccr(x: bv32, n: bv32, notZ: bv32, v: bv32, c: bv32): bv32 {
    ((x & 0x100) >> 4) | ((n & 0x80) >> 4) | (if notZ == 0 then 4 else 0) | ((v & 0x80) >> 6) | ((c & 0x100) >> 8)
  }

  /** m68ki_get_sr, from the system byte's fields and the condition codes */
  function Sr(t1: bv32, t0: bv32, s: bv32, m: bv32, intMask: bv32, ccr: bv32): bv32 {
    t1 | t0 | (s << 11) | (m << 11) | intMask | ccr
  }

  /** An interrupt level, held where the status register keeps its mask. */
  predicate IsLevel(level: bv32) { level & 0x0700 == level }

  predicate TraceAndMask(t1: bv32, t0: bv32, intMask: bv32) {
    (t1 == 0 || t1 == 0x8000) && (t0 == 0 || t0 == 0x4000) && intMask & 0x0700 == intMask
  }

  // What m68ki_set_sr_noint and m68ki_set_ccr store, for an already masked value
  function T1Of(value: bv32): bv32 { value & 0x8000 }
  function T0Of(value: bv32): bv32 { value & 0x4000 }
  function MaskOf(value: bv32): bv32 { value & 0x0700 }
  function XOf(value: bv32): bv32 { (value & 0x10) << 4 }
  function NOf(value: bv32): bv32 { (value & 0x08) << 4 }
  function NotZOf(value: bv32): bv32 { if value & 0x04 != 0 then 0 else 1 }
  function VOf(value: bv32): bv32 { (value & 0x02) << 6 }
  function COf(value: bv32): bv32 { (value & 0x01) << 8 }
  function SOf(value: bv32): bv32 { ((value >> 11) & 6) & SFLAG_SET }
  function MOf(value: bv32): bv32 { ((value >> 11) & 6) & MFLAG_SET }

  lemma CcrOfValue(w: bv32)
    ensures Ccr(XOf(w), NOf(w), NotZOf(w), VOf(w), COf(w)) == w & 0x1f
  {
  }

  lemma ModesOfValue(w: bv32)
    ensures Modes(SOf(w), MOf(w)) && (SOf(w) << 11) == w & 0x2000 && (MOf(w) << 11) == w & 0x1000
    ensures TraceAndMask(T1Of(w), T0Of(w), MaskOf(w))
  {
  }

  /** Storing a status register value and reading it back. */
  lemma SrOfValue(w: bv32)
    requires w & 0xf71f == w
    ensures Sr(T1Of(w), T0Of(w), SOf(w), MOf(w), MaskOf(w), w & 0x1f) == w
  {
    ModesOfValue(w);
    hide SOf, MOf;
  }

  /** The bits of a status register value that the processor implements. */
  function MaskSr(value: bv32, mask: bv32): bv32 { value & mask }

  lemma MaskedSr(value: bv32, cpuType: bv32, addressMask: bv32, mask: bv32)
    requires KnownCpu(cpuType, addressMask, mask)
    ensures MaskSr(value, mask) & 0xf71f == MaskSr(value, mask)
  {
  }

  /** The status register fits the widest mask, and holds S and M where setting it looks for them. */
  lemma SrFields(t1: bv32, t0: bv32, s: bv32, m: bv32, intMask: bv32, x: bv32, n: bv32, notZ: bv32, v: bv32, c: bv32)
    requires TraceAndMask(t1, t0, intMask) && Modes(s, m)
    ensures var sr := Sr(t1, t0, s, m, intMask, Ccr(x, n, notZ, v, c));
            sr & 0xf71f == sr && SOf(sr) == s && MOf(sr) == m && MaskOf(sr) == intMask && T1Of(sr) == t1
                && T0Of(sr) == t0
  {
  }

  /** `FLAG_S | ((FLAG_S >> 1) & FLAG_M)`: which slot of sp[7] backs the active stack pointer. */
  function Bank(s: bv32, m: bv32): (i: int)
    requires Modes(s, m)
    ensures 0 <= i < 7
    ensures i == if s == 0 then 0 else if m == 0 then 4 else 6
  {
    (s | ((s >> 1) & m)) as int
  }

  /** USP, ISP and MSP, as m68k_get_reg reports them: the active one is A7, the others are in their slots. */
  function StacksOf(sp: seq<bv32>, a7: bv32, s: bv32, m: bv32): (bv32, bv32, bv32)
    requires |sp| == 7
  {
    (if s != 0 then sp[0] else a7,
     if s != 0 && m == 0 then a7 else sp[4],
     if s != 0 && m != 0 then a7 else sp[6])
  }

  /** Saving A7 in its slot and loading it from another moves no stack pointer. */
  lemma SwitchKeepsStacks(sp: seq<bv32>, a7: bv32, s: bv32, m: bv32, s': bv32, m': bv32)
    requires |sp| == 7 && Modes(s, m) && Modes(s', m')
    ensures var sp' := sp[Bank(s, m) := a7];
            StacksOf(sp', sp'[Bank(s', m')], s', m') == StacksOf(sp, a7, s, m)
  {
    hide Bank;
  }

  /** RUN_MODE_NORMAL, RUN_MODE_BERR_AERR_RESET_WSF, RUN_MODE_BERR_AERR_RESET */
  datatype RunMode = Normal | WritingStackFrame | StackFrameDone

  /** The bit of FLAG_N and FLAG_V that counts. */
  predicate Set80(flag: bv32) { flag & 0x80 != 0 }

  class Cpu {
    const cpuType: bv32
    const addressMask: bv32
    const srMask: bv32
    var mem: Memory
    var dar: seq<bv32>
    var darSave: seq<bv32>
    var sp: seq<bv32>
    var pc: bv32
    var ppc: bv32
    var vbr: bv32
    var t1: bv32
    var t0: bv32
    var s: bv32
    var m: bv32
    var x: bv32
    var n: bv32
    var notZ: bv32
    var v: bv32
    var c: bv32
    var intMask: bv32
    var intLevel: bv32
    var nmiPending: bool
    var stopped: bool
    var halted: bool
    var runMode: RunMode

    ghost predicate Valid()
      reads this
    {
      && KnownCpu(cpuType, addressMask, srMask) && |dar| == 16 && |darSave| == 16 && |sp| == 7
      && Modes(s, m) && TraceAndMask(t1, t0, intMask) && IsLevel(intLevel)
    }

    constructor (cpuType: bv32, addressMask: bv32, srMask: bv32, mem: Memory)
      requires KnownCpu(cpuType, addressMask, srMask)
      ensures Valid() && this.cpuType == cpuType && this.mem == mem
    {
      this.cpuType, this.addressMask, this.srMask, this.mem := cpuType, addressMask, srMask, mem;
      dar, darSave, sp := seq(16, _ => 0), seq(16, _ => 0), seq(7, _ => 0);
      pc, ppc, vbr, intMask, intLevel, nmiPending, stopped, halted, runMode := 0, 0, 0, 0x0700, 0, false, false, false,
          Normal;
      t1, t0, s, m, x, n, notZ, v, c := 0, 0, SFLAG_SET, 0, 0, 0, 0, 0, 0;
    }

    /** ADDRESS_68K */
    function Address(a: bv32): bv32 { Bus(addressMask, a) }

    /** The USP, ISP and MSP cases of m68k_get_reg */
    function Stacks(): (bv32, bv32, bv32)
      requires |dar| == 16 && |sp| == 7
      reads this`sp, this`dar, this`s, this`m
    {
      StacksOf(sp, dar[15], s, m)
    }

    /** The SR case of m68k_get_reg */
    function GetSr(): bv32
      reads this`t1, this`t0, this`s, this`m, this`intMask, this`x, this`n, this`notZ, this`v, this`c
    {
      Sr(t1, t0, s, m, intMask, Ccr(x, n, notZ, v, c))
    }

    /** m68ki_set_sm_flag; m68ki_set_s_flag is the case where M is left alone. */
    method SetModes(s': bv32, m': bv32)
      requires Valid() && Modes(s', m')
      modifies this`sp, this`s, this`m, this`dar
      ensures Valid() && s == s' && m == m'
      ensures Stacks() == old(Stacks())
      ensures dar == old(dar)[15 := dar[15]]
    {
      hide Bank, KnownCpu, StacksOf, TraceAndMask, IsLevel;
      SwitchKeepsStacks(sp, dar[15], s, m, s', m');
      sp := sp[Bank(s, m) := dar[15]];
      s, m := s', m';
      dar := dar[15 := sp[Bank(s, m)]];
    }

    /** Over any sequence of mode changes the three stack pointers keep their values. */
    method ChangeModes(values: seq<bv32>)
      requires Valid()
      modifies this`sp, this`s, this`m, this`dar
      ensures Valid() && Stacks() == old(Stacks())
      ensures dar == old(dar)[15 := dar[15]]
      ensures values != [] ==> s == values[|values| - 1] & SFLAG_SET && m == values[|values| - 1] & MFLAG_SET
    {
      hide StacksOf, KnownCpu, TraceAndMask, IsLevel;
      for i := 0 to |values|
        invariant Valid() && Stacks() == old(Stacks()) && dar == old(dar)[15 := dar[15]]
        invariant i > 0 ==> s == values[i - 1] & SFLAG_SET && m == values[i - 1] & MFLAG_SET
      {
        SetModes(values[i] & SFLAG_SET, values[i] & MFLAG_SET);
      }
    }

    /** m68ki_set_ccr */
    method SetCcr(w: bv32)
      modifies this`x, this`n, this`notZ, this`v, this`c
      ensures Ccr(x, n, notZ, v, c) == w & 0x1f
    {
      hide Ccr, XOf, NOf, NotZOf, VOf, COf;
      x, n, notZ, v, c := XOf(w), NOf(w), NotZOf(w), VOf(w), COf(w);
      CcrOfValue(w);
    }

    /** m68ki_set_sr_noint */
    method SetSrNoInt(value: bv32)
      requires Valid()
      modifies this`t1, this`t0, this`intMask, this`x, this`n, this`notZ, this`v, this`c, this`sp, this`s, this`m,
          this`dar
      ensures Valid() && GetSr() == MaskSr(value, srMask)
      ensures s == SOf(MaskSr(value, srMask)) && m == MOf(MaskSr(value, srMask))
      ensures intMask == MaskOf(MaskSr(value, srMask))
      ensures Stacks() == old(Stacks())
      ensures dar == old(dar)[15 := dar[15]]
    {
      hide KnownCpu, StacksOf, Modes, TraceAndMask, IsLevel, Sr, Ccr, T1Of, T0Of, MaskOf, SOf, MOf, MaskSr;
      var w := MaskSr(value, srMask);
      MaskedSr(value, cpuType, addressMask, srMask);
      SrOfValue(w);
      ModesOfValue(w);
      t1, t0, intMask := T1Of(w), T0Of(w), MaskOf(w);
      SetCcr(w);
      SetModes(SOf(w), MOf(w));
    }

    /** m68ki_push_16 */
    method Push16(value: bv32)
      requires Valid()
      modifies this`dar, this`mem
      ensures Valid() && dar == old(dar)[15 := Minus(old(dar)[15], 2)]
      ensures mem == Write16(old(mem), Address(dar[15]), value)
    {
      dar := dar[15 := Minus(dar[15], 2)];
      mem := Write16(mem, Address(dar[15]), value);
    }

    /** m68ki_push_32 */
    method Push32(value: bv32)
      requires Valid()
      modifies this`dar, this`mem
      ensures Valid() && dar == old(dar)[15 := Minus(old(dar)[15], 4)]
      ensures mem == Write32(old(mem), Address(dar[15]), value)
    {
      dar := dar[15 := Minus(dar[15], 4)];
      mem := Write32(mem, Address(dar[15]), value);
    }

    /** m68ki_pull_16 */
    method Pull16() returns (value: bv32)
      requires Valid()
      modifies this`dar
      ensures Valid() && dar == old(dar)[15 := Plus(old(dar)[15], 2)]
      ensures value == Read16(mem, Address(old(dar)[15]))
    {
      dar := dar[15 := Plus(dar[15], 2)];
      value := Read16(mem, Address(Minus(dar[15], 2)));
    }

    /** m68ki_pull_32 */
    method Pull32() returns (value: bv32)
      requires Valid()
      modifies this`dar
      ensures Valid() && dar == old(dar)[15 := Plus(old(dar)[15], 4)]
      ensures value == Read32(mem, Address(old(dar)[15]))
    {
      dar := dar[15 := Plus(dar[15], 4)];
      value := Read32(mem, Address(Minus(dar[15], 4)));
    }

    /**
     m68ki_fake_push_16, m68ki_fake_push_32, m68ki_fake_pull_16, m68ki_fake_pull_32: move
     A7 without touching memory.
     */
    method MoveStack(delta: bv32)
      requires Valid()
      modifies this`dar
      ensures Valid() && dar == old(dar)[15 := Plus(old(dar)[15], delta)]
    {
      dar := dar[15 := Plus(dar[15], delta)];
    }
  }
}
