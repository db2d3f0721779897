/**
 MOVEM.L (tools/r68k/musashi/m68k_in.c, movem): saving a list of registers below an
 address register and loading it back.
 */
module RegisterLists {
  import opened Memory68k
  import opened Cpu68k
  import opened Exceptions
  import opened ExtendedArithmetic

  /** register_list & (1 << i) */
  predicate InList(list: bv16, i: nat)
    requires i < 16
  {
    (list >> i) & 1 == 1
  }

  /**
   The list of a predecrement MOVEM names the registers from A7 down: it is that of a
   postincrement one read backwards.
   */
  predicate Mirrored(list: bv16, list': bv16) {
    forall i | 0 <= i < 16 :: InList(list', i) == InList(list, 15 - i)
  }

  /** How many registers from `r` on a (postincrement) list names. */
  function Count(list: bv16, r: nat): nat
    requires r <= 16
    decreases 16 - r
  {
    if r == 16 then 0 else Count(list, r + 1) + if InList(list, r) then 1 else 0
  }

  lemma {:induction false} CountBounds(list: bv16, r: nat)
    requires r <= 16
    ensures Count(list, r) <= 16 - r
    decreases 16 - r
  {
    hide InList;
    if r < 16 { CountBounds(list, r + 1); }
  }

  /** Registers further up have lower counts. */
  lemma {:induction false} CountFalls(list: bv16, q: nat, r: nat)
    requires q <= r <= 16
    ensures Count(list, r) <= Count(list, q)
    ensures q < r && InList(list, q) ==> Count(list, r) < Count(list, q)
    decreases r - q
  {
    hide InList;
    if q < r { CountFalls(list, q + 1, r); }
  }

  // ---------------------------------------------------------------------------
  // Where the registers go
  // ---------------------------------------------------------------------------

  /** The word after a long word's first one, which MOVEM stores by itself. */
  function SecondWord(mask: bv32, a: bv32, k: nat): bv32 { Bus(mask, Plus(Below(a, k), 2)) }

  /**
   The second word of a long word at `p` is where a load of the long word looks for it. On
   24 address lines the two part at the top: the store is carried round to the bottom of
   the address space, and the load goes on above it.
   */
  predicate LongFits(mask: bv32, p: bv32) { mask == 0xffffffff || p <= mask - 2 }

  /** -4 * k, for the sixteen registers there are */
  function Offset(k: nat): bv32 {
    if k == 0 then 0x0 else if k == 1 then 0xfffffffc else if k == 2 then 0xfffffff8 else if k == 3 then 0xfffffff4
    else if k == 4 then 0xfffffff0 else if k == 5 then 0xffffffec else if k == 6 then 0xffffffe8
    else if k == 7 then 0xffffffe4 else if k == 8 then 0xffffffe0 else if k == 9 then 0xffffffdc
    else if k == 10 then 0xffffffd8 else if k == 11 then 0xffffffd4 else if k == 12 then 0xffffffd0
    else if k == 13 then 0xffffffcc else if k == 14 then 0xffffffc8 else if k == 15 then 0xffffffc4 else 0xffffffc0
  }

  lemma OffsetStep(k: nat)
    requires k < 16
    ensures Offset(k + 1) == Offset(k) + 0xfffffffc
  {
  }

  /** `x` is the offset of a word of one place, and `y` that of another place. */
  predicate Offsetted(x: bv32, y: bv32) {
    x + 64 <= 66 && y + 64 <= 64 && x & 1 == 0 && y & 3 == 0 && x & 0xfffffffc != y
  }

  lemma Offsets(i: nat, k: nat)
    requires i <= 16 && k <= 16 && i != k
    ensures Offsetted(Offset(i), Offset(k)) && Offsetted(Offset(i) + 2, Offset(k))
  {
  }

  lemma FourLess(b: bv32)
    ensures Minus(b, 4) == Plus(b, 0xfffffffc)
  {
  }

  lemma {:induction false} BelowIsOffset(a: bv32, k: nat)
    requires k <= 16
    ensures Below(a, k) == Plus(a, Offset(k))
  {
    if k == 0 {
      assert Plus(a, 0) == a;
    } else {
      BelowIsOffset(a, k - 1);
      FourLess(Below(a, k - 1));
      PlusPlus(a, Offset(k - 1), 0xfffffffc);
      OffsetStep(k - 1);
      hide Offset, Plus, Minus;
    }
  }

  lemma Apart24(a: bv32, x: bv32, y: bv32)
    requires x + 64 <= 66 && y + 64 <= 64 && x & 1 == 0 && y & 3 == 0 && x & 0xfffffffc != y
    ensures WordLongApart((a + x) & 0xffffff, (a + y) & 0xffffff)
  {
  }

  lemma ApartAt24Plain(a: bv32, x: bv32, y: bv32)
    requires Offsetted(x, y)
    ensures WordLongApart((a + x) & 0xffffff, (a + y) & 0xffffff)
  {
    hide WordLongApart;
    Apart24(a, x, y);
  }

  lemma ApartAt24Half(a: bv32, x: bv32, y: bv32)
    requires Offsetted(x, y)
    ensures WordLongApart(Bus(0xffffff, Plus(a, x)), (a + y) & 0xffffff)
  {
    hide Bus, Plus, WordLongApart, Offsetted;
    BusPlus(0xffffff, a, x);
    ApartAt24Plain(a, x, y);
  }

  lemma ApartAt24(a: bv32, x: bv32, y: bv32)
    requires Offsetted(x, y)
    ensures WordLongApart(Bus(0xffffff, Plus(a, x)), Bus(0xffffff, Plus(a, y)))
  {
    hide Bus, Plus, WordLongApart, Offsetted;
    BusPlus(0xffffff, a, y);
    ApartAt24Half(a, x, y);
  }

  lemma Apart32(a: bv32, x: bv32, y: bv32)
    requires x + 64 <= 66 && y + 64 <= 64 && x & 1 == 0 && y & 3 == 0 && x & 0xfffffffc != y
    ensures WordLongApart((a + x) & 0xffffffff, (a + y) & 0xffffffff)
  {
  }

  lemma ApartAt32Plain(a: bv32, x: bv32, y: bv32)
    requires Offsetted(x, y)
    ensures WordLongApart((a + x) & 0xffffffff, (a + y) & 0xffffffff)
  {
    hide WordLongApart;
    Apart32(a, x, y);
  }

  lemma ApartAt32Half(a: bv32, x: bv32, y: bv32)
    requires Offsetted(x, y)
    ensures WordLongApart(Bus(0xffffffff, Plus(a, x)), (a + y) & 0xffffffff)
  {
    hide Bus, Plus, WordLongApart, Offsetted;
    BusPlus(0xffffffff, a, x);
    ApartAt32Plain(a, x, y);
  }

  lemma ApartAt32(a: bv32, x: bv32, y: bv32)
    requires Offsetted(x, y)
    ensures WordLongApart(Bus(0xffffffff, Plus(a, x)), Bus(0xffffffff, Plus(a, y)))
  {
    hide Bus, Plus, WordLongApart, Offsetted;
    BusPlus(0xffffffff, a, y);
    ApartAt32Half(a, x, y);
  }

  lemma ApartAt(mask: bv32, a: bv32, x: bv32, y: bv32)
    requires AddressMask(mask) && Offsetted(x, y)
    ensures WordLongApart(Bus(mask, Plus(a, x)), Bus(mask, Plus(a, y)))
  {
    hide Bus, Plus, WordLongApart, Offsetted;
    if mask == 0xffffff { ApartAt24(a, x, y); } else { ApartAt32(a, x, y); }
  }

  /**
   Neither word stored for one register lies where another register is loaded from, also
   where the address lines wrap around.
   */
  lemma PlacesApart(mask: bv32, a: bv32, i: nat, k: nat)
    requires AddressMask(mask) && 1 <= i <= 16 && 1 <= k <= 16 && i != k
    ensures WordLongApart(LimbAddress(mask, a, i), LimbAddress(mask, a, k))
    ensures WordLongApart(SecondWord(mask, a, i), LimbAddress(mask, a, k))
  {
    Offsets(i, k);
    hide Offset, Offsetted, WordLongApart, Bus, Plus, Below;
    BelowIsOffset(a, i);
    BelowIsOffset(a, k);
    PlusPlus(a, Offset(i), 2);
    ApartAt(mask, a, Offset(i), Offset(k));
    ApartAt(mask, a, Offset(i) + 2, Offset(k));
  }

  // ---------------------------------------------------------------------------
  // A long word written as two words
  // ---------------------------------------------------------------------------

  function Upper(v: bv32): bv32 { (v >> 16) & 0xffff }

  /** The low word first, then the high word. */
  function WriteHalves(m: Memory, p: bv32, q: bv32, v: bv32): Memory {
    Write16(Write16(m, q, Low16(v)), p, Upper(v))
  }

  /** The same, to a long word that lies whole in the address space. */
  function WriteAt(m: Memory, p: bv32, v: bv32): Memory { WriteHalves(m, p, p + 2, v) }

  lemma HalfBytes(v: bv32)
    ensures Join32(Lo8(Upper(v) >> 8), Lo8(Upper(v)), Lo8(Low16(v) >> 8), Lo8(Low16(v))) == v
  {
  }

  lemma HalvesRead(m: Memory, p: bv32, v: bv32)
    ensures Read32(WriteAt(m, p, v), p) == v
  {
    HalfBytes(v);
    hide Lo8, Low16, Upper, Join32;
    assert p != p + 1 && p != p + 2 && p != p + 3 && p + 1 != p + 2 && p + 1 != p + 3 && p + 2 != p + 3;
    assert (p + 2) + 1 == p + 3;
  }

  lemma HalvesKeep(m: Memory, p: bv32, q: bv32, v: bv32, b: bv32)
    requires WordLongApart(p, b) && WordLongApart(q, b)
    ensures Read32(WriteHalves(m, p, q, v), b) == Read32(m, b)
  {
    hide Read32, Write16, Low16, Upper, WordLongApart;
    WordKeepsLong(m, q, Low16(v), b);
    WordKeepsLong(Write16(m, q, Low16(v)), p, Upper(v), b);
  }

  lemma HalvesFrame(m: Memory, p: bv32, q: bv32, v: bv32, b: bv32)
    requires OutsideWord(p, b) && OutsideWord(q, b)
    ensures Byte(WriteHalves(m, p, q, v), b) == Byte(m, b)
  {
    hide Byte, Write16, Low16, Upper, OutsideWord;
    Frame16(m, q, Low16(v), b);
    Frame16(Write16(m, q, Low16(v)), p, Upper(v), b);
  }

  /** The upper word of `v` above the lower word of `before` */
  function Combine(v: bv32, before: bv32): bv32 { (v & 0xffff0000) | (before & 0xffff) }

  lemma CombineIs(w: bv32, v: bv32, before: bv32)
    requires Upper(w) == Upper(v) && Low16(w) == Low16(before)
    ensures w == Combine(v, before)
  {
  }

  lemma CombineSame(v: bv32, before: bv32)
    requires Low16(v) == Low16(before)
    ensures Combine(v, before) == v
  {
  }

  lemma CombineLow(v: bv32, before: bv32)
    ensures Low16(Combine(v, before)) == Low16(before)
  {
  }

  /**
   What a load from the place at `p` gives after the register's value `v` was stored there
   over a long word `before`.
   */
  function Kept(mask: bv32, p: bv32, before: bv32, v: bv32): bv32 {
    if LongFits(mask, p) then v else Combine(v, before)
  }

  /** A register comes back unless its place straddles the top and its low word was not there before. */
  lemma KeptExactly(mask: bv32, p: bv32, before: bv32, v: bv32)
    ensures Kept(mask, p, before, v) == v <==> LongFits(mask, p) || Low16(v) == Low16(before)
  {
    hide Combine, Low16, LongFits;
    CombineLow(v, before);
    if Low16(v) == Low16(before) { CombineSame(v, before); }
  }

  lemma NextWord24(ea: bv32)
    requires ea & 0xffffff <= 0xfffffd
    ensures (ea + 2) & 0xffffff == (ea & 0xffffff) + 2
  {
  }

  /** Both halves of a long word that lies whole in the address space are where reading it looks. */
  lemma NextWord(mask: bv32, ea: bv32)
    requires AddressMask(mask) && LongFits(mask, Bus(mask, ea))
    ensures Bus(mask, Plus(ea, 2)) == Bus(mask, ea) + 2
  {
    BusPlus(mask, ea, 2);
    BusIs(mask, ea);
    hide Bus, Plus;
    if mask == 0xffffff { NextWord24(ea); }
  }

  lemma CarriedRound(ea: bv32)
    requires ea & 0xffffff > 0xfffffd
    ensures WordsApart((ea + 2) & 0xffffff, (ea & 0xffffff) + 2) && WordsApart(ea & 0xffffff, (ea & 0xffffff) + 2)
  {
  }

  lemma StraddlingApart(mask: bv32, ea: bv32)
    requires AddressMask(mask) && !LongFits(mask, Bus(mask, ea))
    ensures WordsApart(Bus(mask, Plus(ea, 2)), Bus(mask, ea) + 2) && WordsApart(Bus(mask, ea), Bus(mask, ea) + 2)
  {
    BusPlus(mask, ea, 2);
    BusIs(mask, ea);
    hide Bus, Plus, WordsApart;
    CarriedRound(ea);
  }

  lemma LowOfJoin(b3: bv8, b2: bv8, b1: bv8, b0: bv8)
    ensures Low16(Join32(b3, b2, b1, b0)) == Join16(b1, b0) && Upper(Join32(b3, b2, b1, b0)) == Join16(b3, b2)
  {
  }

  lemma HalvesOf(m: Memory, p: bv32)
    ensures Low16(Read32(m, p)) == Read16(m, p + 2) && Upper(Read32(m, p)) == Read16(m, p)
  {
    assert (p + 2) + 1 == p + 3;
    LowOfJoin(Byte(m, p), Byte(m, p + 1), Byte(m, p + 2), Byte(m, p + 3));
    hide Low16, Upper, Join32, Join16, Byte;
  }

  lemma LowOfUpper(v: bv32)
    ensures Low16(Upper(v)) == Upper(v)
  {
  }

  lemma StraddlingRead(m: Memory, p: bv32, q: bv32, v: bv32)
    requires WordsApart(q, p + 2) && WordsApart(p, p + 2)
    ensures Read32(WriteHalves(m, p, q, v), p) == Combine(v, Read32(m, p))
  {
    hide Read16, Read32, Write16, Low16, Upper, WordsApart, Combine;
    var m1 := Write16(m, q, Low16(v));
    var m2 := Write16(m1, p, Upper(v));
    WordKeepsWord(m, q, Low16(v), p + 2);
    WordKeepsWord(m1, p, Upper(v), p + 2);
    ReadBack16(m1, p, Upper(v));
    LowOfUpper(v);
    HalvesOf(m, p);
    HalvesOf(m2, p);
    CombineIs(Read32(m2, p), v, Read32(m, p));
  }

  /** What a load gives right after the two stores. */
  lemma KeptAtOnce(m: Memory, mask: bv32, a: bv32, k: nat, v: bv32)
    requires AddressMask(mask)
    ensures var p := LimbAddress(mask, a, k);
            Read32(WriteHalves(m, p, SecondWord(mask, a, k), v), p) == Kept(mask, p, Read32(m, p), v)
  {
    hide AddressMask, LongFits, Bus, Plus, Below, Read32, Write16, Combine, WordsApart;
    var p := LimbAddress(mask, a, k);
    if LongFits(mask, p) {
      NextWord(mask, Below(a, k));
      HalvesRead(m, p, v);
    } else {
      StraddlingApart(mask, Below(a, k));
      StraddlingRead(m, p, SecondWord(mask, a, k), v);
    }
  }

  // ---------------------------------------------------------------------------
  // The instructions
  // ---------------------------------------------------------------------------

  /**
   The registers from `r` on that the list names are in memory, as far as their places
   allow; the places of the others are as they were in `m0`.
   */
  ghost predicate Saved(m0: Memory, m: Memory, mask: bv32, a: bv32, list: bv16, r: nat, dar: seq<bv32>)
    requires r <= 16 && |dar| == 16
  {
    forall q | 0 <= q < 16 && InList(list, q) ::
      var k := Count(list, q);
      Limb(m, mask, a, k)
      == if q < r then Limb(m0, mask, a, k) else Kept(mask, LimbAddress(mask, a, k), Limb(m0, mask, a, k), dar[q])
  }

  /** No byte outside the words stored changed. */
  ghost predicate OnlyPlaces(m0: Memory, m: Memory, mask: bv32, a: bv32, n: nat) {
    forall b: bv32 |
      forall k | 1 <= k <= n :: OutsideWord(LimbAddress(mask, a, k), b) && OutsideWord(SecondWord(mask, a, k), b) ::
      Byte(m, b) == Byte(m0, b)
  }

  /** The memory after register r was stored. */
  function Stored(m: Memory, mask: bv32, a: bv32, k: nat, v: bv32): Memory {
    WriteHalves(m, LimbAddress(mask, a, k), SecondWord(mask, a, k), v)
  }

  lemma CountsDiffer(list: bv16, r: nat, q: nat)
    requires r < 16 && q < 16 && InList(list, r) && InList(list, q)
    ensures 1 <= Count(list, r) <= Count(list, 0) <= 16
    ensures q != r ==> Count(list, q) != Count(list, r)
  {
    hide InList;
    CountBounds(list, 0);
    CountFalls(list, 0, r);
    CountFalls(list, r, 16);
    if r < q { CountFalls(list, r, q); } else { CountFalls(list, q, r); }
  }

  /** Storing register r leaves the place of any other register alone. */
  lemma StillSaved(m: Memory, mask: bv32, a: bv32, list: bv16, r: nat, q: nat, v: bv32)
    requires AddressMask(mask) && r < 16 && q < 16 && r != q && InList(list, r) && InList(list, q)
    ensures Limb(Stored(m, mask, a, Count(list, r), v), mask, a, Count(list, q)) == Limb(m, mask, a, Count(list, q))
  {
    hide InList, Count, WordLongApart, WriteHalves, Read32, LimbAddress, SecondWord, AddressMask;
    CountsDiffer(list, r, q);
    CountsDiffer(list, q, r);
    PlacesApart(mask, a, Count(list, r), Count(list, q));
    HalvesKeep(m, LimbAddress(mask, a, Count(list, r)), SecondWord(mask, a, Count(list, r)), v,
               LimbAddress(mask, a, Count(list, q)));
  }

  lemma SaveOne(m0: Memory, m: Memory, mask: bv32, a: bv32, list: bv16, r: nat, dar: seq<bv32>)
    requires AddressMask(mask) && r < 16 && |dar| == 16 && InList(list, r) && Saved(m0, m, mask, a, list, r + 1, dar)
    ensures Saved(m0, Stored(m, mask, a, Count(list, r), dar[r]), mask, a, list, r, dar)
  {
    hide InList, WriteHalves, Read32, AddressMask, Count, LimbAddress, SecondWord, Kept;
    KeptAtOnce(m, mask, a, Count(list, r), dar[r]);
    forall q | 0 <= q < 16 && InList(list, q) && q != r
      ensures Limb(Stored(m, mask, a, Count(list, r), dar[r]), mask, a, Count(list, q))
              == Limb(m, mask, a, Count(list, q))
    {
      StillSaved(m, mask, a, list, r, q, dar[r]);
    }
  }

  /** MOVEM.L list, -(Ay); `list'` is the same list for the way back. */
  method MovemPush(cpu: Cpu, y: nat, list: bv16, ghost list': bv16)
    requires cpu.Valid() && y < 8 && Mirrored(list, list')
    modifies cpu`mem, cpu`dar
    ensures cpu.Valid() && cpu.dar == old(cpu.dar)[8 + y := Below(old(cpu.dar)[8 + y], Count(list', 0))]
    ensures Saved(old(cpu.mem), cpu.mem, cpu.addressMask, old(cpu.dar)[8 + y], list', 0, old(cpu.dar))
    ensures OnlyPlaces(old(cpu.mem), cpu.mem, cpu.addressMask, old(cpu.dar)[8 + y], Count(list', 0))
  {
    hide KnownCpu, Modes, TraceAndMask, IsLevel, InList, Mirrored, Count, Below, Bus, Saved, OnlyPlaces;
    var ea := cpu.dar[8 + y];
    ghost var a, mask, m0 := ea, cpu.addressMask, cpu.mem;
    NothingSaved(m0, mask, a, list', cpu.dar);
    LastPulled(list', a);
    for i := 0 to 16
      invariant cpu.Valid() && cpu.addressMask == mask && cpu.dar == old(cpu.dar)
      invariant ea == Below(a, Count(list', 16 - i)) && Saved(m0, cpu.mem, mask, a, list', 16 - i, cpu.dar)
      invariant OnlyPlaces(m0, cpu.mem, mask, a, Count(list', 0))
    {
      ea := PushOne(cpu, list, list', i, ea, m0, a);
    }
    cpu.dar := cpu.dar[8 + y := ea];
  }

  /** One pass of its loop. */
  method PushOne(cpu: Cpu, list: bv16, ghost list': bv16, i: nat, ea: bv32, ghost m0: Memory,
                 ghost a: bv32) returns (ea': bv32)
    requires cpu.Valid() && i < 16 && Mirrored(list, list') && ea == Below(a, Count(list', 16 - i))
    requires Saved(m0, cpu.mem, cpu.addressMask, a, list', 16 - i, cpu.dar)
    requires OnlyPlaces(m0, cpu.mem, cpu.addressMask, a, Count(list', 0))
    modifies cpu`mem
    ensures cpu.Valid() && ea' == Below(a, Count(list', 15 - i))
    ensures Saved(m0, cpu.mem, cpu.addressMask, a, list', 15 - i, cpu.dar)
    ensures OnlyPlaces(m0, cpu.mem, cpu.addressMask, a, Count(list', 0))
  {
    hide KnownCpu, Modes, TraceAndMask, IsLevel, InList, WriteHalves, Bus, Plus, Minus, AddressMask, Saved, OnlyPlaces;
    KnownMask(cpu.cpuType, cpu.addressMask, cpu.srMask);
    ghost var r, mask := 15 - i, cpu.addressMask;
    assert InList(list, i) == InList(list', r);
    ea' := ea;
    if InList(list, i) {
      SaveOne(m0, cpu.mem, mask, a, list', r, cpu.dar);
      SaveTouches(m0, cpu.mem, mask, a, list', r, cpu.dar[r]);
      ea' := Minus(ea, 4);
      cpu.mem := WriteHalves(cpu.mem, cpu.Address(ea'), cpu.Address(Plus(ea', 2)), cpu.dar[15 - i]);
    } else {
      SkipOne(m0, cpu.mem, mask, a, list', r, cpu.dar);
    }
  }

  lemma NothingSaved(m: Memory, mask: bv32, a: bv32, list: bv16, dar: seq<bv32>)
    requires |dar| == 16
    ensures Saved(m, m, mask, a, list, 16, dar) && OnlyPlaces(m, m, mask, a, Count(list, 0))
  {
  }

  lemma SkipOne(m0: Memory, m: Memory, mask: bv32, a: bv32, list: bv16, r: nat, dar: seq<bv32>)
    requires r < 16 && |dar| == 16 && !InList(list, r) && Saved(m0, m, mask, a, list, r + 1, dar)
    ensures Saved(m0, m, mask, a, list, r, dar)
  {
    hide InList, Kept, Limb, LimbAddress, Count;
  }

  lemma SaveTouches(m0: Memory, m: Memory, mask: bv32, a: bv32, list: bv16, r: nat, v: bv32)
    requires r < 16 && InList(list, r) && OnlyPlaces(m0, m, mask, a, Count(list, 0))
    ensures OnlyPlaces(m0, Stored(m, mask, a, Count(list, r), v), mask, a, Count(list, 0))
  {
    hide InList, WriteHalves, Byte, OutsideWord, Count, LimbAddress, SecondWord;
    CountsDiffer(list, r, r);
    var n, p, q := Count(list, 0), LimbAddress(mask, a, Count(list, r)), SecondWord(mask, a, Count(list, r));
    forall b: bv32 |
      forall k | 1 <= k <= n :: OutsideWord(LimbAddress(mask, a, k), b) && OutsideWord(SecondWord(mask, a, k), b)
      ensures Byte(WriteHalves(m, p, q, v), b) == Byte(m0, b)
    {
      HalvesFrame(m, p, q, v, b);
    }
  }

  /** MOVEM.L (Ay)+, list, from where the registers were saved below `a`. */
  method MovemPull(cpu: Cpu, y: nat, list: bv16, ghost a: bv32)
    requires cpu.Valid() && y < 8 && cpu.dar[8 + y] == Below(a, Count(list, 0))
    modifies cpu`dar
    ensures cpu.Valid() && cpu.dar[8 + y] == a
    ensures forall r | 0 <= r < 16 && r != 8 + y ::
              cpu.dar[r] == if InList(list, r)
                  then Limb(cpu.mem, cpu.addressMask, a, Count(list, r)) else old(cpu.dar)[r]
  {
    hide KnownCpu, Modes, TraceAndMask, IsLevel, InList, Count, Below, Limb;
    var ea := cpu.dar[8 + y];
    for i := 0 to 16
      invariant cpu.Valid() && ea == Below(a, Count(list, i))
      invariant forall r | i <= r < 16 :: cpu.dar[r] == old(cpu.dar)[r]
      invariant forall r | 0 <= r < i ::
                  cpu.dar[r] == if InList(list, r)
                      then Limb(cpu.mem, cpu.addressMask, a, Count(list, r)) else old(cpu.dar)[r]
    {
      ea := PullOne(cpu, list, i, ea, a);
    }
    LastPulled(list, a);
    cpu.dar := cpu.dar[8 + y := ea];
  }

  lemma LastPulled(list: bv16, a: bv32)
    ensures Below(a, Count(list, 16)) == a
  {
  }

  /** One pass of its loop. */
  method PullOne(cpu: Cpu, list: bv16, i: nat, ea: bv32, ghost a: bv32) returns (ea': bv32)
    requires cpu.Valid() && i < 16 && ea == Below(a, Count(list, i))
    modifies cpu`dar
    ensures cpu.Valid() && ea' == Below(a, Count(list, i + 1))
    ensures cpu.dar == if InList(list, i) then old(cpu.dar)[i := Limb(cpu.mem, cpu.addressMask, a, Count(list, i))]
            else old(cpu.dar)
  {
    hide KnownCpu, Modes, TraceAndMask, IsLevel, InList, Bus, Plus, Minus, Read32;
    ea' := ea;
    if InList(list, i) {
      cpu.dar := cpu.dar[i := Read32(cpu.mem, cpu.Address(ea))];
      PlusMinus(Below(a, Count(list, i + 1)), 4);
      ea' := Plus(ea, 4);
    }
  }

  /**
   Saving a list, using every register but Ay for something else, and loading the list
   back. Ay is as it was, also if the list names it. Any other register of the list is as
   it was if and only if its place does not straddle the top of a 24-bit address space, or
   its low word happens to be what a load from that place would have found before.
   */
  method SaveAndRestore(cpu: Cpu, y: nat, list: bv16, list': bv16, scratch: seq<bv32>)
    requires cpu.Valid() && y < 8 && Mirrored(list, list') && |scratch| == 16
    modifies cpu`mem, cpu`dar
    ensures cpu.Valid() && cpu.dar[8 + y] == old(cpu.dar)[8 + y]
    ensures forall r | 0 <= r < 16 && r != 8 + y && !InList(list', r) :: cpu.dar[r] == scratch[r]
    ensures forall r | 0 <= r < 16 && r != 8 + y && InList(list', r) ::
              var p := LimbAddress(cpu.addressMask, old(cpu.dar)[8 + y], Count(list', r));
              var v, before := old(cpu.dar)[r], Read32(old(cpu.mem), p);
              && cpu.dar[r] == Kept(cpu.addressMask, p, before, v)
              && (cpu.dar[r] == v <==> LongFits(cpu.addressMask, p) || Low16(v) == Low16(before))
    ensures OnlyPlaces(old(cpu.mem), cpu.mem, cpu.addressMask, old(cpu.dar)[8 + y], Count(list', 0))
  {
    hide KnownCpu, Modes, TraceAndMask, IsLevel, InList, Mirrored, Count, Below, OnlyPlaces, LimbAddress, Read32, Kept,
         LongFits, Low16;
    ghost var a, m0, d0 := cpu.dar[8 + y], cpu.mem, cpu.dar;
    MovemPush(cpu, y, list, list');
    cpu.dar := scratch[8 + y := cpu.dar[8 + y]];
    MovemPull(cpu, y, list', a);
    forall r | 0 <= r < 16 && r != 8 + y && InList(list', r)
      ensures var p := LimbAddress(cpu.addressMask, a, Count(list', r));
              && cpu.dar[r] == Kept(cpu.addressMask, p, Read32(m0, p), d0[r])
              && (cpu.dar[r] == d0[r] <==> LongFits(cpu.addressMask, p) || Low16(d0[r]) == Low16(Read32(m0, p)))
    {
      var p := LimbAddress(cpu.addressMask, a, Count(list', r));
      KeptExactly(cpu.addressMask, p, Read32(m0, p), d0[r]);
    }
  }

  // ---------------------------------------------------------------------------
  // A register that does not come back
  // ---------------------------------------------------------------------------

  /** D0 alone, for the way there and the way back */
  const D0_SAVED: bv16 := 0x8000
  const D0_LOADED: bv16 := 0x0001

  lemma OnlyD0(i: nat)
    requires i < 16
    ensures (InList(D0_LOADED, i) <==> i == 0) && (InList(D0_SAVED, i) <==> i == 15)
  {
    assert i == 0 || i == 1 || i == 2 || i == 3 || i == 4 || i == 5 || i == 6 || i == 7 || i == 8 || i == 9 || i == 10
           || i == 11 || i == 12 || i == 13 || i == 14 || i == 15;
  }

  lemma {:induction false} NothingAbove(r: nat)
    requires 1 <= r <= 16
    ensures Count(D0_LOADED, r) == 0
    decreases 16 - r
  {
    hide InList;
    if r < 16 {
      OnlyD0(r);
      NothingAbove(r + 1);
    }
  }

  lemma D0Lists()
    ensures Mirrored(D0_SAVED, D0_LOADED) && InList(D0_LOADED, 0) && Count(D0_LOADED, 0) == 1
  {
    hide InList;
    OnlyD0(0);
    NothingAbove(1);
    forall i | 0 <= i < 16
      ensures InList(D0_LOADED, i) == InList(D0_SAVED, 15 - i)
    {
      OnlyD0(i);
      OnlyD0(15 - i);
    }
  }

  lemma PlaceAtTop()
    ensures LimbAddress(0xffffff, 2, 1) == 0xfffffe && !LongFits(0xffffff, 0xfffffe)
  {
    assert Below(2, 0) == 2;
  }

  lemma CombineExample(before: bv32)
    requires Low16(before) == 0
    ensures Combine(0x12345678, before) == 0x12340000
  {
  }

  /** On a 68000 whose A7 is 2, with zeros above the address space: of D0 only the upper word comes back. */
  method LostAtTop(cpu: Cpu, scratch: seq<bv32>)
    requires cpu.Valid() && cpu.cpuType == CPU_TYPE_000 && cpu.addressMask == 0xffffff && |scratch| == 16
    requires cpu.dar[15] == 2 && cpu.dar[0] == 0x12345678 && Low16(Read32(cpu.mem, 0xfffffe)) == 0
    modifies cpu`mem, cpu`dar
    ensures cpu.Valid() && cpu.dar[15] == 2 && cpu.dar[0] == 0x12340000
  {
    hide KnownCpu, Modes, TraceAndMask, IsLevel, InList, Mirrored, Count, LimbAddress, OnlyPlaces, Read32, LongFits,
         Low16,
         Combine;
    D0Lists();
    PlaceAtTop();
    CombineExample(Read32(cpu.mem, 0xfffffe));
    SaveAndRestore(cpu, 7, D0_SAVED, D0_LOADED, scratch);
  }
}
