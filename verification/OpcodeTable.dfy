/**
 The opcode dispatch table of the Musashi core: m68ki_build_opcode_table
 (tools/r68k/musashi/m68k_in.c) fills it in stages, one per kind of mask, from a list
 that the generator sorts by number of mask bits (m68kmake.c).
 */
module OpcodeTable {

  /** A handler, named by a number; 0 is m68k_op_illegal. */
  type Handler = nat

  /** opcode_handler_struct; the cycles are those of the five processor types. */
  datatype Entry = Entry(handler: Handler, mask: bv16, match_: bv16, cycles: seq<bv8>)

  /** What the two tables hold for one opcode. */
  datatype Slot = Slot(handler: Handler, cycles: seq<bv8>)

  type Table = bv16 -> Slot

  const ILLEGAL: Slot := Slot(0, [0, 0, 0, 0, 0])

  predicate Inside(mask: bv16, match_: bv16) { match_ & mask == match_ }

  predicate WellFormed(e: Entry) { |e.cycles| == 5 && Inside(e.mask, e.match_) }

  predicate MatchBits(mask: bv16, match_: bv16, op: bv16) { op & mask == match_ }

  predicate Matches(e: Entry, op: bv16) { MatchBits(e.mask, e.match_, op) }

  // ---------------------------------------------------------------------------
  // What the table should hold
  // ---------------------------------------------------------------------------

  /** A shift or rotate whose distance is in the opcode. */
  predicate StaticShift(op: bv16) { op & 0xf000 == 0xe000 && op & 0x20 == 0 }

  /** The distance field: 1 to 7, and 0 for 8. */
  function Distance(op: bv16): bv8 { if (op >> 9) & 7 == 0 then 8 else ((op >> 9) & 7) as bv8 }

  /** Shifting takes two more cycles a bit on the first two processors, if the third stage (`timed`) enters it. */
  function Cycles(e: Entry, op: bv16, timed: bool): seq<bv8>
    requires |e.cycles| == 5
  {
    if timed && e.mask == 0xf1f8 && StaticShift(op) then
      e.cycles[0 := Add(e.cycles[0], Twice(Distance(op)))][1 := Add(e.cycles[1], Twice(Distance(op)))]
    else
      e.cycles
  }

  /** On an unsigned char. */
  function Add(a: bv8, b: bv8): bv8 { a + b }

  function Twice(n: bv8): bv8 { 2 * n }

  function SlotOf(e: Entry, op: bv16, timed: bool): Slot
    requires |e.cycles| == 5
  {
    Slot(e.handler, Cycles(e, op, timed))
  }

  /**
   The slot of the last of the first k entries that matches; none is illegal. Entries
   before the first 0xff00 are not timed.
   */
  function Lookup(es: seq<Entry>, k: nat, op: bv16): Slot
    requires k <= |es| && AllWellFormed(es)
  {
    if k == 0 then ILLEGAL
    else if Matches(es[k - 1], op) then SlotOf(es[k - 1], op, k > First(es, 0))
    else Lookup(es, k - 1, op)
  }

  /** The first entry from k on with mask 0xff00; the length of the list if there is none. */
  function First(es: seq<Entry>, k: nat): (f: nat)
    requires k <= |es|
    ensures k <= f <= |es|
    ensures f < |es| ==> es[f].mask == 0xff00
    ensures forall i | k <= i < f :: es[i].mask != 0xff00
    decreases |es| - k
  {
    if k == |es| || es[k].mask == 0xff00 then k else First(es, k + 1)
  }

  predicate AllWellFormed(es: seq<Entry>) { forall e | e in es :: |e.cycles| == 5 && WellFormed(e) }

  /** Entry e has been entered: its opcodes hold its slot, the others what they held. */
  ghost predicate Stamped(t: Table, t': Table, e: Entry, timed: bool)
    requires |e.cycles| == 5
  {
    forall op: bv16 :: t'(op) == if Matches(e, op) then SlotOf(e, op, timed) else t(op)
  }

  // ---------------------------------------------------------------------------
  // The stages
  // ---------------------------------------------------------------------------

  function Put(t: Table, op: bv16, s: Slot): Table { (x: bv16) => if x == op then s else t(x) }

  /** ((((i-1)&7)+1)<<1) */
  function CycleCost(i: bv16): bv8 { ((((i - 1) & 7) + 1) << 1) as bv8 }

  lemma CostIsTwiceDistance(op: bv16)
    ensures CycleCost((op >> 9) & 7) == Twice(Distance(op))
  {
  }

  /** The opcodes of e that `written` holds have been entered. */
  ghost predicate Partly(t: Table, t': Table, e: Entry, timed: bool, written: bv16 -> bool)
    requires |e.cycles| == 5
  {
    forall op: bv16 :: t'(op) == if written(op) then SlotOf(e, op, timed) else t(op)
  }

  lemma PutOne(t: Table, t': Table, e: Entry, timed: bool, written: bv16 -> bool, written': bv16 -> bool, op: bv16)
    requires |e.cycles| == 5 && Partly(t, t', e, timed, written)
    requires forall x: bv16 :: written'(x) <==> written(x) || x == op
    ensures Partly(t, Put(t', op, SlotOf(e, op, timed)), e, timed, written')
  {
    hide SlotOf;
  }

  lemma AllDone(t: Table, t': Table, e: Entry, timed: bool, written: bv16 -> bool)
    requires |e.cycles| == 5 && Partly(t, t', e, timed, written)
    requires forall x: bv16 :: written(x) <==> Matches(e, x)
    ensures Stamped(t, t', e, timed)
  {
    hide SlotOf, Matches;
  }

  // Which opcodes each stage has reached, step by step.

  /** The number of an opcode in the first stage's loop. */
  function Number(op: bv16): (n: int)
    ensures 0 <= n < 0x10000
  {
    op as int
  }

  lemma Numbered(op: bv16)
    ensures Number(op) as bv16 == op
  {
  }

  // Fields of an opcode, and opcodes put together from a match value and fields.
  function Low(op: bv16, top: bv16): bv16 { op & top }
  function Field(op: bv16): bv16 { (op >> 9) & 7 }
  function WithLow(match_: bv16, i: bv16): bv16 { match_ | i }
  function WithField(match_: bv16, i: bv16): bv16 { match_ | (i << 9) }
  function WithBoth(match_: bv16, i: bv16, j: bv16): bv16 { match_ | (i << 9) | j }
  predicate Less(a: bv16, b: bv16) { a < b }

  lemma Successor(a: bv16, i: bv16)
    requires i <= 0xff
    ensures Less(a, i + 1) <==> Less(a, i) || a == i
  {
  }

  lemma Extremes(op: bv16)
    ensures !Less(Low(op, 0xff), 0) && !Less(Low(op, 0xf), 0) && !Less(Low(op, 7), 0) && !Less(Field(op), 0)
    ensures Less(Low(op, 0xff), 0x100) && Less(Low(op, 0xf), 0x10) && Less(Low(op, 7), 8) && Less(Field(op), 8)
  {
  }

  // Which opcodes the loops reach, first on plain bits and then in these terms.

  lemma LowBits8(match_: bv16, op: bv16, i: bv16)
    requires match_ & 0xff00 == match_ && i <= 0xff
    ensures op == match_ | i <==> op & 0xff00 == match_ && op & 0xff == i
  {
  }

  lemma LowOpcode8(match_: bv16, op: bv16, i: bv16)
    requires Inside(0xff00, match_) && i <= 0xff
    ensures op == WithLow(match_, i) <==> MatchBits(0xff00, match_, op) && Low(op, 0xff) == i
  {
    LowBits8(match_, op, i);
  }

  lemma LowBits4(match_: bv16, op: bv16, i: bv16)
    requires match_ & 0xfff0 == match_ && i <= 0xf
    ensures op == match_ | i <==> op & 0xfff0 == match_ && op & 0xf == i
  {
  }

  lemma LowOpcode4(match_: bv16, op: bv16, i: bv16)
    requires Inside(0xfff0, match_) && i <= 0xf
    ensures op == WithLow(match_, i) <==> MatchBits(0xfff0, match_, op) && Low(op, 0xf) == i
  {
    LowBits4(match_, op, i);
  }

  lemma LowBits3(match_: bv16, op: bv16, i: bv16)
    requires match_ & 0xfff8 == match_ && i <= 7
    ensures op == match_ | i <==> op & 0xfff8 == match_ && op & 7 == i
  {
  }

  lemma LowOpcode3(match_: bv16, op: bv16, i: bv16)
    requires Inside(0xfff8, match_) && i <= 7
    ensures op == WithLow(match_, i) <==> MatchBits(0xfff8, match_, op) && Low(op, 7) == i
  {
    LowBits3(match_, op, i);
  }

  predicate IsTop(mask: bv16, top: bv16) {
    (top == 0xff && mask == 0xff00) || (top == 0xf && mask == 0xfff0) || (top == 7 && mask == 0xfff8)
  }

  lemma LowOpcode(mask: bv16, match_: bv16, top: bv16, op: bv16, i: bv16)
    requires Inside(mask, match_) && IsTop(mask, top) && i <= top
    ensures op == WithLow(match_, i) <==> MatchBits(mask, match_, op) && Low(op, top) == i
  {
    hide Inside, WithLow, MatchBits, Low;
    if top == 0xff {
      LowOpcode8(match_, op, i);
    } else if top == 0xf {
      LowOpcode4(match_, op, i);
    } else {
      LowOpcode3(match_, op, i);
    }
  }

  lemma FieldBits(match_: bv16, op: bv16, i: bv16)
    requires match_ & 0xf1ff == match_ && i <= 7
    ensures op == match_ | (i << 9) <==> (op >> 9) & 7 == i && op & 0xf1ff == match_
  {
  }

  lemma FieldOpcode1(match_: bv16, op: bv16, i: bv16)
    requires match_ & 0xf1ff == match_ && i <= 7
    ensures op == WithField(match_, i) <==> (op >> 9) & 7 == i && op & 0xf1ff == match_
  {
    FieldBits(match_, op, i);
  }

  lemma FieldOpcode2(match_: bv16, op: bv16, i: bv16)
    requires match_ & 0xf1ff == match_ && i <= 7
    ensures op == WithField(match_, i) <==> Field(op) == i && op & 0xf1ff == match_
  {
    hide WithField;
    FieldOpcode1(match_, op, i);
  }

  lemma FieldOpcode(match_: bv16, op: bv16, i: bv16)
    requires Inside(0xf1ff, match_) && i <= 7
    ensures op == WithField(match_, i) <==> Field(op) == i && MatchBits(0xf1ff, match_, op)
  {
    hide WithField, Field;
    FieldOpcode2(match_, op, i);
  }

  lemma PairBits(match_: bv16, op: bv16, i: bv16, j: bv16)
    requires match_ & 0xf1f8 == match_ && i < 8 && j < 8
    ensures op == match_ | (i << 9) | j <==> (op >> 9) & 7 == i && op & 7 == j && op & 0xf1f8 == match_
  {
  }

  lemma PairOpcode1(match_: bv16, op: bv16, i: bv16, j: bv16)
    requires match_ & 0xf1f8 == match_ && i < 8 && j < 8
    ensures op == WithBoth(match_, i, j) <==> (op >> 9) & 7 == i && op & 7 == j && op & 0xf1f8 == match_
  {
    PairBits(match_, op, i, j);
  }

  lemma PairOpcode2(match_: bv16, op: bv16, i: bv16, j: bv16)
    requires match_ & 0xf1f8 == match_ && i < 8 && j < 8
    ensures op == WithBoth(match_, i, j) <==> Field(op) == i && op & 7 == j && op & 0xf1f8 == match_
  {
    hide WithBoth;
    PairOpcode1(match_, op, i, j);
  }

  lemma PairOpcode3(match_: bv16, op: bv16, i: bv16, j: bv16)
    requires match_ & 0xf1f8 == match_ && i < 8 && j < 8
    ensures op == WithBoth(match_, i, j) <==> Field(op) == i && Low(op, 7) == j && op & 0xf1f8 == match_
  {
    hide WithBoth, Field;
    PairOpcode2(match_, op, i, j);
  }

  lemma PairOpcode(match_: bv16, op: bv16, i: bv16, j: bv16)
    requires Inside(0xf1f8, match_) && i < 8 && j < 8
    ensures op == WithBoth(match_, i, j) <==> Field(op) == i && Low(op, 7) == j && MatchBits(0xf1f8, match_, op)
  {
    hide WithBoth, Field, Low;
    PairOpcode3(match_, op, i, j);
  }

  predicate LowBelow(e: Entry, top: bv16, op: bv16, i: bv16) { Matches(e, op) && Less(Low(op, top), i) }

  predicate FieldBelow(e: Entry, op: bv16, i: bv16) { Matches(e, op) && Less(Field(op), i) }

  predicate PairBelow(e: Entry, op: bv16, i: bv16, j: bv16) {
    Matches(e, op) && (Less(Field(op), i) || (Field(op) == i && Less(Low(op, 7), j)))
  }

  /** m68ki_instruction_jump_table and m68ki_cycles */
  class Builder {
    var table: Table

    constructor ()
      ensures forall op: bv16 :: table(op) == ILLEGAL
    {
      table := _ => ILLEGAL;
    }

    /** The first stage runs up to the first entry with mask 0xff00. */
    method FirstStage(es: seq<Entry>, list: seq<Entry>) returns (k: nat)
      requires AllWellFormed(es) && First(es, 0) < |es| && list == Terminated(es) && Holds(table, es, 0)
      modifies this
      ensures k == First(es, 0) && Holds(table, es, k)
    {
      hide Holds, Stamped, WellFormed;
      k := 0;
      while list[k].mask != 0xff00
        invariant k <= First(es, 0) && Holds(table, es, k)
        decreases |es| - k
      {
        ghost var before := table;
        assert es[k] in es;
        StampAll(es[k]);
        HoldsNext(before, table, es, k);
        k := k + 1;
      }
    }

    /** The stages for the masks 0xff00, 0xfff0 and 0xfff8 */
    method LowStage(es: seq<Entry>, list: seq<Entry>, k0: nat, ghost stage: nat, mask: bv16, top: bv16) returns (k: nat)
      requires AllWellFormed(es) && list == Terminated(es) && IsTop(mask, top) && stage == Stage(mask)
      requires First(es, 0) <= k0 <= |es| && Reach(es, k0, stage) == Reached(es) && Holds(table, es, k0)
      modifies this
      ensures First(es, 0) <= k <= |es| && Reach(es, k, stage + 1) == Reached(es) && Holds(table, es, k)
    {
      hide Holds, Stamped, WellFormed;
      k := k0;
      while list[k].mask == mask
        invariant First(es, 0) <= k <= |es| && Reach(es, k, stage) == Reached(es) && Holds(table, es, k)
        decreases |es| - k
      {
        ghost var before := table;
        assert es[k] in es;
        StampLow(es[k], top);
        HoldsNext(before, table, es, k);
        k := k + 1;
      }
    }

    /** The stage for the mask 0xf1f8 */
    method PairStage(es: seq<Entry>, list: seq<Entry>, k0: nat) returns (k: nat)
      requires AllWellFormed(es) && list == Terminated(es)
      requires First(es, 0) <= k0 <= |es| && Reach(es, k0, 2) == Reached(es) && Holds(table, es, k0)
      modifies this
      ensures First(es, 0) <= k <= |es| && Reach(es, k, 2 + 1) == Reached(es) && Holds(table, es, k)
    {
      hide Holds, Stamped, WellFormed;
      k := k0;
      while list[k].mask == 0xf1f8
        invariant First(es, 0) <= k <= |es| && Reach(es, k, 2) == Reached(es) && Holds(table, es, k)
        decreases |es| - k
      {
        ghost var before := table;
        assert es[k] in es;
        StampPair(es[k]);
        HoldsNext(before, table, es, k);
        k := k + 1;
      }
    }

    /** The stage for the mask 0xf1ff */
    method FieldStage(es: seq<Entry>, list: seq<Entry>, k0: nat) returns (k: nat)
      requires AllWellFormed(es) && list == Terminated(es)
      requires First(es, 0) <= k0 <= |es| && Reach(es, k0, 4) == Reached(es) && Holds(table, es, k0)
      modifies this
      ensures First(es, 0) <= k <= |es| && Reach(es, k, 4 + 1) == Reached(es) && Holds(table, es, k)
    {
      hide Holds, Stamped, WellFormed;
      k := k0;
      while list[k].mask == 0xf1ff
        invariant First(es, 0) <= k <= |es| && Reach(es, k, 4) == Reached(es) && Holds(table, es, k)
        decreases |es| - k
      {
        ghost var before := table;
        assert es[k] in es;
        StampField(es[k]);
        HoldsNext(before, table, es, k);
        k := k + 1;
      }
    }

    /** The stage for the mask 0xffff */
    method LastStage(es: seq<Entry>, list: seq<Entry>, k0: nat) returns (k: nat)
      requires AllWellFormed(es) && list == Terminated(es)
      requires First(es, 0) <= k0 <= |es| && Reach(es, k0, 6) == Reached(es) && Holds(table, es, k0)
      modifies this
      ensures First(es, 0) <= k <= |es| && Reach(es, k, 6 + 1) == Reached(es) && Holds(table, es, k)
    {
      hide Holds, Stamped, WellFormed;
      k := k0;
      while list[k].mask == 0xffff
        invariant First(es, 0) <= k <= |es| && Reach(es, k, 6) == Reached(es) && Holds(table, es, k)
        decreases |es| - k
      {
        ghost var before := table;
        assert es[k] in es;
        StampOne(es[k]);
        HoldsNext(before, table, es, k);
        k := k + 1;
      }
    }

    /** One entry of the first stage: every opcode is tried. */
    method StampAll(e: Entry)
      requires WellFormed(e)
      modifies this
      ensures Stamped(old(table), table, e, false)
    {
      hide MatchBits, Inside, Partly, Stamped, StaticShift, Put, Number;
      ghost var written: bv16 -> bool := _ => false;
      PartlyNone(table, e, false, written);
      for i := 0 to 0x10000
        invariant Partly(old(table), table, e, false, written)
        invariant forall op: bv16 :: written(op) ==> Matches(e, op)
        invariant forall op: bv16 :: Matches(e, op) && Number(op) < i ==> written(op)
      {
        var op := i as bv16;
        ghost var before := written;
        if Matches(e, op) {
          written := (x: bv16) => before(x) || x == op;
          PutOne(old(table), table, e, false, before, written, op);
          table := Put(table, op, Slot(e.handler, e.cycles));
        }
        forall x: bv16 | Number(x) == i ensures x == op { Numbered(x); }
      }
      AllDone(old(table), table, e, false, written);
    }

    /** One entry whose mask leaves the bits of `top` free: 0xff00, 0xfff0 or 0xfff8 */
    method StampLow(e: Entry, top: bv16)
      requires WellFormed(e) && IsTop(e.mask, top)
      modifies this
      ensures Stamped(old(table), table, e, true)
    {
      hide MatchBits, Inside, Partly, Stamped, StaticShift, Put, IsTop, Low, Less, WithLow;
      TopBounds(e.mask, top);
      var i: bv16 := 0;
      ghost var written: bv16 -> bool := _ => false;
      PartlyNone(table, e, true, written);
      forall op: bv16 ensures !LowBelow(e, top, op, 0) { Extremes(op); }
      while i <= top
        invariant i <= top + 1 && Partly(old(table), table, e, true, written)
        invariant forall op: bv16 :: written(op) <==> LowBelow(e, top, op, i)
        decreases top + 1 - i
      {
        var instr := WithLow(e.match_, i);
        ghost var before := written;
        written := (x: bv16) => before(x) || x == instr;
        PutOne(old(table), table, e, true, before, written, instr);
        var next := i + 1;
        forall op: bv16 ensures LowBelow(e, top, op, next) <==> LowBelow(e, top, op, i) || op == instr {
          LowOpcode(e.mask, e.match_, top, op, i);
          Successor(Low(op, top), i);
        }
        table := Put(table, instr, Slot(e.handler, e.cycles));
        i := next;
      }
      forall op: bv16 ensures LowBelow(e, top, op, i) <==> Matches(e, op) { Extremes(op); }
      AllDone(old(table), table, e, true, written);
    }

    /** One entry with mask 0xf1ff: a register field is free. */
    method StampField(e: Entry)
      requires WellFormed(e) && e.mask == 0xf1ff
      modifies this
      ensures Stamped(old(table), table, e, true)
    {
      hide MatchBits, Inside, Partly, Stamped, StaticShift, Put, Field, Less, WithField;
      var i: bv16 := 0;
      ghost var written: bv16 -> bool := _ => false;
      PartlyNone(table, e, true, written);
      forall op: bv16 ensures !FieldBelow(e, op, 0) { Extremes(op); }
      while i <= 7
        invariant i <= 8 && Partly(old(table), table, e, true, written)
        invariant forall op: bv16 :: written(op) <==> FieldBelow(e, op, i)
        decreases 8 - i
      {
        var instr := WithField(e.match_, i);
        ghost var before := written;
        written := (x: bv16) => before(x) || x == instr;
        PutOne(old(table), table, e, true, before, written, instr);
        var next := i + 1;
        forall op: bv16 ensures FieldBelow(e, op, next) <==> FieldBelow(e, op, i) || op == instr {
          FieldOpcode(e.match_, op, i);
          Successor(Field(op), i);
        }
        table := Put(table, instr, Slot(e.handler, e.cycles));
        i := next;
      }
      forall op: bv16 ensures FieldBelow(e, op, i) <==> Matches(e, op) { Extremes(op); }
      AllDone(old(table), table, e, true, written);
    }

    /** One entry with mask 0xffff */
    method StampOne(e: Entry)
      requires WellFormed(e) && e.mask == 0xffff
      modifies this
      ensures Stamped(old(table), table, e, true)
    {
      hide MatchBits, Inside, Partly, Stamped, StaticShift, Put;
      ghost var none: bv16 -> bool, one: bv16 -> bool := _ => false, (x: bv16) => x == e.match_;
      PartlyNone(table, e, true, none);
      PutOne(table, table, e, true, none, one, e.match_);
      forall op: bv16 ensures Matches(e, op) <==> op == e.match_ { WholeOpcode(e.match_, op); }
      AllDone(table, Put(table, e.match_, SlotOf(e, e.match_, true)), e, true, one);
      table := Put(table, e.match_, Slot(e.handler, e.cycles));
    }

    /** One entry with mask 0xf1f8: a register or distance field and a register are free; static shifts take longer. */
    method StampPair(e: Entry)
      requires WellFormed(e) && e.mask == 0xf1f8
      modifies this
      ensures Stamped(old(table), table, e, true)
    {
      hide MatchBits, Inside, Partly, Stamped, Put, Field, Low, Less, WithBoth, SlotOf;
      var i: bv16 := 0;
      ghost var written: bv16 -> bool := _ => false;
      PartlyNone(table, e, true, written);
      forall op: bv16 ensures !PairBelow(e, op, 0, 0) { Extremes(op); }
      while i < 8
        invariant i <= 8 && Partly(old(table), table, e, true, written)
        invariant forall op: bv16 :: written(op) <==> PairBelow(e, op, i, 0)
        decreases 8 - i
      {
        var j: bv16 := 0;
        while j < 8
          invariant j <= 8 && Partly(old(table), table, e, true, written)
          invariant forall op: bv16 :: written(op) <==> PairBelow(e, op, i, j)
          decreases 8 - j
        {
          var instr := WithBoth(e.match_, i, j);
          ghost var before := written;
          written := (x: bv16) => before(x) || x == instr;
          PutOne(old(table), table, e, true, before, written, instr);
          var next := j + 1;
          forall op: bv16 ensures PairBelow(e, op, i, next) <==> PairBelow(e, op, i, j) || op == instr {
            PairOpcode(e.match_, op, i, j);
            Successor(Low(op, 7), j);
          }
          var slot := PairSlot(e, i, j);
          table := Put(table, instr, slot);
          j := next;
        }
        var next := i + 1;
        forall op: bv16 ensures PairBelow(e, op, next, 0) <==> PairBelow(e, op, i, 8) {
          Successor(Field(op), i);
          Extremes(op);
        }
        i := next;
      }
      forall op: bv16 ensures PairBelow(e, op, 8, 0) <==> Matches(e, op) { Extremes(op); }
      AllDone(old(table), table, e, true, written);
    }
  }

  /** What the third stage stores for one opcode. */
  method PairSlot(e: Entry, i: bv16, j: bv16) returns (slot: Slot)
    requires WellFormed(e) && e.mask == 0xf1f8 && i < 8 && j < 8
    ensures slot == SlotOf(e, WithBoth(e.match_, i, j), true)
  {
    hide Field, WithBoth, CycleCost, Distance, Inside, Twice;
    var instr := WithBoth(e.match_, i, j);
    PairField(e.match_, i, j);
    CostOfDistance(instr);
    var cycles := e.cycles;
    if instr & 0xf000 == 0xe000 && instr & 0x20 == 0 {
      cycles := cycles[0 := cycles[0] + CycleCost(i)];
      cycles := cycles[1 := cycles[1] + CycleCost(i)];
    }
    slot := Slot(e.handler, cycles);
  }

  lemma PairField(match_: bv16, i: bv16, j: bv16)
    requires Inside(0xf1f8, match_) && i < 8 && j < 8
    ensures Field(WithBoth(match_, i, j)) == i
  {
    hide Field, WithBoth, MatchBits, Low, Inside;
    PairOpcode(match_, WithBoth(match_, i, j), i, j);
  }

  lemma CostOfDistance(op: bv16)
    ensures CycleCost(Field(op)) == Twice(Distance(op))
  {
    hide CycleCost, Distance;
    CostIsTwiceDistance(op);
  }

  lemma WholeOpcode(match_: bv16, op: bv16)
    ensures MatchBits(0xffff, match_, op) <==> op == match_
  {
  }

  lemma TopBounds(mask: bv16, top: bv16)
    requires IsTop(mask, top)
    ensures mask != 0xf1f8 && (top == 0xff || top == 0xf || top == 7)
  {
  }

  lemma PartlyNone(t: Table, e: Entry, timed: bool, written: bv16 -> bool)
    requires |e.cycles| == 5 && forall x: bv16 :: !written(x)
    ensures Partly(t, t, e, timed, written)
  {
  }

  // ---------------------------------------------------------------------------
  // The whole table
  // ---------------------------------------------------------------------------

  /** The stage a mask belongs to; all masks but six to the first. */
  function Stage(mask: bv16): nat {
    if mask == 0xff00 then 1 else if mask == 0xf1f8 then 2 else if mask == 0xfff0 then 3
    else if mask == 0xf1ff then 4 else if mask == 0xfff8 then 5 else if mask == 0xffff then 6 else 0
  }

  /**
   Where a builder that has come to entry k, at stage `stage`, leaves the list: it never
   goes back to an earlier stage, nor to the first.
   */
  function Reach(es: seq<Entry>, k: nat, stage: nat): (r: nat)
    requires k <= |es|
    ensures k <= r <= |es|
    decreases |es| - k
  {
    if k == |es| || Stage(es[k].mask) < stage then k else Reach(es, k + 1, Stage(es[k].mask))
  }

  /** The entries before this one are entered, and none from it on. */
  function Reached(es: seq<Entry>): nat { Reach(es, First(es, 0), 1) }

  /** From the first entry with mask 0xff00 on the stages follow one another. */
  predicate Grouped(es: seq<Entry>) {
    && First(es, 0) < |es|
    && forall i, j | First(es, 0) <= i < j < |es| :: Stage(es[i].mask) <= Stage(es[j].mask)
  }

  lemma {:induction false} ReachesEnd(es: seq<Entry>, k: nat, stage: nat)
    requires k <= |es|
    ensures Reach(es, k, stage) == |es| <==>
              (forall i | k <= i < |es| :: stage <= Stage(es[i].mask))
              && (forall i, j | k <= i < j < |es| :: Stage(es[i].mask) <= Stage(es[j].mask))
    decreases |es| - k
  {
    hide Stage;
    if k < |es| && stage <= Stage(es[k].mask) { ReachesEnd(es, k + 1, Stage(es[k].mask)); }
  }

  /** The whole list is entered exactly when it is grouped. */
  lemma ReachedAllWhenGrouped(es: seq<Entry>)
    requires First(es, 0) < |es|
    ensures Reached(es) == |es| <==> Grouped(es)
  {
    var f := First(es, 0);
    assert Stage(es[f].mask) == 1;
    hide Stage;
    ReachesEnd(es, f, 1);
  }

  /**
   A sorted list with a mask that has no stage: the entry behind it is never entered, and
   its opcode stays illegal.
   */
  lemma StageSkipped()
    ensures var c: seq<bv8> := [4, 4, 4, 4, 4];
            var es := [Entry(1, 0xff00, 0x6000, c), Entry(2, 0xffc0, 0x4e80, c), Entry(3, 0xffff, 0x4e71, c)];
            && AllWellFormed(es) && Sorted(es) && Reached(es) == 1 && !Grouped(es)
            && Matches(es[2], 0x4e71) && Lookup(es, Reached(es), 0x4e71) == ILLEGAL
  {
    var c: seq<bv8> := [4, 4, 4, 4, 4];
    var es := [Entry(1, 0xff00, 0x6000, c), Entry(2, 0xffc0, 0x4e80, c), Entry(3, 0xffff, 0x4e71, c)];
    SkippedBits();
    SkippedOrder();
    hide NumBits, MatchBits, Inside;
    assert First(es, 0) == 0;
    assert Reach(es, 1, 1) == 1;
    assert !Matches(es[0], 0x4e71);
    assert Lookup(es, 1, 0x4e71) == Lookup(es, 0, 0x4e71);
    ReachedAllWhenGrouped(es);
  }

  lemma SkippedBits()
    ensures Inside(0xff00, 0x6000) && Inside(0xffc0, 0x4e80) && Inside(0xffff, 0x4e71)
    ensures MatchBits(0xffff, 0x4e71, 0x4e71) && !MatchBits(0xff00, 0x6000, 0x4e71)
  {
  }

  lemma SkippedOrder()
    ensures NumBits(0xff00) == 8 && NumBits(0xffc0) == 10 && NumBits(0xffff) == 16
  {
  }

  /** m68k_opcode_handler_table: the entries and the end marker. */
  function Terminated(es: seq<Entry>): seq<Entry> { es + [Entry(0, 0, 0, [0, 0, 0, 0, 0])] }

  ghost predicate Holds(t: Table, es: seq<Entry>, k: nat)
    requires k <= |es| && AllWellFormed(es)
  {
    forall op: bv16 :: t(op) == Lookup(es, k, op)
  }

  lemma HoldsNext(t: Table, t': Table, es: seq<Entry>, k: nat)
    requires k < |es| && AllWellFormed(es) && Holds(t, es, k) && Stamped(t, t', es[k], k >= First(es, 0))
    ensures Holds(t', es, k + 1)
  {
    hide Matches, SlotOf;
  }

  /**
   m68ki_build_opcode_table: every opcode gets the last entry that matches it among those
   the builder reaches. Without an entry of mask 0xff00 the source runs past its list.
   */
  method Build(es: seq<Entry>) returns (builder: Builder)
    requires AllWellFormed(es) && First(es, 0) < |es|
    ensures fresh(builder) && Holds(builder.table, es, Reached(es))
    ensures Reached(es) == |es| <==> Grouped(es)
  {
    hide Holds, Stamped, AllWellFormed, Reach, Reached, First, Grouped, Terminated;
    var list := Terminated(es);
    builder := new Builder();
    HoldsNone(builder.table, es);
    ReachedAllWhenGrouped(es);
    ReachStarts(es);
    var k := builder.FirstStage(es, list);
    k := builder.LowStage(es, list, k, 1, 0xff00, 0xff);
    k := builder.PairStage(es, list, k);
    k := builder.LowStage(es, list, k, 3, 0xfff0, 0xf);
    k := builder.FieldStage(es, list, k);
    k := builder.LowStage(es, list, k, 5, 0xfff8, 7);
    k := builder.LastStage(es, list, k);
    ReachEnds(es, k);
  }

  lemma ReachStarts(es: seq<Entry>)
    ensures Reach(es, First(es, 0), 1) == Reached(es)
  {
  }

  lemma ReachEnds(es: seq<Entry>, k: nat)
    requires k <= |es|
    ensures Reach(es, k, 7) == k
  {
  }

  lemma HoldsNone(t: Table, es: seq<Entry>)
    requires AllWellFormed(es) && forall op: bv16 :: t(op) == ILLEGAL
    ensures Holds(t, es, 0)
  {
  }

  // ---------------------------------------------------------------------------
  // The order of the list
  // ---------------------------------------------------------------------------

  /** num_bits of m68kmake.c */
  function NumBits(v: bv16): bv16 {
    var a := ((v & 0xaaaa) >> 1) + (v & 0x5555);
    var b := ((a & 0xcccc) >> 2) + (a & 0x3333);
    var c := ((b & 0xf0f0) >> 4) + (b & 0x0f0f);
    ((c & 0xff00) >> 8) + (c & 0x00ff)
  }

  /** Its halving sums count the bits: none in zero, and the lowest besides those above it. */
  lemma NumBitsCounts(v: bv16)
    ensures NumBits(0) == 0 && NumBits(v) == (v & 1) + NumBits(v >> 1)
  {
  }

  /** compare_nof_true_bits(a, b) <= 0 */
  predicate Ordered(a: Entry, b: Entry) {
    if NumBits(a.mask) != NumBits(b.mask) then NumBits(a.mask) < NumBits(b.mask)
    else if a.mask != b.mask then a.mask < b.mask
    else a.match_ <= b.match_
  }

  predicate Sorted(es: seq<Entry>) { forall i, j | 0 <= i < j < |es| :: Ordered(es[i], es[j]) }

  /** A mask the builder has a stage for in sorted order: one of the six, or one that sorts before 0xff00. */
  predicate Staged(mask: bv16) {
    Stage(mask) > 0 || NumBits(mask) < 8 || (NumBits(mask) == 8 && mask < 0xff00)
  }

  lemma StageBits(mask: bv16)
    ensures Stage(mask) == 1 ==> NumBits(mask) == 8
    ensures Stage(mask) == 2 ==> NumBits(mask) == 10
    ensures Stage(mask) == 3 ==> NumBits(mask) == 12
    ensures Stage(mask) == 4 || Stage(mask) == 5 ==> NumBits(mask) == 13
    ensures Stage(mask) == 6 ==> NumBits(mask) == 16
  {
    assert NumBits(0xff00) == 8;
    assert NumBits(0xf1f8) == 10;
    assert NumBits(0xfff0) == 12;
    assert NumBits(0xf1ff) == 13;
    assert NumBits(0xfff8) == 13;
    assert NumBits(0xffff) == 16;
    hide NumBits;
  }

  /**
   A list sorted by the generator is in the order the builder relies on exactly when it has
   a stage for every mask.
   */
  lemma SortedIsGrouped(es: seq<Entry>)
    requires Sorted(es) && First(es, 0) < |es|
    ensures Grouped(es) <==> forall e | e in es :: Staged(e.mask)
    ensures forall i | 0 <= i < |es| && es[i].mask == 0xf1f8 :: First(es, 0) <= i
  {
    var f := First(es, 0);
    forall i | 0 <= i < |es| && (es[i].mask == 0xf1f8 || !Staged(es[i].mask))
      ensures f < i
    {
      SortsAfter(es[i], es[f]);
      assert es[i].mask != 0xff00;
    }
    hide NumBits, Ordered, Staged, Stage;
    if forall e | e in es :: Staged(e.mask) {
      forall i, j | f <= i < j < |es|
        ensures Stage(es[i].mask) <= Stage(es[j].mask)
      {
        assert es[i] in es && es[j] in es;
        OrderedStages(es[i], es[j]);
      }
    } else {
      var e :| e in es && !Staged(e.mask);
      var i :| 0 <= i < |es| && es[i] == e;
      Unstaged(e.mask, es[f].mask);
      assert Stage(es[f].mask) > Stage(es[i].mask);
    }
  }

  /** Such a mask does not sort before 0xff00. */
  lemma SortsAfter(e: Entry, f: Entry)
    requires f.mask == 0xff00 && (e.mask == 0xf1f8 || !Staged(e.mask))
    ensures !Ordered(e, f) && e.mask != 0xff00
  {
    StageBits(f.mask);
    StageBits(e.mask);
    hide NumBits;
  }

  lemma Unstaged(mask: bv16, first: bv16)
    requires !Staged(mask) && first == 0xff00
    ensures Stage(mask) == 0 && Stage(first) == 1
  {
    hide NumBits;
  }

  lemma OrderedStages(a: Entry, b: Entry)
    requires Ordered(a, b) && Staged(a.mask) && Staged(b.mask)
    ensures Stage(a.mask) <= Stage(b.mask)
  {
    hide NumBits;
    StageBits(a.mask);
    StageBits(b.mask);
  }

  /** The entry an opcode gets: the last match. */
  function Winner(es: seq<Entry>, k: nat, op: bv16): (w: int)
    requires k <= |es|
    ensures -1 <= w < k
    ensures w >= 0 ==> Matches(es[w], op)
    ensures forall i | w < i < k :: !Matches(es[i], op)
  {
    if k == 0 then -1 else if Matches(es[k - 1], op) then k - 1 else Winner(es, k - 1, op)
  }

  /** Entry b's mask has at least as many bits. */
  predicate AsSpecific(a: Entry, b: Entry) { NumBits(a.mask) <= NumBits(b.mask) }

  lemma AsSpecificMeans(a: Entry, b: Entry)
    ensures AsSpecific(a, b) <==> NumBits(a.mask) <= NumBits(b.mask)
  {
  }

  lemma OrderedSpecific(a: Entry, b: Entry)
    ensures AsSpecific(a, a) && (Ordered(a, b) ==> AsSpecific(a, b))
  {
    hide NumBits;
    NotAboveItself(NumBits(a.mask));
    if NumBits(a.mask) < NumBits(b.mask) { BelowIsNotAbove(NumBits(a.mask), NumBits(b.mask)); }
  }

  lemma NotAboveItself(a: bv16)
    ensures a <= a
  {
  }

  lemma BelowIsNotAbove(a: bv16, b: bv16)
    requires a < b
    ensures a <= b
  {
  }

  lemma {:induction false} LookupIsWinner(es: seq<Entry>, k: nat, op: bv16)
    requires k <= |es| && AllWellFormed(es)
    ensures Lookup(es, k, op) == if Winner(es, k, op) < 0 then ILLEGAL
                                 else SlotOf(es[Winner(es, k, op)], op, Winner(es, k, op) >= First(es, 0))
  {
    hide Matches, SlotOf;
    if k > 0 { LookupIsWinner(es, k - 1, op); }
  }

  /**
   The built table dispatches each opcode to a matching entry with the most mask bits, and
   to illegal if none matches.
   */
  lemma LookupIsMostSpecific(es: seq<Entry>, op: bv16)
    requires AllWellFormed(es) && Sorted(es) && First(es, 0) < |es|
    ensures var w := Winner(es, |es|, op);
            && Lookup(es, |es|, op) == (if w < 0 then ILLEGAL else SlotOf(es[w], op, true))
            && (w < 0 <==> forall i | 0 <= i < |es| :: !Matches(es[i], op))
            && (w >= 0 ==> forall i | 0 <= i < |es| && Matches(es[i], op) :: AsSpecific(es[i], es[w]))
  {
    var w := Winner(es, |es|, op);
    assert w >= 0 ==> es[w] in es;
    SortedIsGrouped(es);
    hide Matches, AsSpecific, Ordered, Staged, StaticShift, Add, Distance, Twice;
    LookupIsWinner(es, |es|, op);
    if w >= 0 {
      forall i | 0 <= i < |es| && Matches(es[i], op)
        ensures AsSpecific(es[i], es[w])
      {
        OrderedSpecific(es[i], es[w]);
      }
    }
  }
}
