/**
 Whole runs of the physical memory manager.

 A run donates regions (pmm_free at start-up), allocates, and releases what it
 holds.  Each step is the relation that the methods of `Pmm.PhysicalMemory` are
 proved to implement; `PmmDriver.Drive` makes runs of them.
 */
module PmmRuns {
  import opened KernelList
  import opened FreeBlocks
  import opened PmmLayout

  // ---------------------------------------------------------------------------
  // Counting bytes
  // ---------------------------------------------------------------------------

  ghost function Total(bs: seq<Block>): int {
    if bs == [] then 0 else bs[0].size + Total(bs[1..])
  }

  ghost function Span(lo: int, n: nat): (s: set<int>)
    ensures forall x :: x in s <==> lo <= x < lo + n
    ensures |s| == n
    decreases n
  {
    if n == 0 then {} else Span(lo, n - 1) + {lo + n - 1}
  }

  ghost function Cover(bs: seq<Block>): (s: set<int>)
    requires Canonical(bs)
    ensures forall x :: x in s <==> IsFree(bs, x)
    ensures |s| == Total(bs)
  {
    if bs == [] then {} else
      CanonicalTail(bs);
      assert bs == [bs[0]] + bs[1..];
      assert bs[0] in bs;
      Span(bs[0].addr, bs[0].size) + Cover(bs[1..])
  }

  lemma FreeAddsBytes(bs: seq<Block>, b: Block, bs': seq<Block>)
    requires Canonical(bs) && 0 <= b.size && FreeStep(bs, b, bs')
    requires forall x :: b.Has(x) ==> !IsFree(bs, x)
    ensures Total(bs') == Total(bs) + b.size
  {
    hide Canonical, Cover, Span, Total, IsFree;
    var s, t, u := Cover(bs), Span(b.addr, b.size), Cover(bs');
    assert forall x :: x in t <==> b.Has(x);
    assert u == s + t;
    assert s !! t;
  }

  lemma AllocTakesBytes(bs: seq<Block>, size: nat, result: int, bs': seq<Block>)
    requires Canonical(bs) && AllocStep(bs, size, result, bs') && result != 0
    ensures Total(bs) == Total(bs') + size
  {
    AllocatedWasFree(bs, size, result, bs');
    FreeAddsBytes(bs', Block(result, size), bs);
  }

  lemma AllocatedWasFree(bs: seq<Block>, size: int, result: int, bs': seq<Block>)
    requires AllocStep(bs, size, result, bs') && result != 0
    ensures forall x :: Block(result, size).Has(x) ==> IsFree(bs, x) && !IsFree(bs', x)
  {
    var b :| b in bs && b.addr == result && size <= b.size;
    assert forall x :: Block(result, size).Has(x) ==> b.Has(x);
  }

  // ---------------------------------------------------------------------------
  // One call undoes the other; when an allocation is exclusive
  // ---------------------------------------------------------------------------

  /**
   Freeing what was just allocated gives back the identical address list, however the block
   was split and re-merged.
   */
  lemma FreeUndoesAlloc(bs: seq<Block>, size: int, result: int, bs': seq<Block>, bs'': seq<Block>)
    requires Canonical(bs) && AllocStep(bs, size, result, bs') && result != 0
    requires FreeStep(bs', Block(result, size), bs'')
    ensures bs'' == bs
  {
    AllocatedWasFree(bs, size, result, bs');
    CanonicalUnique(bs, bs'');
  }

  /**
   The region returned is taken off the free list exactly when the rounded size is
   positive.  A request of 0 bytes, or of more than 0xFFFFFC00, rounds to 0: the
   caller gets the address of a block that is still free.
   */
  lemma ExclusiveExactlyWhen(bs: seq<Block>, size: int, result: int, bs': seq<Block>)
    requires 0 <= size < ADDRESS_SPACE
    requires Canonical(bs) && AllocStep(bs, RoundUp(size), result, bs') && result != 0
    ensures !IsFree(bs', result) <==> 0 < size <= ADDRESS_SPACE - PMM_MIN_SIZE
    ensures IsFree(bs', result) <==> bs' == bs
  {
    var b :| b in bs && b.addr == result && RoundUp(size) <= b.size;
    CanonicalElements(bs);
    assert b.Has(result);
    assert IsFree(bs, result);
    if RoundUp(size) == 0 {
      CanonicalUnique(bs, bs');
    }
  }

  /** The wrap-around is reachable: asking for the whole address space returns a block and leaves it free. */
  lemma HugeRequestIsNotExclusive(b: Block)
    requires b.Valid()
    ensures AllocStep([b], RoundUp(0xFFFF_FFFF), b.addr, [b])
  {
    assert b in [b] && b.size >= RoundUp(0xFFFF_FFFF);
  }

  // ---------------------------------------------------------------------------
  // Runs
  // ---------------------------------------------------------------------------

  /** The free list, and the regions the callers hold. */
  datatype State = State(free: seq<Block>, held: seq<Block>)

  datatype Event = Donate(region: Block) | Allocate(size: int, result: int) | Release(index: nat)

  ghost predicate Step(s: State, e: Event, s': State) {
    match e
    case Donate(b) =>
      && b.Valid()
      && (forall c :: c in s.free || c in s.held ==> Disjoint(b, c))
      && FreeStep(s.free, b, s'.free) && s'.held == s.held
    case Allocate(size, result) =>
      && 0 < size
      && AllocStep(s.free, size, result, s'.free)
      && s'.held == if result == 0 then s.held else s.held + [Block(result, size)]
    case Release(i) =>
      && i < |s.held|
      && FreeStep(s.free, s.held[i], s'.free) && s'.held == Removed(s.held, i)
  }

  ghost predicate Run(states: seq<State>, events: seq<Event>) {
    && |states| == |events| + 1
    && states[0] == State([], [])
    && forall i :: 0 <= i < |events| ==> Step(states[i], events[i], states[i + 1])
  }

  ghost predicate Donated(events: seq<Event>, x: int) {
    exists e :: e in events && e.Donate? && e.region.Has(x)
  }

  ghost function DonatedBytes(events: seq<Event>): int {
    if events == [] then 0
    else DonatedBytes(events[..|events| - 1]) +
         (match events[|events| - 1] case Donate(b) => b.size case _ => 0)
  }

  /** The free list is canonical and the held regions overlap neither each other nor any free block. */
  ghost predicate Safe(s: State) {
    && Canonical(s.free)
    && (forall i :: 0 <= i < |s.held| ==> 0 < s.held[i].addr && 0 < s.held[i].size)
    && (forall i, j :: 0 <= i < j < |s.held| ==> Disjoint(s.held[i], s.held[j]))
    && (forall b, x :: b in s.held && b.Has(x) ==> !IsFree(s.free, x))
  }

  ghost predicate Accounted(s: State, events: seq<Event>) {
    && (forall x :: Donated(events, x) <==> IsFree(s.free, x) || IsFree(s.held, x))
    && Total(s.free) + Total(s.held) == DonatedBytes(events)
  }

  lemma {:induction false} TotalAppend(bs: seq<Block>, b: Block)
    ensures Total(bs + [b]) == Total(bs) + b.size
  {
    if bs != [] {
      assert (bs + [b])[1..] == bs[1..] + [b];
      TotalAppend(bs[1..], b);
    }
  }

  lemma {:induction false} TotalRemoved(bs: seq<Block>, i: nat)
    requires i < |bs|
    ensures Total(Removed(bs, i)) == Total(bs) - bs[i].size
  {
    if i == 0 {
      assert Removed(bs, 0) == bs[1..];
    } else {
      assert Removed(bs, i)[1..] == Removed(bs[1..], i - 1);
      TotalRemoved(bs[1..], i - 1);
    }
  }

  lemma StepKeepsSafe(s: State, e: Event, s': State)
    requires Safe(s) && Step(s, e, s')
    ensures Safe(s')
  {
    match e {
      case Donate(b) => DonateSafe(s, b, s');
      case Allocate(size, result) =>
        if result != 0 { AllocateSafe(s, size, result, s'); }
      case Release(i) => ReleaseSafe(s, i, s');
    }
  }

  lemma DonateSafe(s: State, b: Block, s': State)
    requires Safe(s) && Step(s, Donate(b), s')
    ensures Safe(s')
  {
    forall c, x | c in s'.held && c.Has(x)
      ensures !IsFree(s'.free, x)
    {
      assert Disjoint(b, c);
    }
  }

  lemma AllocateSafe(s: State, size: int, result: int, s': State)
    requires Safe(s) && Step(s, Allocate(size, result), s') && result != 0
    ensures Safe(s')
  {
    var b := Block(result, size);
    AllocatedWasFree(s.free, size, result, s'.free);
    assert 0 < result by { CanonicalElements(s.free); }
    forall i | 0 <= i < |s.held|
      ensures Disjoint(s.held[i], b)
    {
      var c := s.held[i];
      assert c in s.held;
      assert c.addr <= result < c.End() ==> b.Has(result) && c.Has(result);
      assert result <= c.addr < b.End() ==> b.Has(c.addr) && c.Has(c.addr);
    }
  }

  lemma ReleaseSafe(s: State, i: nat, s': State)
    requires Safe(s) && Step(s, Release(i), s')
    ensures Safe(s')
  {
    forall c, x | c in s'.held && c.Has(x)
      ensures !IsFree(s'.free, x)
    {
      var j :| 0 <= j < |s'.held| && s'.held[j] == c;
      var j' := if j < i then j else j + 1;
      assert s.held[j'] == c && c in s.held;
      assert j' < i ==> Disjoint(s.held[j'], s.held[i]);
      assert i < j' ==> Disjoint(s.held[i], s.held[j']);
    }
  }

  lemma StepKeepsAccounts(s: State, e: Event, s': State, events: seq<Event>)
    requires Safe(s) && Step(s, e, s') && Accounted(s, events)
    ensures Accounted(s', events + [e])
  {
    var events' := events + [e];
    assert events'[..|events| ] == events;
    match e {
      case Donate(b) =>
        assert forall x :: b.Has(x) ==> !IsFree(s.free, x);
        FreeAddsBytes(s.free, b, s'.free);
      case Allocate(size, result) =>
        if result != 0 {
          AllocatedWasFree(s.free, size, result, s'.free);
          AllocTakesBytes(s.free, size, result, s'.free);
          TotalAppend(s.held, Block(result, size));
        }
      case Release(i) =>
        assert s.held[i] in s.held;
        FreeAddsBytes(s.free, s.held[i], s'.free);
        TotalRemoved(s.held, i);
        ReleasedBytes(s.held, i);
    }
  }

  lemma ReleasedBytes(held: seq<Block>, i: nat)
    requires i < |held|
    ensures forall x :: IsFree(held, x) <==> IsFree(Removed(held, i), x) || held[i].Has(x)
  {
    forall x | IsFree(held, x) && !held[i].Has(x)
      ensures IsFree(Removed(held, i), x)
    {
      var b :| b in held && b.Has(x);
      var j :| 0 <= j < |held| && held[j] == b;
      assert Removed(held, i)[if j < i then j else j - 1] == b;
    }
    assert held[i] in held;
    assert forall b :: b in Removed(held, i) ==> b in held;
  }

  /**
   In every state of every run: free and held regions never overlap, the free list
   is canonical, and every byte ever donated is either free or held, none twice and
   none lost.
   */
  lemma {:induction false} EveryRun(states: seq<State>, events: seq<Event>)
    requires Run(states, events)
    ensures Safe(states[|events|]) && Accounted(states[|events|], events)
  {
    if events != [] {
      var n := |events| - 1;
      assert Run(states[..n + 1], events[..n]);
      EveryRun(states[..n + 1], events[..n]);
      assert events == events[..n] + [events[n]];
      StepKeepsSafe(states[n], events[n], states[n + 1]);
      StepKeepsAccounts(states[n], events[n], states[n + 1], events[..n]);
    }
  }

  /** Once everything is released, the free list depends on the donations alone, not on the history. */
  lemma HistoryLeavesNoTrace(states: seq<State>, events: seq<Event>, states': seq<State>, events': seq<Event>)
    requires Run(states, events) && Run(states', events')
    requires states[|events|].held == [] && states'[|events'|].held == []
    requires forall x :: Donated(events, x) <==> Donated(events', x)
    ensures states[|events|].free == states'[|events'|].free
  {
    EveryRun(states, events);
    EveryRun(states', events');
    CanonicalUnique(states[|events|].free, states'[|events'|].free);
  }
}
