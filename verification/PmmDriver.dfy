/**
 Whole sequences of calls on the physical memory manager (kernel/pmm.c), from pmm_init
 on: they are runs in the sense of `PmmRuns`, and keep both lists consistent.
 */
module PmmDriver {
  import opened KernelList
  import opened FreeBlocks
  import opened PmmLayout
  import opened Coalesce
  import opened PmmRuns
  import opened Pmm

  /** What callers ask for: give a region to the manager, allocate, give back the index-th region held. */
  datatype Command = GiveRegion(addr: int, size: int) | AllocateBytes(size: int) | GiveBack(index: nat)

  ghost function RegionOf(c: Command): Block
    requires c.GiveRegion? && 0 <= c.size < ADDRESS_SPACE
  {
    Block(c.addr, RoundUp(c.size))
  }

  ghost predicate SizesFit(cs: seq<Command>) {
    forall i :: 0 <= i < |cs| && !cs[i].GiveBack? ==> 0 <= cs[i].size < ADDRESS_SPACE
  }

  /**
   What the source asks of its callers: sizes fit, and the regions given are valid, clear
   of the headers and disjoint.
   */
  ghost predicate Proper(al: int, sl: int, cs: seq<Command>) {
    && SizesFit(cs)
    && (forall i :: 0 <= i < |cs| && cs[i].GiveRegion? ==> Usable(al, sl, RegionOf(cs[i])))
    && (forall i, j :: 0 <= i < j < |cs| && cs[i].GiveRegion? && cs[j].GiveRegion? ==>
          Disjoint(RegionOf(cs[i]), RegionOf(cs[j])))
  }

  /** A region the manager may hold: valid, of whole units, and clear of both headers. */
  ghost predicate Usable(al: int, sl: int, b: Block) {
    b.Valid() && b.size % PMM_MIN_SIZE == 0 && Clear(al, b) && Clear(sl, b)
  }

  /** Some region was freed that overtakes a block on the size list. */
  ghost predicate SomeOvertakes(states: seq<State>, events: seq<Event>)
    requires |states| == |events| + 1
  {
    exists i :: 0 <= i < |events| && StepOvertakes(states[i], events[i])
  }

  ghost predicate StepOvertakes(s: State, e: Event) {
    match e
    case Donate(b) => Overtakes(s.free, b)
    case Release(i) => i < |s.held| && Overtakes(s.free, s.held[i])
    case Allocate(_, _) => false
  }

  /** For that, the block right above the freed one must have been free. */
  lemma OvertakingMerges(s: State, e: Event)
    requires StepOvertakes(s, e)
    ensures e.Donate? ==> HasHigher(s.free, e.region)
    ensures e.Release? ==> e.index < |s.held| && HasHigher(s.free, s.held[e.index])
  {
    hide Overtakes, HasHigher;
    if e.Donate? {
      OvertakingHasHigher(s.free, e.region);
    } else if e.Release? {
      OvertakingHasHigher(s.free, s.held[e.index]);
    }
  }

  lemma OvertakingHasHigher(bs: seq<Block>, b: Block)
    requires Overtakes(bs, b)
    ensures HasHigher(bs, b)
  {
    hide Overtakes, HasHigher;
    if !HasHigher(bs, b) { NoHigherMergeKeepsOrder(bs, b); }
  }

  /** Every one of these size lists is ordered. */
  ghost predicate AllOrdered(orders: seq<seq<Block>>) { forall i :: 0 <= i < |orders| ==> AscendingBySize(orders[i]) }

  lemma AllOrderedNext(orders: seq<seq<Block>>, order: seq<Block>)
    ensures AllOrdered(orders + [order]) <==> AllOrdered(orders) && AscendingBySize(order)
  {
    hide AscendingBySize;
    var orders' := orders + [order];
    assert orders'[|orders|] == order;
    assert forall i :: 0 <= i < |orders| ==> orders'[i] == orders[i];
  }

  /** The donations of a run are the regions given by these commands. */
  ghost predicate SameDonations(events: seq<Event>, cs: seq<Command>)
    requires SizesFit(cs)
  {
    && (forall e :: e in events && e.Donate? ==>
          exists i :: 0 <= i < |cs| && cs[i].GiveRegion? && RegionOf(cs[i]) == e.region)
    && (forall i :: 0 <= i < |cs| && cs[i].GiveRegion? ==> Donate(RegionOf(cs[i])) in events)
  }

  /**
   The events that answer one command, given the state before and the size list before. A
   region given is freed. A request that rounds to something is one allocation of the
   rounded size, from the first block of the size list that is large enough; what it
   returns and what is then held is for `Step` to say. Giving back a held region is one
   release. Nothing else happens.
   */
  ghost predicate Answers(c: Command, s: State, order: seq<Block>, es: seq<Event>)
    requires !c.GiveBack? ==> 0 <= c.size < ADDRESS_SPACE
  {
    match c
    case GiveRegion(_, _) => es == [Donate(RegionOf(c))]
    case AllocateBytes(n) =>
      if RoundUp(n) == 0 then es == []
      else
        && |es| == 1 && es[0].Allocate? && es[0].size == RoundUp(n)
        && (es[0].result != 0 ==> FirstLargeEnough(order, RoundUp(n), es[0].result))
    case GiveBack(i) => es == if i < |s.held| then [PmmRuns.Release(i)] else []
  }

  predicate UpTo(marks: seq<nat>, i: nat, n: nat)
    requires i + 1 < |marks|
  {
    marks[i] <= marks[i + 1] <= n
  }

  /** Command i is answered by the events from `marks[i]` to `marks[i + 1]`. */
  ghost predicate AllAnswered(cs: seq<Command>, states: seq<State>, events: seq<Event>, orders: seq<seq<Block>>,
                              marks: seq<nat>)
    requires SizesFit(cs)
  {
    && |states| == |events| + 1 && |orders| == |cs| + 1 && |marks| == |cs| + 1
    && marks[0] == 0 && marks[|cs|] == |events|
    && forall i :: 0 <= i < |cs| ==>
         && UpTo(marks, i, |events|)
         && Answers(cs[i], states[marks[i]], orders[i], events[marks[i]..marks[i + 1]])
  }

  lemma AnsweredNext(cs: seq<Command>, i: nat, states: seq<State>, events: seq<Event>, orders: seq<seq<Block>>,
                     marks: seq<nat>, states': seq<State>, es: seq<Event>, order: seq<Block>)
    requires i < |cs| && SizesFit(cs[..i + 1]) && SizesFit(cs[..i])
    requires AllAnswered(cs[..i], states, events, orders, marks)
    requires |states'| == |events + es| + 1 && states'[..|states|] == states
    requires !cs[i].GiveBack? ==> 0 <= cs[i].size < ADDRESS_SPACE
    requires Answers(cs[i], states[|events|], orders[i], es)
    ensures AllAnswered(cs[..i + 1], states', events + es, orders + [order], marks + [|events + es|])
  {
    hide Answers;
    var cs', events', orders', marks' := cs[..i + 1], events + es, orders + [order], marks + [|events + es|];
    forall k | 0 <= k < |cs'|
      ensures && UpTo(marks', k, |events'|)
              && Answers(cs'[k], states'[marks'[k]], orders'[k], events'[marks'[k]..marks'[k + 1]])
    {
      if k < i {
        assert UpTo(marks, k, |events|);
        assert cs[..i][k] == cs'[k] && states'[marks[k]] == states'[..|states|][marks[k]] == states[marks[k]];
        assert events'[marks[k]..marks[k + 1]] == events[marks[k]..marks[k + 1]];
      } else {
        assert states'[|events|] == states'[..|states|][|events|] && events'[|events|..|events'|] == es;
      }
    }
  }

  // ---------------------------------------------------------------------------
  // Steps of a run
  // ---------------------------------------------------------------------------

  lemma RunExtends(states: seq<State>, events: seq<Event>, e: Event, s: State)
    requires Run(states, events) && Step(states[|events|], e, s)
    ensures Run(states + [s], events + [e]) && |states| == |events| + 1 && (states + [s])[|events + [e]|] == s
    ensures SomeOvertakes(states + [s], events + [e]) <==>
              SomeOvertakes(states, events) || StepOvertakes(states[|events|], e)
  {
    hide Step, StepOvertakes;
    var states', events' := states + [s], events + [e];
    assert states'[|events|] == states[|events|] && states'[|events| + 1] == s && events'[|events|] == e;
    if SomeOvertakes(states, events) {
      var i :| 0 <= i < |events| && StepOvertakes(states[i], events[i]);
      assert StepOvertakes(states'[i], events'[i]);
    }
    if StepOvertakes(states[|events|], e) {
      assert StepOvertakes(states'[|events|], events'[|events|]);
    }
  }

  /** A held region may be freed. */
  lemma HeldIsOutside(al: int, sl: int, s: State, i: nat)
    requires Safe(s) && i < |s.held| && Usable(al, sl, s.held[i])
    ensures Outside(al, sl, s.free, s.held[i]) && RoundUp(s.held[i].size) == s.held[i].size
  {
    var h := s.held[i];
    assert h in s.held;
    CanonicalElements(s.free);
    forall b | b in s.free
      ensures Disjoint(b, h)
    {
      assert b.Has(b.addr) && h.Has(h.addr);
      assert h.Has(b.addr) ==> IsFree(s.free, b.addr);
      assert b.Has(h.addr) ==> IsFree(s.free, h.addr);
    }
  }

  /** A region that no command gave before is neither free nor held. */
  lemma NewIsOutside(al: int, sl: int, s: State, events: seq<Event>, cs: seq<Command>, b: Block)
    requires Safe(s) && Accounted(s, events) && Usable(al, sl, b)
    requires SizesFit(cs)
    requires SameDonations(events, cs)
    requires forall i :: 0 <= i < |cs| && cs[i].GiveRegion? ==> Disjoint(RegionOf(cs[i]), b)
    ensures Outside(al, sl, s.free, b) && forall c :: c in s.free || c in s.held ==> Disjoint(b, c)
  {
    forall e | e in events && e.Donate?
      ensures Disjoint(e.region, b)
    {
      var i :| 0 <= i < |cs| && cs[i].GiveRegion? && RegionOf(cs[i]) == e.region;
    }
    assert forall x :: b.Has(x) ==> !Donated(events, x);
    CanonicalElements(s.free);
    forall c | c in s.free || c in s.held
      ensures Disjoint(b, c)
    {
      assert c in s.held ==> exists k :: 0 <= k < |s.held| && s.held[k] == c;
      assert c.Has(c.addr) && b.Has(b.addr);
      assert b.Has(c.addr) ==> IsFree(s.free, c.addr) || IsFree(s.held, c.addr);
      assert c.Has(b.addr) ==> IsFree(s.free, b.addr) || IsFree(s.held, b.addr);
    }
  }

  // ---------------------------------------------------------------------------
  // The calls
  // ---------------------------------------------------------------------------

  /**
   A manager and what its callers hold, at the end of a run; `orders` are the size lists
   after each call.
   */
  ghost predicate AtEndOf(pm: PhysicalMemory, held: seq<Block>, states: seq<State>, events: seq<Event>,
                          orders: seq<seq<Block>>)
    reads pm
  {
    && pm.Valid() && Run(states, events) && states[|events|] == State(pm.blocks, held)
    && (forall b :: b in held ==> Usable(pm.addrList, pm.sizeList, b))
    && orders != [] && orders[|orders| - 1] == pm.bySize && (AllOrdered(orders) <==> !SomeOvertakes(states, events))
  }

  lemma LastOrdered(orders: seq<seq<Block>>)
    requires orders != []
    ensures AllOrdered(orders) ==> AscendingBySize(orders[|orders| - 1])
  {
  }

  /** pmm_free of a region that is new to the manager */
  method Give(pm: PhysicalMemory, addr: int, size: int, ghost held: seq<Block>, ghost states: seq<State>,
              ghost events: seq<Event>, ghost orders: seq<seq<Block>>)
    returns (ghost s: State)
    requires AtEndOf(pm, held, states, events, orders) && 0 <= size < ADDRESS_SPACE
    requires Usable(pm.addrList, pm.sizeList, Block(addr, RoundUp(size)))
    requires Outside(pm.addrList, pm.sizeList, pm.blocks, Block(addr, RoundUp(size)))
    requires forall c :: c in pm.blocks || c in held ==> Disjoint(Block(addr, RoundUp(size)), c)
    modifies pm
    ensures AtEndOf(pm, held, states + [s], events + [Donate(Block(addr, RoundUp(size)))], orders + [pm.bySize])
  {
    hide Represents, Canonical, Granular, AscendingBySize, FreeStep, Overtakes, ExpectedMerges, ChangedOnlyInside,
         Outside, Run, SomeOvertakes, AllOrdered, Clear;
    ghost var b := Block(addr, RoundUp(size));
    LastOrdered(orders);
    ghost var trace, passes := pm.Free(addr, size);
    s := State(pm.blocks, held);
    RunExtends(states, events, Donate(b), s);
    AllOrderedNext(orders, pm.bySize);
  }

  /** pmm_free of a region that is held */
  method Release(pm: PhysicalMemory, held: seq<Block>, i: nat, ghost states: seq<State>, ghost events: seq<Event>,
                 ghost orders: seq<seq<Block>>)
    returns (held': seq<Block>, ghost s: State)
    requires AtEndOf(pm, held, states, events, orders) && i < |held|
    modifies pm
    ensures held' == Removed(held, i)
    ensures AtEndOf(pm, held', states + [s], events + [PmmRuns.Release(i)], orders + [pm.bySize])
  {
    hide Represents, Canonical, Granular, AscendingBySize, FreeStep, Overtakes, ExpectedMerges, ChangedOnlyInside,
         Outside, Run, SomeOvertakes, AllOrdered, Clear, Safe, Accounted, Usable;
    EveryRun(states, events);
    HeldIsOutside(pm.addrList, pm.sizeList, State(pm.blocks, held), i);
    UsableSize(pm.addrList, pm.sizeList, held[i]);
    LastOrdered(orders);
    ghost var trace, passes := pm.Free(held[i].addr, held[i].size);
    held' := held[..i] + held[i + 1..];
    assert held' == Removed(held, i);
    s := State(pm.blocks, held');
    RunExtends(states, events, PmmRuns.Release(i), s);
    AllOrderedNext(orders, pm.bySize);
  }

  lemma UsableSize(al: int, sl: int, b: Block)
    requires Usable(al, sl, b)
    ensures 0 < b.size < ADDRESS_SPACE && b == Block(b.addr, b.size)
  {
  }

  /**
   pmm_alloc; a request that rounds to nothing leaves the list as it was and gives the
   caller nothing to hold.
   */
  method Allocate(pm: PhysicalMemory, size: int, held: seq<Block>, ghost states: seq<State>, ghost events: seq<Event>,
                  ghost orders: seq<seq<Block>>)
    returns (held': seq<Block>, ghost states': seq<State>, ghost events': seq<Event>)
    requires AtEndOf(pm, held, states, events, orders) && 0 <= size < ADDRESS_SPACE
    modifies pm
    ensures AtEndOf(pm, held', states', events', orders + [pm.bySize])
    ensures Extends(states, events, states', events')
    ensures Answers(AllocateBytes(size), states[|events|], old(pm.bySize), events'[|events|..])
  {
    hide Represents, Canonical, Granular, AscendingBySize, AllocStep, ChangedOnlyInside, Outside, BestFit, Run,
         SomeOvertakes, AllOrdered, Clear, FirstLargeEnough;
    LastOrdered(orders);
    EndFacts(pm, held, states, events, orders);
    ghost var old_, order, m := pm.blocks, pm.bySize, pm.mem;
    var result := pm.Alloc(size);
    AllOrderedNext(orders, pm.bySize);
    var rounded := RoundUp(size);
    if rounded == 0 {
      FreeListIsCanonical(states, events);
      NothingTaken(old_, size, result, pm.blocks);
      assert events[|events|..] == [];
      return held, states, events;
    }
    if result != 0 {
      AllocatedOutside(m, pm.addrList, pm.sizeList, old_, order, rounded, result, pm.blocks);
      OutsideIsUsable(pm.addrList, pm.sizeList, pm.blocks, Block(result, rounded));
    }
    held' := if result == 0 then held else held + [Block(result, rounded)];
    ghost var e := PmmRuns.Allocate(rounded, result);
    states', events' := states + [State(pm.blocks, held')], events + [e];
    RunExtends(states, events, e, State(pm.blocks, held'));
    assert events'[|events|..] == [e];
  }

  /** A run that goes on from another one */
  ghost predicate Extends(states: seq<State>, events: seq<Event>, states': seq<State>, events': seq<Event>) {
    && |states| == |events| + 1 && |states'| == |events'| + 1
    && |events| <= |events'| && events'[..|events|] == events && states'[..|states|] == states
  }

  lemma AnswerIsNoDonation(c: Command, s: State, order: seq<Block>, events: seq<Event>, events': seq<Event>)
    requires !c.GiveRegion? && (!c.GiveBack? ==> 0 <= c.size < ADDRESS_SPACE)
    requires |events| <= |events'| && events'[..|events|] == events && Answers(c, s, order, events'[|events|..])
    ensures forall e: Event :: e.Donate? ==> (e in events' <==> e in events)
  {
    assert events' == events + events'[|events|..];
  }

  lemma FreeListIsCanonical(states: seq<State>, events: seq<Event>)
    requires Run(states, events)
    ensures Canonical(states[|events|].free)
  {
    EveryRun(states, events);
  }

  lemma NothingTaken(bs: seq<Block>, size: int, result: int, bs': seq<Block>)
    requires 0 <= size < ADDRESS_SPACE && RoundUp(size) == 0 && AllocStep(bs, RoundUp(size), result, bs')
             && Canonical(bs)
    ensures bs' == bs
  {
    if result != 0 { ExclusiveExactlyWhen(bs, size, result, bs'); }
  }

  lemma OutsideIsUsable(al: int, sl: int, bs: seq<Block>, b: Block)
    requires Outside(al, sl, bs, b) && b.size % PMM_MIN_SIZE == 0
    ensures Usable(al, sl, b)
  {
  }

  lemma EmptyRun(al: int, sl: int, cs: seq<Command>)
    requires Proper(al, sl, cs)
    ensures Run([State([], [])], []) && SizesFit(cs[..0]) && SameDonations([], cs[..0]) && AllOrdered([[]])
    ensures !SomeOvertakes([State([], [])], [])
  {
  }

  /** One command. */
  method Obey(pm: PhysicalMemory, cs: seq<Command>, i: nat, held: seq<Block>, ghost states: seq<State>,
              ghost events: seq<Event>, ghost orders: seq<seq<Block>>)
    returns (held': seq<Block>, ghost states': seq<State>, ghost events': seq<Event>)
    requires i < |cs| && Proper(pm.addrList, pm.sizeList, cs) && AtEndOf(pm, held, states, events, orders)
    requires SizesFit(cs[..i]) && SameDonations(events, cs[..i])
    modifies pm
    ensures AtEndOf(pm, held', states', events', orders + [pm.bySize])
    ensures SizesFit(cs[..i + 1]) && SameDonations(events', cs[..i + 1])
    ensures Extends(states, events, states', events') && (!cs[i].GiveBack? ==> 0 <= cs[i].size < ADDRESS_SPACE)
    ensures orders != [] && Answers(cs[i], states[|events|], orders[|orders| - 1], events'[|events|..])
  {
    EndFacts(pm, held, states, events, orders);
    hide AtEndOf, Usable, Outside, SameDonations, Proper, FirstLargeEnough;
    ProperPrefix(pm.addrList, pm.sizeList, cs, i);
    match cs[i] {
      case GiveRegion(addr, size) =>
        NewRegion(pm, cs, i, held, states, events, orders);
        ghost var s := Give(pm, addr, size, held, states, events, orders);
        held', states', events' := held, states + [s], events + [Donate(Block(addr, RoundUp(size)))];
        assert events'[|events|..] == [Donate(Block(addr, RoundUp(size)))];
        DonationAdded(events, cs, i);
      case AllocateBytes(size) =>
        held', states', events' := Allocate(pm, size, held, states, events, orders);
        AnswerIsNoDonation(cs[i], states[|events|], orders[|orders| - 1], events, events');
        NoDonation(events, events', cs, i);
      case GiveBack(index) =>
        held', states', events' := held, states, events;
        if index < |held| {
          ghost var s;
          held', s := Release(pm, held, index, states, events, orders);
          states', events' := states + [s], events + [PmmRuns.Release(index)];
          assert events'[|events|..] == [PmmRuns.Release(index)];
        } else {
          NoCall(pm, held, states, events, orders);
        }
        NoDonation(events, events', cs, i);
    }
  }

  lemma EndFacts(pm: PhysicalMemory, held: seq<Block>, states: seq<State>, events: seq<Event>, orders: seq<seq<Block>>)
    requires AtEndOf(pm, held, states, events, orders)
    ensures |states| == |events| + 1 && states[|events|].held == held
    ensures orders != [] && orders[|orders| - 1] == pm.bySize
  {
  }

  lemma NoCall(pm: PhysicalMemory, held: seq<Block>, states: seq<State>, events: seq<Event>, orders: seq<seq<Block>>)
    requires AtEndOf(pm, held, states, events, orders)
    ensures AtEndOf(pm, held, states, events, orders + [pm.bySize])
  {
    hide AllOrdered, AscendingBySize, SomeOvertakes, Run, Usable;
    LastOrdered(orders);
    AllOrderedNext(orders, pm.bySize);
  }

  lemma ProperPrefix(al: int, sl: int, cs: seq<Command>, i: nat)
    requires i < |cs| && Proper(al, sl, cs)
    ensures SizesFit(cs[..i + 1]) && (!cs[i].GiveBack? ==> 0 <= cs[i].size < ADDRESS_SPACE)
    ensures cs[i].GiveRegion? ==> Usable(al, sl, RegionOf(cs[i]))
    ensures cs[i].GiveRegion? ==>
              forall j :: 0 <= j < i && cs[..i][j].GiveRegion? ==> Disjoint(RegionOf(cs[..i][j]), RegionOf(cs[i]))
  {
    hide Usable;
  }

  lemma NewRegion(pm: PhysicalMemory, cs: seq<Command>, i: nat, held: seq<Block>, states: seq<State>,
                  events: seq<Event>, orders: seq<seq<Block>>)
    requires i < |cs| && Proper(pm.addrList, pm.sizeList, cs) && cs[i].GiveRegion?
    requires AtEndOf(pm, held, states, events, orders)
    requires SizesFit(cs[..i]) && SameDonations(events, cs[..i])
    ensures 0 <= cs[i].size < ADDRESS_SPACE && Usable(pm.addrList, pm.sizeList, RegionOf(cs[i]))
    ensures Outside(pm.addrList, pm.sizeList, pm.blocks, RegionOf(cs[i]))
    ensures forall c :: c in pm.blocks || c in held ==> Disjoint(RegionOf(cs[i]), c)
  {
    hide Usable, Outside, SameDonations, Proper, Run, SomeOvertakes, AllOrdered, Safe, Accounted, Granular, Represents;
    ProperPrefix(pm.addrList, pm.sizeList, cs, i);
    EveryRun(states, events);
    NewIsOutside(pm.addrList, pm.sizeList, State(pm.blocks, held), events, cs[..i], RegionOf(cs[i]));
  }

  lemma DonationAdded(events: seq<Event>, cs: seq<Command>, i: nat)
    requires i < |cs| && SizesFit(cs[..i + 1]) && cs[i].GiveRegion? && SameDonations(events, cs[..i])
    ensures SameDonations(events + [Donate(RegionOf(cs[i]))], cs[..i + 1])
  {
    var cs', events' := cs[..i + 1], events + [Donate(RegionOf(cs[i]))];
    forall e | e in events' && e.Donate?
      ensures exists j :: 0 <= j < |cs'| && cs'[j].GiveRegion? && RegionOf(cs'[j]) == e.region
    {
      if e in events {
        var j :| 0 <= j < i && cs[..i][j].GiveRegion? && RegionOf(cs[..i][j]) == e.region;
        assert cs'[j] == cs[..i][j];
      } else {
        assert cs'[i] == cs[i];
      }
    }
    forall j | 0 <= j < |cs'| && cs'[j].GiveRegion?
      ensures Donate(RegionOf(cs'[j])) in events'
    {
      if j < i { assert cs[..i][j] == cs'[j]; }
    }
  }

  lemma NoDonation(events: seq<Event>, events': seq<Event>, cs: seq<Command>, i: nat)
    requires i < |cs| && SizesFit(cs[..i + 1]) && !cs[i].GiveRegion? && SameDonations(events, cs[..i])
    requires forall e: Event :: e.Donate? ==> (e in events' <==> e in events)
    ensures SameDonations(events', cs[..i + 1])
  {
    var cs' := cs[..i + 1];
    forall e | e in events' && e.Donate?
      ensures exists j :: 0 <= j < |cs'| && cs'[j].GiveRegion? && RegionOf(cs'[j]) == e.region
    {
      var j :| 0 <= j < i && cs[..i][j].GiveRegion? && RegionOf(cs[..i][j]) == e.region;
      assert cs'[j] == cs[..i][j];
    }
    forall j | 0 <= j < |cs'| && cs'[j].GiveRegion?
      ensures Donate(RegionOf(cs'[j])) in events'
    {
      assert cs[..i][j] == cs'[j];
    }
  }

  /**
   Any sequence of calls from pmm_init on: both lists stay consistent, the address list
   is the free list of a run of `PmmRuns` whose events answer the commands one by one, free
   and held regions are disjoint and account for every byte given, the size list is a
   permutation of the address list, and the size lists after all the calls are ordered if
   and only if no freed region overtook a block.
   */
  method Drive(mem: Memory, addrList: int, sizeList: int, cs: seq<Command>)
    returns (pm: PhysicalMemory, held: seq<Block>, ghost states: seq<State>, ghost events: seq<Event>,
             ghost orders: seq<seq<Block>>, ghost marks: seq<nat>)
    requires 0 < addrList && 0 < sizeList
    requires addrList + HEADER_BYTES <= sizeList || sizeList + HEADER_BYTES <= addrList
    requires Proper(addrList, sizeList, cs)
    ensures fresh(pm) && pm.Valid() && pm.addrList == addrList && pm.sizeList == sizeList
    ensures Run(states, events) && SameDonations(events, cs) && states[|events|] == State(pm.blocks, held)
    ensures AllAnswered(cs, states, events, orders, marks)
    ensures Safe(State(pm.blocks, held)) && Accounted(State(pm.blocks, held), events)
    ensures multiset(pm.bySize) == multiset(pm.blocks)
    ensures |orders| == |cs| + 1 && orders[|cs|] == pm.bySize
            && (AllOrdered(orders) <==> !SomeOvertakes(states, events))
  {
    hide Represents, Canonical, Granular, AscendingBySize, Outside, Run, SomeOvertakes, AllOrdered, Clear, Safe,
         Accounted, Usable,
         SameDonations, Proper;
    pm := new PhysicalMemory(mem, addrList, sizeList);
    held, states, events := [], [State([], [])], [];
    orders, marks := [pm.bySize], [0];
    EmptyRun(addrList, sizeList, cs);
    for i := 0 to |cs|
      invariant fresh(pm) && pm.addrList == addrList && pm.sizeList == sizeList
      invariant AtEndOf(pm, held, states, events, orders) && |orders| == i + 1
      invariant SizesFit(cs[..i]) && SameDonations(events, cs[..i])
      invariant AllAnswered(cs[..i], states, events, orders, marks)
    {
      ghost var s0, e0 := states, events;
      EndFacts(pm, held, states, events, orders);
      held, states, events := Obey(pm, cs, i, held, states, events, orders);
      ghost var es := events[|e0|..];
      assert events == e0 + es;
      AnsweredNext(cs, i, s0, e0, orders, marks, states, es, pm.bySize);
      orders, marks := orders + [pm.bySize], marks + [|events|];
    }
    assert cs[..|cs|] == cs;
    EveryRun(states, events);
    SameBlocks(pm.mem, addrList, sizeList, pm.blocks, pm.bySize);
  }

  /** Three calls after which the size list is not ordered: 1 KiB is freed below 3 KiB, with 2 KiB elsewhere. */
  method OrderBreaks(mem: Memory, addrList: int, sizeList: int) returns (pm: PhysicalMemory)
    requires 0 < addrList && addrList + HEADER_BYTES <= 0x400 && 0x3000 <= sizeList
    ensures fresh(pm) && pm.Valid() && !AscendingBySize(pm.bySize)
    ensures FreeStep([Block(0x800, 0xC00), Block(0x2000, 0x800)], Block(0x400, 0x400), pm.blocks)
  {
    hide Represents, Canonical, Granular, AscendingBySize, FreeStep, Overtakes, ExpectedMerges, ChangedOnlyInside,
         Outside, HasHigher, Acceptable;
    ghost var two, three, one := Block(0x2000, 0x800), Block(0x800, 0xC00), Block(0x400, 0x400);
    BreakingRegions(addrList, sizeList);
    pm := new PhysicalMemory(mem, addrList, sizeList);
    EmptyIsAscending();
    ghost var trace, passes := pm.Free(0x2000, 0x800);
    FirstBlock(two, pm.blocks);
    trace, passes := pm.Free(0x800, 0xC00);
    SecondBlock(three, two, pm.blocks);
    OrderCanBreak(addrList, sizeList);
    trace, passes := pm.Free(0x400, 0x400);
  }

  lemma EmptyIsAscending()
    ensures AscendingBySize([])
  {
  }

  lemma BreakingRegions(al: int, sl: int)
    requires 0 < al && al + HEADER_BYTES <= 0x400 && 0x3000 <= sl
    ensures var two, three, one := Block(0x2000, 0x800), Block(0x800, 0xC00), Block(0x400, 0x400);
            && Outside(al, sl, [], two) && Outside(al, sl, [two], three) && Outside(al, sl, [three, two], one)
            && !Overtakes([], two) && !Overtakes([two], three)
    ensures RoundUp(0x800) == 0x800 && RoundUp(0xC00) == 0xC00 && RoundUp(0x400) == 0x400
  {
    NoHigherMergeKeepsOrder([], Block(0x2000, 0x800));
    NoHigherMergeKeepsOrder([Block(0x2000, 0x800)], Block(0x800, 0xC00));
  }

  lemma FirstBlock(b: Block, bs: seq<Block>)
    requires FreeStep([], b, bs) && b.Valid()
    ensures bs == [b]
  {
    assert b in [b];
    CanonicalUnique(bs, [b]);
  }

  lemma SecondBlock(b: Block, c: Block, bs: seq<Block>)
    requires FreeStep([c], b, bs) && b.Valid() && c.Valid() && b.End() < c.addr
    ensures bs == [b, c]
  {
    assert b in [b, c] && c in [b, c] && c in [c];
    CanonicalUnique(bs, [b, c]);
  }

  lemma ThirdBlock(bs: seq<Block>)
    requires FreeStep([Block(0x800, 0xC00), Block(0x2000, 0x800)], Block(0x400, 0x400), bs)
    ensures bs == [Block(0x400, 0x1000), Block(0x2000, 0x800)]
  {
    var before, after := [Block(0x800, 0xC00), Block(0x2000, 0x800)], [Block(0x400, 0x1000), Block(0x2000, 0x800)];
    assert before[0] in before && before[1] in before && after[0] in after && after[1] in after;
    CanonicalUnique(bs, after);
  }

  lemma LargerFirst(order: seq<Block>, bs: seq<Block>)
    requires bs == [Block(0x400, 0x1000), Block(0x2000, 0x800)]
    requires multiset(order) == multiset(bs) && !AscendingBySize(order)
    ensures order == bs
  {
    assert |order| == |multiset(order)| == 2;
    assert order == [order[0], order[1]];
    assert multiset(order)[bs[0]] == 1 && multiset(order)[bs[1]] == 1;
  }

  /**
   Then allocation is not a best fit: a request for 2 KiB splits the block of 4 KiB,
   although a block of 2 KiB is free.
   */
  method FitIsNotBest(mem: Memory, addrList: int, sizeList: int) returns (pm: PhysicalMemory, result: int)
    requires 0 < addrList && addrList + HEADER_BYTES <= 0x400 && 0x3000 <= sizeList
    ensures fresh(pm) && pm.Valid() && result == 0x400
    ensures AllocStep([Block(0x400, 0x1000), Block(0x2000, 0x800)], 0x800, result, pm.blocks)
    ensures !BestFit([Block(0x400, 0x1000), Block(0x2000, 0x800)], 0x800, result)
  {
    hide Represents, Canonical, Granular, AscendingBySize, FreeStep, AllocStep, ChangedOnlyInside, BestFit,
         FirstLargeEnough;
    pm := OrderBreaks(mem, addrList, sizeList);
    ghost var bs := pm.blocks;
    ThirdBlock(bs);
    SameBlocks(pm.mem, pm.addrList, pm.sizeList, bs, pm.bySize);
    LargerFirst(pm.bySize, bs);
    EnoughIsFree(bs);
    assert RoundUp(0x800) == 0x800;
    result := pm.Alloc(0x800);
    NotSmallest(bs, result, pm.blocks);
  }

  lemma EnoughIsFree(bs: seq<Block>)
    requires bs == [Block(0x400, 0x1000), Block(0x2000, 0x800)]
    ensures forall bs' :: !AllocStep(bs, 0x800, 0, bs')
  {
    assert bs[1] in bs;
  }

  lemma NotSmallest(bs: seq<Block>, result: int, bs': seq<Block>)
    requires bs == [Block(0x400, 0x1000), Block(0x2000, 0x800)]
    requires result != 0 ==> FirstLargeEnough(bs, 0x800, result)
    requires AllocStep(bs, 0x800, result, bs')
    ensures result == 0x400 && !BestFit(bs, 0x800, result)
  {
    assert bs[0] in bs && bs[1] in bs;
  }
}
