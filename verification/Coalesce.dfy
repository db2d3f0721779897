/**
 The coalescing passes of pmm_free (kernel/pmm.c), as facts about block lists.
 */
module Coalesce {
  import opened KernelList
  import opened FreeBlocks
  import opened PmmLayout

  datatype Side = Lower | Higher

  /** How a scan of the address list ends. */
  datatype Found = FoundNeighbour(side: Side) | Stop

  datatype Neighbour = NoNeighbour | Merged(block: Block)

  ghost predicate HasLower(bs: seq<Block>, freed: Block) { exists b :: b in bs && b.End() == freed.addr }

  ghost predicate HasHigher(bs: seq<Block>, freed: Block) { exists b :: b in bs && b.addr == freed.End() }

  /** The merges a free must make, in the order it makes them. */
  ghost function ExpectedMerges(bs: seq<Block>, freed: Block): seq<Side> {
    (if HasLower(bs, freed) then [Lower] else []) + (if HasHigher(bs, freed) then [Higher] else [])
  }

  /** A region outside both headers and every listed block. */
  ghost predicate Outside(al: int, sl: int, bs: seq<Block>, region: Block) {
    && region.Valid() && Clear(al, region) && Clear(sl, region)
    && (forall b :: b in bs ==> Disjoint(b, region))
  }

  /** What a call pmm_free(freed) starts from: a canonical list clear of the headers, and a region it does not use. */
  ghost predicate Acceptable(al: int, sl: int, before: seq<Block>, freed: Block) {
    && Canonical(before) && Outside(al, sl, before, freed)
    && (forall b :: b in before ==> Clear(al, b) && Clear(sl, b))
  }

  ghost predicate Within(before: seq<Block>, freed: Block, region: Block) {
    forall x :: region.Has(x) ==> IsFree(before, x) || freed.Has(x)
  }

  /**
   Where a free stands between passes.  `size` is the local variable of pmm_free,
   which a higher merge does not update; `stored` is the size recorded in the block.
   */
  ghost predicate Coalescing(before: seq<Block>, freed: Block, bs: seq<Block>, lower: Neighbour, higher: Neighbour,
                             addr: int, size: int, stored: int)
  {
    && (lower.Merged? ==> lower.block in before && lower.block.End() == freed.addr)
    && (higher.Merged? ==> higher.block in before && higher.block.addr == freed.End())
    && addr == (if lower.Merged? then lower.block.addr else freed.addr)
    && size == freed.End() - addr
    && stored == (if higher.Merged? then higher.block.End() else freed.End()) - addr
    && (forall b :: b in bs <==> b in before && Merged(b) != lower && Merged(b) != higher)
    && (higher.Merged? && lower.NoNeighbour? ==> !HasLower(before, freed))
  }

  ghost function Merges(lower: Neighbour, higher: Neighbour): seq<Side> {
    (if lower.Merged? then [Lower] else []) + (if higher.Merged? then [Higher] else [])
  }

  /** The pending block stays outside the lists, and inside what the free may touch. */
  lemma PendingBlock(al: int, sl: int, before: seq<Block>, freed: Block, bs: seq<Block>, lower: Neighbour,
                     higher: Neighbour, addr: int, size: int, stored: int)
    requires Acceptable(al, sl, before, freed) && Coalescing(before, freed, bs, lower, higher, addr, size, stored)
    ensures Outside(al, sl, bs, Block(addr, stored))
    ensures Within(before, freed, Block(addr, stored))
  {
    CanonicalElements(before);
    var pending := Block(addr, stored);
    forall x | pending.Has(x) && !freed.Has(x)
      ensures IsFree(before, x)
    {
      assert (if x < freed.addr then lower.block else higher.block).Has(x);
    }
  }

  /**
   When no neighbour is left, the pending block fits where the scan stopped, and the bytes
   covered are exactly right.
   */
  lemma CoalescedFits(al: int, sl: int, before: seq<Block>, freed: Block, bs: seq<Block>, lower: Neighbour,
                      higher: Neighbour,
                      addr: int, size: int, stored: int, k: nat)
    requires Acceptable(al, sl, before, freed) && Coalescing(before, freed, bs, lower, higher, addr, size, stored)
    requires Canonical(bs) && k <= |bs|
    requires lower.NoNeighbour? ==> !HasLower(before, freed)
    requires higher.NoNeighbour? ==> !HasHigher(before, freed)
    requires forall i :: 0 <= i < k ==> bs[i].addr < addr
    requires forall i :: k <= i < |bs| ==> addr < bs[i].addr
    ensures Fits(bs, k, Block(addr, stored))
  {
    CanonicalElements(before);
    PendingBlock(al, sl, before, freed, bs, lower, higher, addr, size, stored);
    var pending := Block(addr, stored);
    forall i | 0 <= i < |bs|
      ensures if i < k then bs[i].End() < addr else pending.End() < bs[i].addr
    {
      assert bs[i] in bs && bs[i] in before && bs[i].Valid();
      assert Disjoint(bs[i], pending);
      assert lower.Merged? ==> bs[i] != lower.block;
      assert higher.Merged? ==> bs[i] != higher.block;
    }
  }

  lemma CoalescedCovers(al: int, sl: int, before: seq<Block>, freed: Block, bs: seq<Block>, lower: Neighbour,
                        higher: Neighbour,
                        addr: int, size: int, stored: int, k: nat, bs': seq<Block>)
    requires Acceptable(al, sl, before, freed) && Coalescing(before, freed, bs, lower, higher, addr, size, stored)
    requires k <= |bs| && bs' == Inserted(bs, k, Block(addr, stored)) && Canonical(bs')
    ensures FreeStep(before, freed, bs')
  {
    var pending := Block(addr, stored);
    forall x
      ensures IsFree(bs', x) <==> IsFree(before, x) || freed.Has(x)
    {
      InsertedFree(bs, k, pending, x);
      if IsFree(before, x) {
        var b :| b in before && b.Has(x);
        assert b in bs || Merged(b) == lower || Merged(b) == higher;
      }
      if pending.Has(x) && !freed.Has(x) {
        assert (if x < freed.addr then lower.block else higher.block).Has(x);
      }
    }
  }

  lemma InsertedFree(bs: seq<Block>, k: nat, b: Block, x: int)
    requires k <= |bs|
    ensures IsFree(Inserted(bs, k, b), x) <==> IsFree(bs, x) || b.Has(x)
  {
    InsertedElements(bs, k, b);
  }

  /** Absorbing the block above: only the stored size grows. */
  lemma AbsorbHigher(al: int, sl: int, before: seq<Block>, freed: Block, bs: seq<Block>, k: nat, lower: Neighbour,
                     addr: int, size: int)
    requires Acceptable(al, sl, before, freed) && Canonical(bs) && k < |bs| && bs[k].addr == freed.End()
    requires Coalescing(before, freed, bs, lower, NoNeighbour, addr, size, size)
    requires lower.NoNeighbour? ==> !HasLower(before, freed)
    ensures Coalescing(before, freed, Removed(bs, k), lower, Merged(bs[k]), addr, size, Wrap(size + bs[k].size))
  {
    assert bs[k] in bs;
    CanonicalElements(before);
    CanonicalElements(bs);
    RemovedElements(bs, k);
  }

  /**
   Absorbing the block below: address, local size and stored size all move together,
   because no higher merge came first.
   */
  lemma AbsorbLower(al: int, sl: int, before: seq<Block>, freed: Block, bs: seq<Block>, k: nat, addr: int, size: int)
    requires Acceptable(al, sl, before, freed) && Canonical(bs) && k < |bs| && bs[k].End() == addr
    requires Coalescing(before, freed, bs, NoNeighbour, NoNeighbour, addr, size, size)
    ensures var total := Wrap(size + bs[k].size);
            Coalescing(before, freed, Removed(bs, k), Merged(bs[k]), NoNeighbour, bs[k].addr, total, total)
  {
    assert bs[k] in bs;
    CanonicalElements(before);
    CanonicalElements(bs);
    RemovedElements(bs, k);
  }

  /**
   A listed block that ends where the pending block starts can only be the unmerged lower
   neighbour, seen before any merge.
   */
  lemma LowerComesFirst(al: int, sl: int, before: seq<Block>, freed: Block, bs: seq<Block>, b: Block, lower: Neighbour,
                        higher: Neighbour,
                        addr: int, size: int, stored: int)
    requires Acceptable(al, sl, before, freed)
    requires Coalescing(before, freed, bs, lower, higher, addr, size, stored)
    requires b in bs && b.End() == addr
    ensures lower.NoNeighbour? && higher.NoNeighbour?
  {
    CanonicalElements(before);
  }

  /** The address `addr + size` computed from the stale local size never names a listed block twice. */
  lemma HigherAtMostOnce(al: int, sl: int, before: seq<Block>, freed: Block, bs: seq<Block>, b: Block, lower: Neighbour,
                         higher: Neighbour,
                         addr: int, size: int, stored: int)
    requires Acceptable(al, sl, before, freed)
    requires Coalescing(before, freed, bs, lower, higher, addr, size, stored)
    requires b in bs && b.addr == addr + size
    ensures higher.NoNeighbour? && stored == size
  {
    CanonicalElements(before);
  }

  /** The scan has gone past the first `k` blocks without meeting a neighbour or a higher block. */
  ghost predicate Passed(bs: seq<Block>, k: nat, freed: Block, addr: int) {
    && k <= |bs|
    && forall i :: 0 <= i < k ==> bs[i].addr <= addr && bs[i].End() != addr && bs[i].addr != freed.End()
  }

  /** A block found at `addr + size` is the unmerged higher neighbour, and the lower one is already dealt with. */
  lemma ScanHigher(al: int, sl: int, before: seq<Block>, freed: Block, bs: seq<Block>, k: nat, lower: Neighbour,
                   higher: Neighbour, addr: int, size: int, stored: int)
    requires Acceptable(al, sl, before, freed) && Canonical(bs) && k < |bs| && Passed(bs, k, freed, addr)
    requires Coalescing(before, freed, bs, lower, higher, addr, size, stored)
    requires bs[k].addr == Wrap(addr + size)
    ensures bs[k].addr == freed.End() && higher.NoNeighbour?
    ensures lower.NoNeighbour? ==> !HasLower(before, freed)
  {
    assert bs[k] in bs;
    CanonicalElements(before);
    HigherAtMostOnce(al, sl, before, freed, bs, bs[k], lower, higher, addr, size, stored);
    assert forall i :: 0 <= i < |bs| ==> bs[i].End() != addr;
    assert forall b :: b in bs ==> b.End() != addr;
  }

  /** A block found at `addr - current->size` is the unmerged lower neighbour, and nothing has been merged yet. */
  lemma ScanLower(al: int, sl: int, before: seq<Block>, freed: Block, bs: seq<Block>, k: nat, lower: Neighbour,
                  higher: Neighbour, addr: int, size: int, stored: int)
    requires Acceptable(al, sl, before, freed) && Canonical(bs) && k < |bs|
    requires Coalescing(before, freed, bs, lower, higher, addr, size, stored)
    requires bs[k].addr == Wrap(addr - bs[k].size)
    ensures bs[k].End() == addr && lower.NoNeighbour? && higher.NoNeighbour?
  {
    assert bs[k] in bs;
    CanonicalElements(before);
    assert 0 < addr < ADDRESS_SPACE;
    LowerComesFirst(al, sl, before, freed, bs, bs[k], lower, higher, addr, size, stored);
  }

  lemma PassedNext(al: int, sl: int, before: seq<Block>, freed: Block, bs: seq<Block>, k: nat, lower: Neighbour,
                   higher: Neighbour, addr: int, size: int, stored: int)
    requires Acceptable(al, sl, before, freed) && Canonical(bs) && k < |bs| && Passed(bs, k, freed, addr)
    requires Coalescing(before, freed, bs, lower, higher, addr, size, stored)
    requires bs[k].addr <= addr && bs[k].addr != Wrap(addr + size) && bs[k].addr != Wrap(addr - bs[k].size)
    ensures Passed(bs, k + 1, freed, addr)
  {
  }

  /** When the scan stops, no neighbour is left unmerged and the pending block belongs where it stopped. */
  lemma ScanDone(al: int, sl: int, before: seq<Block>, freed: Block, bs: seq<Block>, k: nat, lower: Neighbour,
                 higher: Neighbour, addr: int, size: int, stored: int)
    requires Acceptable(al, sl, before, freed) && Canonical(bs) && Passed(bs, k, freed, addr)
    requires Coalescing(before, freed, bs, lower, higher, addr, size, stored)
    requires k < |bs| ==> bs[k].addr > addr && bs[k].addr != Wrap(addr + size)
    ensures lower.Merged? <==> HasLower(before, freed)
    ensures higher.Merged? <==> HasHigher(before, freed)
    ensures Fits(bs, k, Block(addr, stored))
  {
    CanonicalElements(before);
    PendingBlock(al, sl, before, freed, bs, lower, higher, addr, size, stored);
    forall i | 0 <= i < |bs|
      ensures if i < k then bs[i].addr < addr else addr < bs[i].addr
    {
      assert bs[i] in bs && Disjoint(bs[i], Block(addr, stored));
    }
    assert forall i :: 0 <= i < |bs| ==> bs[i].End() != addr;
    assert forall b :: b in bs ==> b.End() != addr;
    if higher.NoNeighbour? { NoHigherLeft(al, sl, before, freed, bs, k, lower, addr, size); }
    CoalescedFits(al, sl, before, freed, bs, lower, higher, addr, size, stored, k);
  }

  lemma NoHigherLeft(al: int, sl: int, before: seq<Block>, freed: Block, bs: seq<Block>, k: nat, lower: Neighbour,
                     addr: int, size: int)
    requires Acceptable(al, sl, before, freed) && Canonical(bs) && Passed(bs, k, freed, addr)
    requires Coalescing(before, freed, bs, lower, NoNeighbour, addr, size, size)
    requires k < |bs| ==> bs[k].addr > addr && bs[k].addr != Wrap(addr + size)
    ensures !HasHigher(before, freed)
  {
    CanonicalElements(before);
    PendingBlock(al, sl, before, freed, bs, lower, NoNeighbour, addr, size, size);
    forall i | 0 <= i < |bs|
      ensures bs[i].addr != freed.End()
    {
      assert bs[i] in bs;
      if k <= i { assert bs[k] in bs && Disjoint(bs[k], Block(addr, size)); }
    }
    assert forall b :: b in bs ==> b.addr != freed.End();
  }

  lemma AscendingRemoved(order: seq<Block>, j: nat)
    requires j < |order|
    ensures AscendingBySize(order) ==> AscendingBySize(Removed(order, j))
  {
  }

  // ---------------------------------------------------------------------------
  // The order of the size list
  // ---------------------------------------------------------------------------

  /** `j` is where pmm_free inserts into the size list: in front of the first block larger than `size`. */
  ghost predicate FirstLarger(order: seq<Block>, size: int, j: nat) {
    && j <= |order|
    && (forall i :: 0 <= i < j ==> order[i].size <= size)
    && (j < |order| ==> order[j].size > size)
  }

  ghost function SizeBelow(bs: seq<Block>, freed: Block): int {
    if HasLower(bs, freed) then var b :| b in bs && b.End() == freed.addr; b.size else 0
  }

  ghost function SizeAbove(bs: seq<Block>, freed: Block): int {
    if HasHigher(bs, freed) then var b :| b in bs && b.addr == freed.End(); b.size else 0
  }

  /**
   Some block that stays on the list has a size strictly between the size the
   freed region has without its higher neighbour and the size it has with it.
   */
  ghost predicate Overtakes(bs: seq<Block>, freed: Block) {
    var stale := freed.size + SizeBelow(bs, freed);
    exists b :: b in bs && b.End() != freed.addr && b.addr != freed.End()
                && stale < b.size < stale + SizeAbove(bs, freed)
  }

  lemma AscendingInserted(order: seq<Block>, j: nat, b: Block, size: int)
    requires AscendingBySize(order) && FirstLarger(order, size, j) && size <= b.size
    ensures AscendingBySize(Inserted(order, j, b)) <==> !exists x :: x in order && size < x.size < b.size
  {
    var r := Inserted(order, j, b);
    if exists x :: x in order && size < x.size < b.size {
      var x :| x in order && size < x.size < b.size;
      var i :| 0 <= i < |order| && order[i] == x;
      assert r[i + 1] == x && r[j] == b && j < i + 1;
    } else {
      assert forall i :: 0 <= i < |order| ==> order[i] in order;
    }
  }

  lemma OvertakesRemaining(al: int, sl: int, before: seq<Block>, freed: Block, bs: seq<Block>, lower: Neighbour,
                           higher: Neighbour, addr: int, size: int, stored: int)
    requires Acceptable(al, sl, before, freed) && Coalescing(before, freed, bs, lower, higher, addr, size, stored)
    requires lower.Merged? <==> HasLower(before, freed)
    requires higher.Merged? <==> HasHigher(before, freed)
    ensures Overtakes(before, freed) <==> exists x :: x in bs && size < x.size < stored
  {
    CanonicalElements(before);
    assert size == freed.size + SizeBelow(before, freed);
    assert stored == size + SizeAbove(before, freed);
    assert forall b :: b in bs <==> b in before && b.End() != freed.addr && b.addr != freed.End();
  }

  lemma MergedIsGranular(before: seq<Block>, freed: Block, bs: seq<Block>, lower: Neighbour, higher: Neighbour,
                         addr: int, size: int, stored: int)
    requires Coalescing(before, freed, bs, lower, higher, addr, size, stored)
    requires Granular(before) && freed.size % PMM_MIN_SIZE == 0
    ensures Granular(bs) && stored % PMM_MIN_SIZE == 0
  {
    var below := if lower.Merged? then lower.block.size else 0;
    var above := if higher.Merged? then higher.block.size else 0;
    assert stored == below + freed.size + above;
    WholeUnits(below, freed.size, above);
  }

  lemma WholeUnits(a: int, b: int, c: int)
    requires a % PMM_MIN_SIZE == 0 && b % PMM_MIN_SIZE == 0 && c % PMM_MIN_SIZE == 0
    ensures (a + b + c) % PMM_MIN_SIZE == 0
  {
  }

  /** Without a higher merge the size list keeps its order. */
  lemma NoHigherMergeKeepsOrder(bs: seq<Block>, freed: Block)
    requires !HasHigher(bs, freed)
    ensures !Overtakes(bs, freed)
  {
  }

  /**
   With one it can lose it: 1 KiB freed below a 3 KiB block, with a 2 KiB block elsewhere,
   is filed as 1 KiB but records 4.
   */
  lemma OrderCanBreak(al: int, sl: int)
    requires 0 < al && al + HEADER_BYTES <= 0x400 && 0x3000 <= sl
    ensures var bs := [Block(0x800, 0xC00), Block(0x2000, 0x800)];
            var freed := Block(0x400, 0x400);
            Acceptable(al, sl, bs, freed) && Granular(bs) && Overtakes(bs, freed)
  {
    var bs := [Block(0x800, 0xC00), Block(0x2000, 0x800)];
    var freed := Block(0x400, 0x400);
    assert bs[0] in bs && bs[0].addr == freed.End();
    assert HasHigher(bs, freed) && !HasLower(bs, freed);
    assert bs[1] in bs && bs[1].End() != freed.addr && bs[1].addr != freed.End();
  }
}
