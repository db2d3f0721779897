/**
 The physical memory manager (kernel/pmm.c).
 */
module Pmm {
  import opened KernelList
  import opened FreeBlocks
  import opened PmmLayout
  import opened Coalesce
  import opened PmmRuns

  class PhysicalMemory {
    const addrList: int
    const sizeList: int
    var mem: Memory
    ghost var blocks: seq<Block>
    ghost var bySize: seq<Block>

    /** Memory holds the canonical free list twice: by address, and as some permutation of it. */
    ghost predicate Consistent()
      reads this
    {
      Represents(mem, addrList, sizeList, blocks, bySize)
    }

    ghost predicate Valid()
      reads this
    {
      Consistent() && Granular(blocks)
    }

    /** pmm_init */
    constructor (mem: Memory, addrList: int, sizeList: int)
      requires 0 < addrList && 0 < sizeList
      requires addrList + HEADER_BYTES <= sizeList || sizeList + HEADER_BYTES <= addrList
      ensures Valid() && blocks == [] && bySize == []
      ensures this.addrList == addrList && this.sizeList == sizeList
      ensures forall a :: !InHeaders(addrList, sizeList, a) ==> Word(this.mem, a) == Word(mem, a)
    {
      this.addrList, this.sizeList := addrList, sizeList;
      var m1 := ListInit(mem, addrList);
      this.mem := ListInit(m1, sizeList);
      blocks, bySize := [], [];
      InitIsEmpty(mem, addrList);
      InitIsEmpty(m1, sizeList);
      LinkedFrame(m1, ListInit(m1, sizeList), addrList, []);
      assert Nodes([], ADDR_NODE) == [] && Nodes([], SIZE_NODE) == [];
    }

    /** The pair of list_node_delete_c calls that take a block off both lists. */
    method Unlink(current: int, ghost k: nat) returns (ghost j: nat)
      requires Consistent() && k < |blocks| && blocks[k].addr == current
      modifies this
      ensures Consistent() && blocks == Removed(old(blocks), k)
      ensures j < |old(bySize)| && old(bySize)[j] == old(blocks)[k] && bySize == Removed(old(bySize), j)
      ensures ChangedOnlyInside(addrList, sizeList, blocks, old(mem), mem)
    {
      hide Represents, ChangedOnlyInside;
      ListedBlock(mem, addrList, sizeList, blocks, bySize, k);
      j :| 0 <= j < |bySize| && bySize[j] == blocks[k];
      mem := NodeDelete(mem, current);
      mem := NodeDelete(mem, current + SIZE_NODE);
      UnlinkKeeps(old(mem), addrList, sizeList, blocks, bySize, k, j, mem);
      blocks, bySize := Removed(blocks, k), Removed(bySize, j);
    }

    /** Recording a size in both nodes of a block that is on neither list. */
    method StoreSizes(node: int, size: int, ghost region: Block)
      requires Consistent() && Outside(addrList, sizeList, blocks, region) && region.addr == node
      modifies this`mem
      ensures Consistent()
      ensures SizeOf(mem, node) == size && SizeOf(mem, node + SIZE_NODE) == size
      ensures ChangedOnlyIn(region, old(mem), mem)
    {
      mem := mem[node + 8 := size][node + SIZE_NODE + 8 := size];
      StoreKeeps(old(mem), mem, addrList, sizeList, blocks, bySize, region);
    }

    /** A free in progress: both lists hold the remaining blocks, and the pending block's two nodes record its size. */
    ghost predicate Pending(before: seq<Block>, freed: Block, lower: Neighbour, higher: Neighbour, addr: int, size: int)
      reads this
    {
      && Consistent() && Acceptable(addrList, sizeList, before, freed)
      && Coalescing(before, freed, blocks, lower, higher, addr, size, SizeOf(mem, addr))
      && SizeOf(mem, addr + SIZE_NODE) == SizeOf(mem, addr)
    }

    /** Coalesce with higher: the stored size grows, the caller's local size does not. */
    method MergeHigher(addr: int, size: int, current: int, ghost k: nat,
                       ghost before: seq<Block>, ghost freed: Block, ghost lower: Neighbour)
      returns (ghost j: nat)
      requires Pending(before, freed, lower, NoNeighbour, addr, size)
      requires k < |blocks| && blocks[k].addr == current == freed.End()
      requires lower.NoNeighbour? ==> !HasLower(before, freed)
      modifies this
      ensures blocks == Removed(old(blocks), k)
      ensures Pending(before, freed, lower, Merged(old(blocks)[k]), addr, size)
      ensures j < |old(bySize)| && bySize == Removed(old(bySize), j)
      ensures FreeFrame(addrList, sizeList, before, freed, old(mem), mem)
    {
      hide Represents, Canonical, Acceptable, Coalescing, Outside, Within, ChangedOnlyInside, ChangedOnlyIn, FreeFrame,
           HasLower;
      ghost var b := blocks[k];
      ListedBlock(mem, addrList, sizeList, blocks, bySize, k);
      StoredIsLocal(before, freed, blocks, lower, addr, size, SizeOf(mem, addr));
      PendingBlock(addrList, sizeList, before, freed, blocks, lower, NoNeighbour, addr, size, size);
      AbsorbHigher(addrList, sizeList, before, freed, blocks, k, lower, addr, size);
      j := Unlink(current, k);
      SizesSurviveUnlink(old(mem), mem, addrList, sizeList, old(blocks), k, Block(addr, size));
      var stored := Wrap(SizeOf(mem, addr) + SizeOf(mem, current));
      PendingBlock(addrList, sizeList, before, freed, blocks, lower, Merged(b), addr, size, stored);
      label Unlinked:
      StoreSizes(addr, stored, Block(addr, stored));
      FrameStep(addrList, sizeList, before, freed, blocks, lower, Merged(b), addr, size, stored, old(mem),
          old@Unlinked(mem), mem);
    }

    /** Coalesce with lower: the block below takes over as the pending block. */
    method MergeLower(addr: int, size: int, current: int, ghost k: nat, ghost before: seq<Block>, ghost freed: Block)
      returns (size': int, ghost j: nat)
      requires Pending(before, freed, NoNeighbour, NoNeighbour, addr, size)
      requires k < |blocks| && blocks[k].addr == current && blocks[k].End() == addr
      modifies this
      ensures blocks == Removed(old(blocks), k)
      ensures Pending(before, freed, Merged(old(blocks)[k]), NoNeighbour, current, size')
      ensures j < |old(bySize)| && bySize == Removed(old(bySize), j)
      ensures FreeFrame(addrList, sizeList, before, freed, old(mem), mem)
    {
      hide Represents, Canonical, Acceptable, Coalescing, Outside, Within, ChangedOnlyInside, ChangedOnlyIn, FreeFrame;
      ghost var b := blocks[k];
      ListedBlock(mem, addrList, sizeList, blocks, bySize, k);
      StoredIsLocal(before, freed, blocks, NoNeighbour, addr, size, SizeOf(mem, addr));
      PendingBlock(addrList, sizeList, before, freed, blocks, NoNeighbour, NoNeighbour, addr, size, size);
      AbsorbLower(addrList, sizeList, before, freed, blocks, k, addr, size);
      j := Unlink(current, k);
      SizesSurviveUnlink(old(mem), mem, addrList, sizeList, old(blocks), k, Block(addr, size));
      size' := Wrap(size + SizeOf(mem, current));
      PendingBlock(addrList, sizeList, before, freed, blocks, Merged(b), NoNeighbour, current, size', size');
      label Unlinked:
      StoreSizes(current, size', Block(current, size'));
      FrameStep(addrList, sizeList, before, freed, blocks, Merged(b), NoNeighbour, current, size', size', old(mem),
          old@Unlinked(mem), mem);
    }

    /** One scan of the address list: the first block that is a neighbour by the source's two tests, or lies above. */
    method ScanPass(addr: int, size: int, ghost freed: Block, ghost lower: Neighbour, ghost higher: Neighbour,
                    ghost before: seq<Block>)
      returns (found: Found, current: int, ghost k: nat)
      requires Pending(before, freed, lower, higher, addr, size)
      ensures k <= |blocks| && current == At(addrList, Nodes(blocks, ADDR_NODE), k + 1)
      ensures Prev(mem, current) == At(addrList, Nodes(blocks, ADDR_NODE), k)
      ensures found.FoundNeighbour? ==> k < |blocks| && blocks[k].addr == current
      ensures found == FoundNeighbour(Higher) ==>
                && current == freed.End() && higher.NoNeighbour?
                && (lower.NoNeighbour? ==> !HasLower(before, freed))
      ensures found == FoundNeighbour(Lower) ==> blocks[k].End() == addr && lower.NoNeighbour? && higher.NoNeighbour?
      ensures found == Stop ==>
                && (lower.Merged? <==> HasLower(before, freed)) && (higher.Merged? <==> HasHigher(before, freed))
                && Fits(blocks, k, Block(addr, SizeOf(mem, addr)))
      ensures found == Stop ==> current == addrList + 4 || addr < current
    {
      ListEnds(addrList, blocks);
      hide Represents, Canonical, Acceptable, Coalescing, HasLower, HasHigher, Fits, Wrap, Nodes, At, Next,
           Prev, SizeOf;
      k := 0;
      current := Next(mem, addrList);
      WalkAddr(mem, addrList, sizeList, blocks, bySize, 0);
      while Next(mem, current) != 0
        invariant k <= |blocks| && current == At(addrList, Nodes(blocks, ADDR_NODE), k + 1)
        invariant Passed(blocks, k, freed, addr)
        decreases |blocks| - k
      {
        WalkAddr(mem, addrList, sizeList, blocks, bySize, k);
        if current == Wrap(addr + size) {
          ScanHigher(addrList, sizeList, before, freed, blocks, k, lower, higher, addr, size, SizeOf(mem, addr));
          return FoundNeighbour(Higher), current, k;
        } else if current == Wrap(addr - SizeOf(mem, current)) {
          ScanLower(addrList, sizeList, before, freed, blocks, k, lower, higher, addr, size, SizeOf(mem, addr));
          return FoundNeighbour(Lower), current, k;
        } else if current > addr {
          ScanDone(addrList, sizeList, before, freed, blocks, k, lower, higher, addr, size, SizeOf(mem, addr));
          return Stop, current, k;
        }
        PassedNext(addrList, sizeList, before, freed, blocks, k, lower, higher, addr, size, SizeOf(mem, addr));
        current, k := Next(mem, current), k + 1;
      }
      WalkAddr(mem, addrList, sizeList, blocks, bySize, k);
      ScanDone(addrList, sizeList, before, freed, blocks, k, lower, higher, addr, size, SizeOf(mem, addr));
      found := Stop;
    }

    /**
     The coalescing loop: rescan the address list from its head after every merge,
     until the scan meets the first higher block or runs off the end.  The new node
     goes in front of the node the last scan stopped at; at the tail node that is what
     list_add_tail does.
     */
    method CoalescePasses(addr0: int, size0: int, ghost freed: Block)
      returns (addr: int, size: int, target: int, ghost k: nat,
               ghost lower: Neighbour, ghost higher: Neighbour, ghost trace: seq<Side>, ghost passes: nat)
      requires freed == Block(addr0, size0) && Pending(blocks, freed, NoNeighbour, NoNeighbour, addr0, size0)
      modifies this
      ensures Pending(old(blocks), freed, lower, higher, addr, size)
      ensures k <= |blocks| && target == At(addrList, Nodes(blocks, ADDR_NODE), k)
      ensures Fits(blocks, k, Block(addr, SizeOf(mem, addr)))
      ensures lower.Merged? <==> HasLower(old(blocks), freed)
      ensures higher.Merged? <==> HasHigher(old(blocks), freed)
      ensures trace == Merges(lower, higher) && passes == |trace| + 1
      ensures AscendingBySize(old(bySize)) ==> AscendingBySize(bySize)
      ensures FreeFrame(addrList, sizeList, old(blocks), freed, old(mem), mem)
    {
      hide Represents, Canonical, Acceptable, Coalescing, FreeFrame, HasLower, HasHigher, AscendingBySize, Fits;
      addr, size := addr0, size0;
      lower, higher, trace, passes := NoNeighbour, NoNeighbour, [], 0;
      ghost var before := blocks;
      FrameRefl(addrList, sizeList, before, freed, mem);
      while true
        invariant Pending(before, freed, lower, higher, addr, size)
        invariant trace == Merges(lower, higher) && passes == |trace|
        invariant AscendingBySize(old(bySize)) ==> AscendingBySize(bySize)
        invariant FreeFrame(addrList, sizeList, before, freed, old(mem), mem)
        decreases |blocks|
      {
        var found, current;
        found, current, k := ScanPass(addr, size, freed, lower, higher, before);
        passes := passes + 1;
        ghost var bs, order, m := blocks, bySize, mem;
        ghost var j;
        match found {
          case FoundNeighbour(Higher) =>
            j := MergeHigher(addr, size, current, k, before, freed, lower);
            higher, trace := Merged(bs[k]), trace + [Higher];
          case FoundNeighbour(Lower) =>
            size, j := MergeLower(addr, size, current, k, before, freed);
            addr, lower, trace := current, Merged(bs[k]), trace + [Lower];
          case Stop =>
            target := Prev(mem, current);
            return;
        }
        AscendingRemoved(order, j);
        FrameTrans(addrList, sizeList, before, freed, old(mem), m, mem);
      }
    }

    /**
     The size-list scan of pmm_free: in front of the first block recorded larger than the
     local `size`, else at the tail.
     */
    method SizePosition(size: int) returns (target: int, ghost j: nat)
      requires Listed(mem, sizeList, SIZE_NODE, bySize) && Room(sizeList, bySize)
      ensures FirstLarger(bySize, size, j) && target == At(sizeList, Nodes(bySize, SIZE_NODE), j)
    {
      hide Listed, Room;
      j := 0;
      var current := Next(mem, sizeList);
      Walk(mem, sizeList, SIZE_NODE, bySize, 0);
      while Next(mem, current) != 0
        invariant j <= |bySize| && current == At(sizeList, Nodes(bySize, SIZE_NODE), j + 1)
        invariant forall i :: 0 <= i < j ==> bySize[i].size <= size
        decreases |bySize| - j
      {
        Walk(mem, sizeList, SIZE_NODE, bySize, j);
        if SizeOf(mem, current) > size {
          return Prev(mem, current), j;
        }
        Walk(mem, sizeList, SIZE_NODE, bySize, j + 1);
        current, j := Next(mem, current), j + 1;
      }
      Walk(mem, sizeList, SIZE_NODE, bySize, j);
      target := Prev(mem, current);
    }

    /** The two insertions at the end of pmm_free: by address after `target`, then by the local `size`. */
    method LinkBlock(size: int, target: int, ghost k: nat, ghost pending: Block, node: int) returns (ghost j: nat)
      requires Consistent() && Fits(blocks, k, pending) && Clear(addrList, pending) && Clear(sizeList, pending)
      requires node == pending.addr && target == At(addrList, Nodes(blocks, ADDR_NODE), k)
      requires SizeOf(mem, node) == pending.size && SizeOf(mem, node + SIZE_NODE) == pending.size
      modifies this
      ensures Consistent() && blocks == Inserted(old(blocks), k, pending)
      ensures j <= |old(bySize)| && FirstLarger(old(bySize), size, j) && bySize == Inserted(old(bySize), j, pending)
      ensures ChangedOnlyInside(addrList, sizeList, blocks, old(mem), mem)
    {
      hide Represents, Listed, Room, Shape, ChangedOnlyInside, FirstLarger;
      SizeListReady(mem, addrList, sizeList, blocks, bySize);
      mem := NodeInsertAfter(mem, target, node);
      LinkAddr(old(mem), addrList, sizeList, blocks, bySize, k, pending, mem);
      ghost var m := mem;
      var sizeTarget;
      sizeTarget, j := SizePosition(size);
      assert j <= |bySize| by { FirstLargerInRange(bySize, size, j); }
      mem := NodeInsertAfter(mem, sizeTarget, node + SIZE_NODE);
      LinkSize(m, addrList, sizeList, blocks, bySize, k, j, pending, mem);
      blocks, bySize := Inserted(blocks, k, pending), Inserted(bySize, j, pending);
      InsideTrans(addrList, sizeList, blocks, old(mem), m, mem);
    }

    /** pmm_free */
    method Free(addr: int, size: int) returns (ghost trace: seq<Side>, ghost passes: nat)
      requires Valid() && 0 <= size < ADDRESS_SPACE && 0 < RoundUp(size)
      requires Outside(addrList, sizeList, blocks, Block(addr, RoundUp(size)))
      modifies this
      ensures Valid()
      ensures FreeStep(old(blocks), Block(addr, RoundUp(size)), blocks)
      ensures trace == ExpectedMerges(old(blocks), Block(addr, RoundUp(size)))
      ensures passes == |trace| + 1
      ensures AscendingBySize(old(bySize)) ==>
                (AscendingBySize(bySize) <==> !Overtakes(old(blocks), Block(addr, RoundUp(size))))
      ensures ChangedOnlyInside(addrList, sizeList, blocks, old(mem), mem)
    {
      hide Represents, Canonical, Granular, Acceptable, Coalescing, FreeFrame, AscendingBySize, Fits, FirstLarger,
           FreeStep, ExpectedMerges, Merges, Overtakes, ChangedOnlyIn, ChangedOnlyInside, Outside, HasLower, HasHigher;
      var rounded := RoundUp(size);
      ghost var freed, before := Block(addr, rounded), blocks;
      StoreSizes(addr, rounded, freed);
      StartsPending(mem, addrList, sizeList, before, bySize, freed);
      ghost var m0 := mem;
      ghost var k, lower, higher;
      var addr', size', target;
      addr', size', target, k, lower, higher, trace, passes := CoalescePasses(addr, rounded, freed);

      ghost var m1, bs, order, pending := mem, blocks, bySize, Block(addr', SizeOf(mem, addr'));
      FreedBlock(addrList, sizeList, before, freed, blocks, lower, higher, addr', size', pending.size, k);
      ghost var j := LinkBlock(size', target, k, pending, addr');

      FreeOutcome(addrList, sizeList, before, freed, bs, lower, higher, addr', size', pending.size, k, order, j, m1,
          mem);
      FreeChanges(addrList, sizeList, before, freed, blocks, old(mem), m0, m1, mem);
    }

    /** The first block of the size list that is large enough, as pmm_alloc finds it. */
    method FirstFit(size: int) returns (found: bool, current: int, ghost j: nat)
      requires Consistent()
      ensures j <= |bySize| && (forall i :: 0 <= i < j ==> bySize[i].size < size)
      ensures found ==> j < |bySize| && size <= bySize[j].size
                        && current == bySize[j].addr + SIZE_NODE && SizeOf(mem, current) == bySize[j].size
      ensures !found ==> j == |bySize|
      ensures found <==> exists i :: 0 <= i < |bySize| && size <= bySize[i].size
    {
      hide Represents, Listed, Room, Shape;
      assert Room(sizeList, bySize) && Listed(mem, sizeList, SIZE_NODE, bySize) by {
        SizeListReady(mem, addrList, sizeList, blocks, bySize);
      }
      j := 0;
      current := Next(mem, sizeList);
      Walk(mem, sizeList, SIZE_NODE, bySize, 0);
      while Next(mem, current) != 0
        invariant j <= |bySize| && current == At(sizeList, Nodes(bySize, SIZE_NODE), j + 1)
        invariant forall i :: 0 <= i < j ==> bySize[i].size < size
        decreases |bySize| - j
      {
        Walk(mem, sizeList, SIZE_NODE, bySize, j);
        if SizeOf(mem, current) >= size {
          return true, current, j;
        }
        Walk(mem, sizeList, SIZE_NODE, bySize, j + 1);
        current, j := Next(mem, current), j + 1;
      }
      Walk(mem, sizeList, SIZE_NODE, bySize, j);
      found := false;
    }

    /** The pair of deletes in pmm_alloc, which go through the size node. */
    method UnlinkBySize(current: int, ghost j: nat) returns (ghost k: nat)
      requires Consistent() && j < |bySize| && bySize[j].addr + SIZE_NODE == current
      modifies this
      ensures k < |old(blocks)| && old(blocks)[k] == old(bySize)[j]
      ensures Consistent() && blocks == Removed(old(blocks), k) && bySize == Removed(old(bySize), j)
      ensures ChangedOnlyInside(addrList, sizeList, blocks, old(mem), mem)
    {
      hide Represents, ChangedOnlyInside;
      OrderedBlock(mem, addrList, sizeList, blocks, bySize, j);
      k :| 0 <= k < |blocks| && blocks[k] == bySize[j];
      mem := NodeDelete(mem, current);
      mem := NodeDelete(mem, current - SIZE_NODE);
      DeletesCommute(old(mem), addrList, sizeList, blocks, bySize, k, j);
      UnlinkKeeps(old(mem), addrList, sizeList, blocks, bySize, k, j, mem);
      blocks, bySize := Removed(blocks, k), Removed(bySize, j);
    }

    /** pmm_alloc */
    method Alloc(size: int) returns (result: int)
      requires Valid() && 0 <= size < ADDRESS_SPACE
      modifies this
      ensures Valid()
      ensures AllocStep(old(blocks), RoundUp(size), result, blocks)
      ensures result == 0 ==> mem == old(mem) && bySize == old(bySize)
      ensures result != 0 ==> FirstLargeEnough(old(bySize), RoundUp(size), result)
      ensures AscendingBySize(old(bySize)) ==> AscendingBySize(bySize) && BestFit(old(blocks), RoundUp(size), result)
      ensures ChangedOnlyInside(addrList, sizeList, old(blocks), old(mem), mem)
    {
      hide Represents, Canonical, Granular, AscendingBySize, FreeStep, AllocStep, Overtakes, ExpectedMerges,
           ChangedOnlyInside, Outside, BestFit, IsFree;
      var rounded := RoundUp(size);
      var found, current;
      ghost var j;
      found, current, j := FirstFit(rounded);
      if !found {
        AllocFails(mem, addrList, sizeList, blocks, bySize, rounded);
        return 0;
      }
      ghost var bs, order, b := blocks, bySize, bySize[j];
      ghost var m := mem;
      AllocPicks(mem, addrList, sizeList, blocks, bySize, rounded, j);
      ghost var k := UnlinkBySize(current, j);
      AllocUnlinked(m, mem, addrList, sizeList, bs, order, k, j);
      result := current - SIZE_NODE;
      assert FirstLargeEnough(order, rounded, result);
      hide FirstLargeEnough;
      if SizeOf(mem, current) > rounded {
        AllocRemainder(addrList, sizeList, bs, k, rounded);
        ghost var rest, m1 := blocks, mem;
        ghost var trace, passes := Free(current - SIZE_NODE + rounded, SizeOf(mem, current) - rounded);
        AllocSplit(addrList, sizeList, bs, k, rounded, blocks, m, m1, mem);
      } else {
        AllocWhole(addrList, sizeList, bs, k, rounded, m, mem);
      }
    }

    /** Allocating and freeing again restores the address list, node for node. */
    method AllocThenFree(size: int) returns (result: int)
      requires Valid() && 0 < size <= ADDRESS_SPACE - PMM_MIN_SIZE
      modifies this
      ensures Valid() && blocks == old(blocks)
      ensures ChangedOnlyInside(addrList, sizeList, old(blocks), old(mem), mem)
    {
      hide Represents, Canonical, Granular, AscendingBySize, FreeStep, AllocStep, Overtakes, ExpectedMerges,
           ChangedOnlyInside, Outside, BestFit, IsFree;
      ghost var bs, order, m := blocks, bySize, mem;
      result := Alloc(size);
      if result != 0 {
        AllocatedOutside(m, addrList, sizeList, bs, order, RoundUp(size), result, blocks);
        ghost var bs', m' := blocks, mem;
        ghost var trace, passes := Free(result, size);
        FreeUndoesAlloc(bs, RoundUp(size), result, bs', blocks);
        InsideTrans(addrList, sizeList, bs, m, m', mem);
      } else {
        AllocNothing(bs, RoundUp(size), blocks);
      }
    }
  }

  ghost predicate ChangedOnlyIn(region: Block, m: Memory, m': Memory) {
    forall a :: !region.Has(a) ==> Word(m', a) == Word(m, a)
  }

  /** What a free may change: the headers, the free blocks it started from and the region freed. */
  ghost predicate FreeFrame(al: int, sl: int, before: seq<Block>, freed: Block, m: Memory, m': Memory) {
    forall a :: !InHeaders(al, sl, a) && !IsFree(before, a) && !freed.Has(a) ==> Word(m', a) == Word(m, a)
  }

  lemma ListedBlock(m: Memory, al: int, sl: int, bs: seq<Block>, order: seq<Block>, k: nat)
    requires Represents(m, al, sl, bs, order) && k < |bs|
    ensures Canonical(bs) && Clear(al, bs[k]) && Clear(sl, bs[k]) && SizeOf(m, bs[k].addr) == bs[k].size
    ensures exists j :: 0 <= j < |order| && order[j] == bs[k]
  {
    assert bs[k] in bs;
    assert bs[k] in order;
  }

  lemma ListEnds(l: int, bs: seq<Block>)
    ensures At(l, Nodes(bs, ADDR_NODE), 0) == l && At(l, Nodes(bs, ADDR_NODE), |bs| + 1) == l + 4
  {
  }

  lemma WalkAddr(m: Memory, al: int, sl: int, bs: seq<Block>, order: seq<Block>, k: nat)
    requires Represents(m, al, sl, bs, order) && k <= |bs|
    ensures var ns := Nodes(bs, ADDR_NODE);
            && Canonical(bs)
            && Next(m, At(al, ns, k)) == At(al, ns, k + 1)
            && Prev(m, At(al, ns, k + 1)) == At(al, ns, k)
            && (Next(m, At(al, ns, k + 1)) == 0 <==> k == |bs|)
            && (k < |bs| ==> At(al, ns, k + 1) == bs[k].addr && SizeOf(m, bs[k].addr) == bs[k].size
                             && Next(m, At(al, ns, k + 1)) == At(al, ns, k + 2))
  {
    ShapeGivesRoom(al, sl, bs, order);
    Walk(m, al, ADDR_NODE, bs, k);
    if k < |bs| { Walk(m, al, ADDR_NODE, bs, k + 1); }
  }

  lemma FrameRefl(al: int, sl: int, before: seq<Block>, freed: Block, m: Memory)
    ensures FreeFrame(al, sl, before, freed, m, m)
  {
  }

  lemma FrameTrans(al: int, sl: int, before: seq<Block>, freed: Block, m: Memory, m1: Memory, m': Memory)
    requires FreeFrame(al, sl, before, freed, m, m1) && FreeFrame(al, sl, before, freed, m1, m')
    ensures FreeFrame(al, sl, before, freed, m, m')
  {
  }

  lemma StoredIsLocal(before: seq<Block>, freed: Block, bs: seq<Block>, lower: Neighbour, addr: int, size: int,
                      stored: int)
    requires Coalescing(before, freed, bs, lower, NoNeighbour, addr, size, stored)
    ensures stored == size
  {
  }

  lemma StoreKeeps(m: Memory, m': Memory, al: int, sl: int, bs: seq<Block>, order: seq<Block>, region: Block)
    requires Represents(m, al, sl, bs, order)
    requires Outside(al, sl, bs, region)
    requires ChangedOnlyIn(region, m, m')
    ensures Represents(m', al, sl, bs, order)
  {
    ShapeGivesRoom(al, sl, bs, order);
    forall a | Owns(al, ADDR_NODE, bs, a)
      ensures Word(m', a) == Word(m, a)
    {
      OwnsIsInside(al, ADDR_NODE, bs, a);
    }
    forall a | Owns(sl, SIZE_NODE, order, a)
      ensures Word(m', a) == Word(m, a)
    {
      OwnsIsInside(sl, SIZE_NODE, order, a);
    }
    ListedFrame(m, m', al, ADDR_NODE, bs);
    ListedFrame(m, m', sl, SIZE_NODE, order);
  }

  /** Taking a block off the lists leaves the words of any region outside the remaining blocks alone. */
  lemma UnlinkedRegion(m: Memory, m': Memory, al: int, sl: int, bs: seq<Block>, region: Block)
    requires ChangedOnlyInside(al, sl, bs, m, m')
    requires Outside(al, sl, bs, region)
    ensures SizeOf(m', region.addr) == SizeOf(m, region.addr)
    ensures SizeOf(m', region.addr + SIZE_NODE) == SizeOf(m, region.addr + SIZE_NODE)
  {
    forall a | region.Has(a)
      ensures Word(m', a) == Word(m, a)
    {
      assert !IsFree(bs, a);
    }
  }

  lemma SizesSurviveUnlink(m: Memory, m': Memory, al: int, sl: int, bs: seq<Block>, k: nat, pending: Block)
    requires Canonical(bs) && k < |bs| && Clear(al, bs[k]) && Clear(sl, bs[k])
    requires Outside(al, sl, bs, pending)
    requires ChangedOnlyInside(al, sl, Removed(bs, k), m, m')
    ensures SizeOf(m', bs[k].addr) == SizeOf(m, bs[k].addr)
    ensures SizeOf(m', pending.addr) == SizeOf(m, pending.addr)
  {
    CanonicalElements(bs);
    RemovedElements(bs, k);
    UnlinkedRegion(m, m', al, sl, Removed(bs, k), bs[k]);
    UnlinkedRegion(m, m', al, sl, Removed(bs, k), pending);
  }

  /** One unlink followed by one store stays inside what the free may change. */
  lemma FrameStep(al: int, sl: int, before: seq<Block>, freed: Block, bs: seq<Block>, lower: Neighbour,
                  higher: Neighbour,
                  addr: int, size: int, stored: int, m: Memory, m1: Memory, m': Memory)
    requires Coalescing(before, freed, bs, lower, higher, addr, size, stored)
    requires Within(before, freed, Block(addr, stored))
    requires ChangedOnlyInside(al, sl, bs, m, m1) && ChangedOnlyIn(Block(addr, stored), m1, m')
    ensures FreeFrame(al, sl, before, freed, m, m')
  {
    assert forall a :: IsFree(bs, a) ==> IsFree(before, a);
  }

  lemma StartsPending(m: Memory, al: int, sl: int, bs: seq<Block>, order: seq<Block>, freed: Block)
    requires Represents(m, al, sl, bs, order) && Outside(al, sl, bs, freed)
    ensures Acceptable(al, sl, bs, freed)
    ensures Coalescing(bs, freed, bs, NoNeighbour, NoNeighbour, freed.addr, freed.size, freed.size)
  {
  }

  lemma FreedBlock(al: int, sl: int, before: seq<Block>, freed: Block, bs: seq<Block>, lower: Neighbour,
                   higher: Neighbour,
                   addr: int, size: int, stored: int, k: nat)
    requires Acceptable(al, sl, before, freed) && Coalescing(before, freed, bs, lower, higher, addr, size, stored)
    ensures Clear(al, Block(addr, stored)) && Clear(sl, Block(addr, stored))
  {
    PendingBlock(al, sl, before, freed, bs, lower, higher, addr, size, stored);
  }

  lemma SizeListReady(m: Memory, al: int, sl: int, bs: seq<Block>, order: seq<Block>)
    requires Represents(m, al, sl, bs, order)
    ensures Room(sl, order) && Shape(al, sl, bs, order) && Listed(m, sl, SIZE_NODE, order)
  {
    ShapeGivesRoom(al, sl, bs, order);
  }

  lemma FirstLargerInRange(order: seq<Block>, size: int, j: nat)
    requires FirstLarger(order, size, j)
    ensures j <= |order|
  {
  }

  lemma InsideTrans(al: int, sl: int, bs: seq<Block>, m: Memory, m1: Memory, m': Memory)
    requires ChangedOnlyInside(al, sl, bs, m, m1) && ChangedOnlyInside(al, sl, bs, m1, m')
    ensures ChangedOnlyInside(al, sl, bs, m, m')
  {
  }

  /** What pmm_free has done, whatever it merged: `m` is the memory before the insertions, `m'` after them. */
  lemma FreeOutcome(al: int, sl: int, before: seq<Block>, freed: Block, bs: seq<Block>, lower: Neighbour,
                    higher: Neighbour,
                    addr: int, size: int, stored: int, k: nat, order: seq<Block>, j: nat, m: Memory, m': Memory)
    requires Acceptable(al, sl, before, freed) && Coalescing(before, freed, bs, lower, higher, addr, size, stored)
    requires Granular(before) && freed.size % PMM_MIN_SIZE == 0
    requires lower.Merged? <==> HasLower(before, freed)
    requires higher.Merged? <==> HasHigher(before, freed)
    requires k <= |bs| && j <= |order| && FirstLarger(order, size, j)
    requires Represents(m, al, sl, bs, order)
    requires Represents(m', al, sl, Inserted(bs, k, Block(addr, stored)), Inserted(order, j, Block(addr, stored)))
    ensures FreeStep(before, freed, Inserted(bs, k, Block(addr, stored)))
    ensures Granular(Inserted(bs, k, Block(addr, stored)))
    ensures Merges(lower, higher) == ExpectedMerges(before, freed)
    ensures AscendingBySize(order) ==>
              (AscendingBySize(Inserted(order, j, Block(addr, stored))) <==> !Overtakes(before, freed))
  {
    CoalescedCovers(al, sl, before, freed, bs, lower, higher, addr, size, stored, k,
        Inserted(bs, k, Block(addr, stored)));
    InsertedElements(bs, k, Block(addr, stored));
    MergedIsGranular(before, freed, bs, lower, higher, addr, size, stored);
    if AscendingBySize(order) {
      PendingBlock(al, sl, before, freed, bs, lower, higher, addr, size, stored);
      AscendingInserted(order, j, Block(addr, stored), size);
      OvertakesRemaining(al, sl, before, freed, bs, lower, higher, addr, size, stored);
    }
  }

  lemma FreeChanges(al: int, sl: int, before: seq<Block>, freed: Block, bs': seq<Block>,
                    m: Memory, m0: Memory, m1: Memory, m': Memory)
    requires FreeStep(before, freed, bs')
    requires ChangedOnlyIn(freed, m, m0) && FreeFrame(al, sl, before, freed, m0, m1)
    requires ChangedOnlyInside(al, sl, bs', m1, m')
    ensures ChangedOnlyInside(al, sl, bs', m, m')
  {
  }

  lemma OrderedBlock(m: Memory, al: int, sl: int, bs: seq<Block>, order: seq<Block>, j: nat)
    requires Represents(m, al, sl, bs, order) && j < |order|
    ensures exists k :: 0 <= k < |bs| && bs[k] == order[j]
  {
    assert order[j] in order;
    assert order[j] in bs;
  }

  /** The block at `result` is the first of the size list that is large enough. */
  ghost predicate FirstLargeEnough(order: seq<Block>, size: int, result: int) {
    exists j ::
      0 <= j < |order| && order[j].addr == result && size <= order[j].size
          && forall i :: 0 <= i < j ==> order[i].size < size
  }

  /** When the size list is ascending, first fit is best fit. */
  ghost predicate BestFit(bs: seq<Block>, size: int, result: int) {
    result != 0 ==> forall b, c :: b in bs && c in bs && b.addr == result && size <= c.size ==> b.size <= c.size
  }

  lemma AllocFails(m: Memory, al: int, sl: int, bs: seq<Block>, order: seq<Block>, size: int)
    requires Represents(m, al, sl, bs, order) && forall i :: 0 <= i < |order| ==> order[i].size < size
    ensures AllocStep(bs, size, 0, bs) && BestFit(bs, size, 0) && ChangedOnlyInside(al, sl, bs, m, m)
  {
    assert forall b :: b in order ==> b.size < size;
  }

  lemma AllocPicks(m: Memory, al: int, sl: int, bs: seq<Block>, order: seq<Block>, size: int, j: nat)
    requires Represents(m, al, sl, bs, order) && j < |order| && size <= order[j].size
    requires forall i :: 0 <= i < j ==> order[i].size < size
    ensures 0 < order[j].addr
    ensures AscendingBySize(order) ==> BestFit(bs, size, order[j].addr)
  {
    assert order[j] in order && order[j] in bs;
    CanonicalElements(bs);
    if AscendingBySize(order) {
      forall b, c | b in bs && c in bs && b.addr == order[j].addr && size <= c.size
        ensures b.size <= c.size
      {
        assert b == order[j] && c in order;
        var i :| 0 <= i < |order| && order[i] == c;
      }
    }
  }

  lemma AllocUnlinked(m: Memory, m': Memory, al: int, sl: int, bs: seq<Block>, order: seq<Block>, k: nat, j: nat)
    requires Represents(m, al, sl, bs, order) && k < |bs| && j < |order| && bs[k] == order[j]
    requires ChangedOnlyInside(al, sl, Removed(bs, k), m, m')
    ensures Canonical(bs) && Clear(al, bs[k]) && Clear(sl, bs[k])
    ensures SizeOf(m', bs[k].addr + SIZE_NODE) == bs[k].size
    ensures AscendingBySize(order) ==> AscendingBySize(Removed(order, j))
  {
    assert bs[k] in bs && order[j] in order;
    CanonicalElements(bs);
    RemovedElements(bs, k);
    AscendingRemoved(order, j);
    UnlinkedRegion(m, m', al, sl, Removed(bs, k), bs[k]);
  }

  /** The remainder of a split is a legal argument for pmm_free, and merges with nothing. */
  lemma AllocRemainder(al: int, sl: int, bs: seq<Block>, k: nat, size: int)
    requires Canonical(bs) && Granular(bs) && k < |bs| && 0 <= size < bs[k].size && size % PMM_MIN_SIZE == 0
    requires Clear(al, bs[k]) && Clear(sl, bs[k])
    ensures var rest := bs[k].size - size;
            && 0 < rest < ADDRESS_SPACE && RoundUp(rest) == rest
            && Outside(al, sl, Removed(bs, k), Block(bs[k].addr + size, rest))
            && !Overtakes(Removed(bs, k), Block(bs[k].addr + size, rest))
    ensures Granular(Removed(bs, k))
  {
    var rest := bs[k].size - size;
    assert bs[k] in bs;
    assert rest % PMM_MIN_SIZE == 0;
    CanonicalElements(bs);
    RemovedElements(bs, k);
    assert !HasHigher(Removed(bs, k), Block(bs[k].addr + size, rest));
  }

  lemma AllocSplit(al: int, sl: int, bs: seq<Block>, k: nat, size: int, bs': seq<Block>, m: Memory, m1: Memory,
                   m': Memory)
    requires Canonical(bs) && k < |bs| && 0 <= size < bs[k].size
    requires FreeStep(Removed(bs, k), Block(bs[k].addr + size, bs[k].size - size), bs')
    requires ChangedOnlyInside(al, sl, Removed(bs, k), m, m1) && ChangedOnlyInside(al, sl, bs', m1, m')
    ensures AllocStep(bs, size, bs[k].addr, bs')
    ensures ChangedOnlyInside(al, sl, bs, m, m')
  {
    var rest := Block(bs[k].addr + size, bs[k].size - size);
    assert bs[k] in bs;
    CanonicalElements(bs);
    RemovedElements(bs, k);
    forall x
      ensures IsFree(bs', x) <==> IsFree(bs, x) && !Block(bs[k].addr, size).Has(x)
    {
      if IsFree(bs, x) {
        var b :| b in bs && b.Has(x);
        assert b == bs[k] || b in Removed(bs, k);
      }
      if rest.Has(x) { assert bs[k].Has(x); }
    }
  }

  lemma AllocWhole(al: int, sl: int, bs: seq<Block>, k: nat, size: int, m: Memory, m': Memory)
    requires Canonical(bs) && Granular(bs) && k < |bs| && bs[k].size == size
    requires ChangedOnlyInside(al, sl, Removed(bs, k), m, m')
    ensures AllocStep(bs, size, bs[k].addr, Removed(bs, k)) && Granular(Removed(bs, k))
    ensures ChangedOnlyInside(al, sl, bs, m, m')
  {
    assert bs[k] in bs;
    CanonicalElements(bs);
    RemovedElements(bs, k);
    forall x
      ensures IsFree(Removed(bs, k), x) <==> IsFree(bs, x) && !bs[k].Has(x)
    {
      if IsFree(bs, x) {
        var b :| b in bs && b.Has(x);
        assert b == bs[k] || b in Removed(bs, k);
      }
    }
  }

  /** What pmm_alloc returned is a legal argument for pmm_free. */
  lemma AllocatedOutside(m: Memory, al: int, sl: int, bs: seq<Block>, order: seq<Block>, size: int, result: int,
                         bs': seq<Block>)
    requires Represents(m, al, sl, bs, order) && AllocStep(bs, size, result, bs') && result != 0 && PMM_MIN_SIZE <= size
    ensures Outside(al, sl, bs', Block(result, size)) && Canonical(bs)
  {
    CanonicalElements(bs);
    CanonicalElements(bs');
    AllocatedWasFree(bs, size, result, bs');
    var b :| b in bs && b.addr == result && size <= b.size;
    forall c | c in bs'
      ensures Disjoint(c, Block(result, size))
    {
      assert c.Has(c.addr) && Block(result, size).Has(result);
      assert IsFree(bs', c.addr);
      assert c.Has(result) ==> IsFree(bs', result);
    }
  }

  lemma AllocNothing(bs: seq<Block>, size: int, bs': seq<Block>)
    requires AllocStep(bs, size, 0, bs')
    ensures bs' == bs
  {
  }
}
