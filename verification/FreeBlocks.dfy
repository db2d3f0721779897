/**
 The value the physical memory manager maintains: a list of free blocks.

 Nothing here mentions links or memory words.  A free list means the set of bytes
 it covers; a canonical list (ascending, non-empty, with a gap between any two
 blocks) is the only canonical list with that meaning.
 */
module FreeBlocks {
  const PMM_MIN_SIZE := 0x400
  const ADDRESS_SPACE := 0x1_0000_0000

  /** 32-bit unsigned wrap-around. */
  function Wrap(x: int): int { x % ADDRESS_SPACE }

  /** The rounding at the head of pmm_free and pmm_alloc, wrap-around included. */
  function RoundUp(size: int): (r: int)
    requires 0 <= size < ADDRESS_SPACE
    ensures r % PMM_MIN_SIZE == 0 && 0 <= r < ADDRESS_SPACE
    ensures size <= ADDRESS_SPACE - PMM_MIN_SIZE ==> size <= r < size + PMM_MIN_SIZE
    ensures ADDRESS_SPACE - PMM_MIN_SIZE < size ==> r == 0
  {
    var allocSize := size - size % PMM_MIN_SIZE;
    if allocSize < size then Wrap(allocSize + PMM_MIN_SIZE) else size
  }

  datatype Block = Block(addr: int, size: int) {
    function End(): int { addr + size }

    predicate Valid() {
      0 < addr && PMM_MIN_SIZE <= size && End() <= ADDRESS_SPACE
    }

    predicate Has(x: int) { addr <= x < End() }
  }

  /** Sizes are whole multiples of the allocation unit. */
  ghost predicate Granular(bs: seq<Block>) {
    forall b :: b in bs ==> b.size % PMM_MIN_SIZE == 0
  }

  ghost predicate Disjoint(b: Block, c: Block) {
    b.End() <= c.addr || c.End() <= b.addr
  }

  /** Ascending by address, every block valid, and no two blocks touch. */
  ghost predicate Canonical(bs: seq<Block>) {
    && (forall i :: 0 <= i < |bs| ==> bs[i].Valid())
    && (forall i, j :: 0 <= i < j < |bs| ==> bs[i].End() < bs[j].addr)
  }

  ghost predicate IsFree(bs: seq<Block>, x: int) {
    exists b :: b in bs && b.Has(x)
  }

  ghost predicate NoDuplicates<T>(s: seq<T>) {
    forall i, j :: 0 <= i < j < |s| ==> s[i] != s[j]
  }

  ghost predicate SameElements<T>(s: seq<T>, t: seq<T>) {
    (forall x :: x in s ==> x in t) && (forall x :: x in t ==> x in s)
  }

  ghost predicate AscendingBySize(bs: seq<Block>) {
    forall i, j :: 0 <= i < j < |bs| ==> bs[i].size <= bs[j].size
  }

  // ---------------------------------------------------------------------------
  // The steps of the manager, as relations on free lists
  // ---------------------------------------------------------------------------

  /** Freeing adds exactly the bytes of `b`. */
  ghost predicate FreeStep(bs: seq<Block>, b: Block, bs': seq<Block>) {
    && Canonical(bs')
    && (forall x :: IsFree(bs', x) <==> IsFree(bs, x) || b.Has(x))
  }

  /** Allocating takes exactly `size` bytes at the front of one free block, or nothing when no block is that large. */
  ghost predicate AllocStep(bs: seq<Block>, size: int, result: int, bs': seq<Block>) {
    && Canonical(bs')
    && (result == 0 <==> forall b :: b in bs ==> b.size < size)
    && (result == 0 ==> bs' == bs)
    && (result != 0 ==>
          && (exists b :: b in bs && b.addr == result && size <= b.size)
          && (forall x :: IsFree(bs', x) <==> IsFree(bs, x) && !Block(result, size).Has(x)))
  }

  // ---------------------------------------------------------------------------
  // Canonical form
  // ---------------------------------------------------------------------------

  lemma CanonicalTail(bs: seq<Block>)
    requires Canonical(bs) && bs != []
    ensures Canonical(bs[1..])
    ensures forall x :: IsFree(bs[1..], x) <==> IsFree(bs, x) && bs[0].End() < x
  {
    assert bs == [bs[0]] + bs[1..];
    forall b | b in bs[1..]
      ensures bs[0].End() < b.addr
    {
      var i :| 0 <= i < |bs| - 1 && bs[1..][i] == b;
      assert b == bs[i + 1];
    }
  }

  /** The first block is determined by the bytes covered: it starts at the least one and ends at the first gap. */
  lemma SameFirst(p: seq<Block>, q: seq<Block>)
    requires Canonical(p) && Canonical(q) && p != [] && q != []
    requires forall x :: IsFree(p, x) <==> IsFree(q, x)
    ensures p[0].addr >= q[0].addr
    ensures p[0].addr == q[0].addr ==> p[0].End() <= q[0].End()
  {
    assert p[0].Has(p[0].addr);
    assert IsFree(q, p[0].addr);
    var b :| b in q && b.Has(p[0].addr);
    var i :| 0 <= i < |q| && q[i] == b;
    assert i > 0 ==> q[0].addr < q[i].addr;
    assert !IsFree(q, q[0].End());
    assert p[0].addr == q[0].addr && q[0].End() < p[0].End() ==> p[0].Has(q[0].End());
  }

  /** Two canonical lists covering the same bytes are the same list. */
  lemma {:induction false} CanonicalUnique(p: seq<Block>, q: seq<Block>)
    requires Canonical(p) && Canonical(q)
    requires forall x :: IsFree(p, x) <==> IsFree(q, x)
    ensures p == q
  {
    assert p != [] ==> p[0].Has(p[0].addr) && IsFree(q, p[0].addr);
    assert q != [] ==> q[0].Has(q[0].addr) && IsFree(p, q[0].addr);
    if p != [] {
      SameFirst(p, q);
      SameFirst(q, p);
      assert p[0] == q[0];
      CanonicalTail(p);
      CanonicalTail(q);
      CanonicalUnique(p[1..], q[1..]);
    }
  }

  lemma PermutationOf<T>(s: seq<T>, t: seq<T>)
    requires NoDuplicates(s) && NoDuplicates(t) && SameElements(s, t)
    ensures multiset(s) == multiset(t)
  {
    forall x
      ensures multiset(s)[x] == multiset(t)[x]
    {
      CountOnce(s, x);
      CountOnce(t, x);
    }
  }

  lemma {:induction false} CountOnce<T>(s: seq<T>, x: T)
    requires NoDuplicates(s)
    ensures multiset(s)[x] == if x in s then 1 else 0
  {
    if s != [] {
      assert s == s[..|s| - 1] + [s[|s| - 1]];
      CountOnce(s[..|s| - 1], x);
    }
  }
}
