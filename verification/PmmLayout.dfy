/**
 How kernel/pmm.c lays its two free lists out in memory.

 The manager keeps no storage of its own beyond two list headers: each free block
 holds an address-list node at its first byte and a size-list node 16 bytes later.
 */
module PmmLayout {
  import opened KernelList
  import opened FreeBlocks

  /** Offset of the node inside a block: the address node comes first, the size node right after it. */
  const ADDR_NODE := 0
  const SIZE_NODE := NODE_BYTES

  ghost function Nodes(bs: seq<Block>, off: int): (ns: seq<int>)
    ensures |ns| == |bs|
    ensures forall i :: 0 <= i < |bs| ==> ns[i] == bs[i].addr + off
  {
    seq(|bs|, i requires 0 <= i < |bs| => bs[i].addr + off)
  }

  /** List `l` threads the blocks `bs` in order and records their sizes. */
  ghost predicate Listed(m: Memory, l: int, off: int, bs: seq<Block>) {
    && Linked(m, l, Nodes(bs, off))
    && (forall b :: b in bs ==> SizeOf(m, b.addr + off) == b.size)
  }

  /** The header lies outside the block. */
  ghost predicate Clear(l: int, b: Block) {
    b.End() <= l || l + HEADER_BYTES <= b.addr
  }

  /** Blocks that can carry nodes of list `l`: valid, pairwise disjoint and clear of the header. */
  ghost predicate Room(l: int, bs: seq<Block>) {
    && 0 < l
    && (forall b :: b in bs ==> b.Valid() && Clear(l, b))
    && (forall i, j :: 0 <= i < j < |bs| ==> Disjoint(bs[i], bs[j]))
  }

  /** The words list `l` reads or writes: its header, and its own node in each block. */
  ghost predicate Owns(l: int, off: int, bs: seq<Block>, a: int) {
    l <= a < l + HEADER_BYTES || exists b :: b in bs && b.addr + off <= a < b.addr + off + NODE_BYTES
  }

  lemma RoomIsSpaced(l: int, off: int, bs: seq<Block>)
    requires Room(l, bs) && 0 <= off <= NODE_BYTES
    ensures Spaced(l, Nodes(bs, off))
  {
    assert forall i :: 0 <= i < |bs| ==> bs[i] in bs;
  }

  /** The links of a list never overlay a recorded size. */
  lemma SizeWordIsNoLink(l: int, off: int, bs: seq<Block>, i: nat)
    requires Room(l, bs) && 0 <= off <= NODE_BYTES && i < |bs|
    ensures !IsLinkWord(l, Nodes(bs, off), bs[i].addr + off + 8)
  {
    assert bs[i] in bs;
    forall j | 0 <= j < |bs|
      ensures bs[i].addr + 8 != bs[j].addr && bs[i].addr + 8 != bs[j].addr + 4
    {
      assert bs[j] in bs;
      assert j < i ==> Disjoint(bs[j], bs[i]);
      assert i < j ==> Disjoint(bs[i], bs[j]);
    }
  }

  /** A change confined to the links of a list stays inside its words and keeps the recorded sizes. */
  lemma RelinkFrame(m: Memory, m': Memory, l: int, off: int, bs: seq<Block>)
    requires Room(l, bs) && 0 <= off <= NODE_BYTES
    requires forall a :: !IsLinkWord(l, Nodes(bs, off), a) ==> Word(m', a) == Word(m, a)
    ensures forall a :: !Owns(l, off, bs, a) ==> Word(m', a) == Word(m, a)
    ensures forall b :: b in bs ==> SizeOf(m', b.addr + off) == SizeOf(m, b.addr + off)
  {
    forall b | b in bs
      ensures SizeOf(m', b.addr + off) == SizeOf(m, b.addr + off)
    {
      var i :| 0 <= i < |bs| && bs[i] == b;
      SizeWordIsNoLink(l, off, bs, i);
    }
  }

  lemma DeleteListed(m: Memory, l: int, off: int, bs: seq<Block>, k: nat, m': Memory, bs': seq<Block>)
    requires Listed(m, l, off, bs) && Room(l, bs) && 0 <= off <= NODE_BYTES && k < |bs|
    requires bs' == Removed(bs, k) && m' == NodeDelete(m, bs[k].addr + off)
    ensures Listed(m', l, off, bs')
    ensures forall a :: !Owns(l, off, bs', a) ==> Word(m', a) == Word(m, a)
  {
    hide Linked, Spaced, IsLinkWord, Owns;
    RoomIsSpaced(l, off, bs);
    assert Nodes(bs', off) == Removed(Nodes(bs, off), k);
    DeleteKeepsLinked(m, l, Nodes(bs, off), k, Nodes(bs', off), m');
    RelinkFrame(m, m', l, off, bs');
  }

  lemma InsertedElements<T>(s: seq<T>, k: nat, x: T)
    requires k <= |s|
    ensures NoDuplicates(s) && x !in s ==> NoDuplicates(Inserted(s, k, x))
    ensures forall y :: y in Inserted(s, k, x) <==> y in s || y == x
  {
    var r := Inserted(s, k, x);
    assert r[k] == x;
    forall y | y in s
      ensures y in r
    {
      var i :| 0 <= i < |s| && s[i] == y;
      assert r[if i < k then i else i + 1] == y;
    }
  }

  lemma InsertListed(m: Memory, l: int, off: int, bs: seq<Block>, k: nat, b: Block, m': Memory, bs': seq<Block>)
    requires Listed(m, l, off, bs) && k <= |bs| && 0 <= off <= NODE_BYTES
    requires bs' == Inserted(bs, k, b) && Room(l, bs')
    requires SizeOf(m, b.addr + off) == b.size
    requires m' == NodeInsertAfter(m, At(l, Nodes(bs, off), k), b.addr + off)
    ensures Listed(m', l, off, bs')
    ensures forall a :: !Owns(l, off, bs', a) ==> Word(m', a) == Word(m, a)
  {
    hide Linked, Spaced, Room, IsLinkWord, Owns;
    RoomIsSpaced(l, off, bs');
    assert Nodes(bs', off) == Inserted(Nodes(bs, off), k, b.addr + off);
    InsertedElements(bs, k, b);
    assert forall x :: x in bs' ==> SizeOf(m, x.addr + off) == x.size;
    InsertKeepsLinked(m, l, Nodes(bs, off), k, b.addr + off, Nodes(bs', off), m');
    RelinkFrame(m, m', l, off, bs');
  }

  lemma ListedFrame(m: Memory, m': Memory, l: int, off: int, bs: seq<Block>)
    requires Listed(m, l, off, bs)
    requires forall a :: Owns(l, off, bs, a) ==> Word(m', a) == Word(m, a)
    ensures Listed(m', l, off, bs)
  {
    var ns := Nodes(bs, off);
    forall i | 0 <= i < |bs|
      ensures Word(m', ns[i]) == Word(m, ns[i]) && Word(m', ns[i] + 4) == Word(m, ns[i] + 4)
    {
      assert bs[i] in bs;
      assert Owns(l, off, bs, ns[i]) && Owns(l, off, bs, ns[i] + 4);
    }
    forall b | b in bs
      ensures SizeOf(m', b.addr + off) == b.size
    {
      assert Owns(l, off, bs, b.addr + off + 8);
    }
    LinkedFrame(m, m', l, ns);
  }

  // ---------------------------------------------------------------------------
  // The two lists together
  // ---------------------------------------------------------------------------

  /** `order` is a reordering of the canonical list `bs`, and both headers lie outside every block. */
  ghost predicate Shape(al: int, sl: int, bs: seq<Block>, order: seq<Block>) {
    && 0 < al && 0 < sl && (al + HEADER_BYTES <= sl || sl + HEADER_BYTES <= al)
    && Canonical(bs) && NoDuplicates(order) && SameElements(bs, order)
    && (forall b :: b in bs ==> Clear(al, b) && Clear(sl, b))
  }

  ghost predicate Represents(m: Memory, al: int, sl: int, bs: seq<Block>, order: seq<Block>) {
    Shape(al, sl, bs, order) && Listed(m, al, ADDR_NODE, bs) && Listed(m, sl, SIZE_NODE, order)
  }

  ghost predicate InHeaders(al: int, sl: int, a: int) {
    al <= a < al + HEADER_BYTES || sl <= a < sl + HEADER_BYTES
  }

  lemma CanonicalElements(bs: seq<Block>)
    requires Canonical(bs)
    ensures NoDuplicates(bs)
    ensures forall b :: b in bs ==> b.Valid()
    ensures forall b, c :: b in bs && c in bs && b != c ==> b.End() < c.addr || c.End() < b.addr
  {
  }

  lemma ShapeGivesRoom(al: int, sl: int, bs: seq<Block>, order: seq<Block>)
    requires Shape(al, sl, bs, order)
    ensures Room(al, bs) && Room(sl, order)
  {
    CanonicalElements(bs);
    assert forall i :: 0 <= i < |order| ==> order[i] in order;
    assert forall i :: 0 <= i < |bs| ==> bs[i] in bs;
  }

  /** The size list is a permutation of the address list. */
  lemma SameBlocks(m: Memory, al: int, sl: int, bs: seq<Block>, order: seq<Block>)
    requires Represents(m, al, sl, bs, order)
    ensures multiset(order) == multiset(bs)
  {
    CanonicalElements(bs);
    PermutationOf(order, bs);
  }

  lemma OwnsIsInside(l: int, off: int, bs: seq<Block>, a: int)
    requires Room(l, bs) && 0 <= off <= NODE_BYTES && Owns(l, off, bs, a)
    ensures l <= a < l + HEADER_BYTES || IsFree(bs, a)
  {
    if !(l <= a < l + HEADER_BYTES) {
      var b :| b in bs && b.addr + off <= a < b.addr + off + NODE_BYTES;
      assert b.Has(a);
    }
  }

  /** The two lists use disjoint words, even inside one block. */
  lemma ListsApart(al: int, sl: int, bs: seq<Block>, order: seq<Block>, a: int)
    requires Shape(al, sl, bs, order) && Owns(al, ADDR_NODE, bs, a)
    ensures !Owns(sl, SIZE_NODE, order, a)
  {
    CanonicalElements(bs);
  }

  lemma RemovedElements(s: seq<Block>, k: nat)
    requires k < |s| && NoDuplicates(s)
    ensures NoDuplicates(Removed(s, k))
    ensures forall x :: x in Removed(s, k) <==> x in s && x != s[k]
  {
    forall x | x in s && x != s[k]
      ensures x in Removed(s, k)
    {
      var i :| 0 <= i < |s| && s[i] == x;
      assert i < k ==> Removed(s, k)[i] == x;
      assert i > k ==> Removed(s, k)[i - 1] == x;
    }
  }

  lemma RemovedShape(al: int, sl: int, bs: seq<Block>, order: seq<Block>, i: nat, j: nat)
    requires Shape(al, sl, bs, order) && i < |bs| && j < |order| && bs[i] == order[j]
    ensures Shape(al, sl, Removed(bs, i), Removed(order, j))
  {
    CanonicalElements(bs);
    RemovedElements(bs, i);
    RemovedElements(order, j);
  }

  ghost predicate ChangedOnlyInside(al: int, sl: int, bs: seq<Block>, m: Memory, m': Memory) {
    forall a :: !InHeaders(al, sl, a) && !IsFree(bs, a) ==> Word(m', a) == Word(m, a)
  }

  /** A change inside the words of the address list stays clear of the size list and inside the blocks. */
  lemma AddrWords(m: Memory, m': Memory, al: int, sl: int, bs: seq<Block>, order: seq<Block>)
    requires Shape(al, sl, bs, order)
    requires forall a :: !Owns(al, ADDR_NODE, bs, a) ==> Word(m', a) == Word(m, a)
    ensures forall a :: Owns(sl, SIZE_NODE, order, a) ==> Word(m', a) == Word(m, a)
    ensures ChangedOnlyInside(al, sl, bs, m, m')
  {
    forall a | Owns(sl, SIZE_NODE, order, a)
      ensures Word(m', a) == Word(m, a)
    {
      if Owns(al, ADDR_NODE, bs, a) { ListsApart(al, sl, bs, order, a); }
    }
    ShapeGivesRoom(al, sl, bs, order);
    forall a | !InHeaders(al, sl, a) && !IsFree(bs, a)
      ensures Word(m', a) == Word(m, a)
    {
      if Owns(al, ADDR_NODE, bs, a) { OwnsIsInside(al, ADDR_NODE, bs, a); }
    }
  }

  lemma SizeChange(m: Memory, m': Memory, al: int, sl: int, bs: seq<Block>, order: seq<Block>)
    requires Shape(al, sl, bs, order) && Listed(m, al, ADDR_NODE, bs)
    requires forall a :: !Owns(sl, SIZE_NODE, order, a) ==> Word(m', a) == Word(m, a)
    ensures Listed(m', al, ADDR_NODE, bs)
    ensures ChangedOnlyInside(al, sl, bs, m, m')
  {
    forall a | Owns(al, ADDR_NODE, bs, a)
      ensures Word(m', a) == Word(m, a)
    {
      ListsApart(al, sl, bs, order, a);
    }
    ListedFrame(m, m', al, ADDR_NODE, bs);
    ShapeGivesRoom(al, sl, bs, order);
    forall a | !InHeaders(al, sl, a) && !IsFree(bs, a)
      ensures Word(m', a) == Word(m, a)
    {
      if Owns(sl, SIZE_NODE, order, a) {
        OwnsIsInside(sl, SIZE_NODE, order, a);
      }
    }
  }

  lemma OwnsMore(l: int, off: int, bs: seq<Block>, i: nat, a: int)
    requires i < |bs| && !Owns(l, off, bs, a)
    ensures !Owns(l, off, Removed(bs, i), a)
  {
    assert forall b :: b in Removed(bs, i) ==> b in bs;
  }

  lemma UnlinkAddr(m: Memory, al: int, sl: int, bs: seq<Block>, order: seq<Block>, i: nat, m': Memory)
    requires Represents(m, al, sl, bs, order) && i < |bs| && m' == NodeDelete(m, bs[i].addr)
    ensures Listed(m', al, ADDR_NODE, Removed(bs, i)) && Listed(m', sl, SIZE_NODE, order)
    ensures forall a :: !Owns(al, ADDR_NODE, Removed(bs, i), a) ==> Word(m', a) == Word(m, a)
  {
    hide Linked, Canonical, NoDuplicates, SameElements, Room, Owns;
    assert Room(al, bs) by { ShapeGivesRoom(al, sl, bs, order); }
    DeleteListed(m, al, ADDR_NODE, bs, i, m', Removed(bs, i));
    SizeListKept(m, m', al, sl, bs, order, i);
  }

  lemma SizeListKept(m: Memory, m': Memory, al: int, sl: int, bs: seq<Block>, order: seq<Block>, i: nat)
    requires Shape(al, sl, bs, order) && Listed(m, sl, SIZE_NODE, order) && i < |bs|
    requires forall a :: !Owns(al, ADDR_NODE, Removed(bs, i), a) ==> Word(m', a) == Word(m, a)
    ensures Listed(m', sl, SIZE_NODE, order)
  {
    forall a | !Owns(al, ADDR_NODE, bs, a)
      ensures Word(m', a) == Word(m, a)
    {
      OwnsMore(al, ADDR_NODE, bs, i, a);
    }
    AddrWords(m, m', al, sl, bs, order);
    ListedFrame(m, m', sl, SIZE_NODE, order);
  }

  /** Deleting a block's two nodes leaves both lists over the remaining blocks, and its own words untouched. */
  lemma UnlinkKeeps(m: Memory, al: int, sl: int, bs: seq<Block>, order: seq<Block>, i: nat, j: nat, m': Memory)
    requires Represents(m, al, sl, bs, order) && i < |bs| && j < |order| && bs[i] == order[j]
    requires m' == NodeDelete(NodeDelete(m, bs[i].addr), bs[i].addr + SIZE_NODE)
    ensures Represents(m', al, sl, Removed(bs, i), Removed(order, j))
    ensures ChangedOnlyInside(al, sl, Removed(bs, i), m, m')
  {
    hide Linked, Canonical, NoDuplicates, SameElements, Room, Owns;
    var bs', order' := Removed(bs, i), Removed(order, j);
    var m1 := NodeDelete(m, bs[i].addr);
    assert Room(sl, order) by { ShapeGivesRoom(al, sl, bs, order); }
    RemovedShape(al, sl, bs, order, i, j);
    UnlinkAddr(m, al, sl, bs, order, i, m1);
    assert ChangedOnlyInside(al, sl, bs', m, m1) by {
      AddrWords(m, m1, al, sl, bs', order');
    }
    DeleteListed(m1, sl, SIZE_NODE, order, j, m', order');
    SizeChange(m1, m', al, sl, bs', order');
  }

  /**
   Block `b` belongs at position `k`: everything before lies below it, everything after
   above it, and nothing touches it.
   */
  ghost predicate Fits(bs: seq<Block>, k: nat, b: Block) {
    && k <= |bs|
    && b.Valid()
    && (forall i :: 0 <= i < k ==> bs[i].End() < b.addr)
    && (forall i :: k <= i < |bs| ==> b.End() < bs[i].addr)
  }

  lemma InsertedShape(al: int, sl: int, bs: seq<Block>, order: seq<Block>, k: nat, j: nat, b: Block)
    requires Shape(al, sl, bs, order) && Fits(bs, k, b) && j <= |order|
    requires Clear(al, b) && Clear(sl, b)
    ensures Shape(al, sl, Inserted(bs, k, b), Inserted(order, j, b))
  {
    assert b !in bs;
    assert NoDuplicates(bs) by { CanonicalElements(bs); }
    InsertedElements(bs, k, b);
    InsertedElements(order, j, b);
  }

  /**
   First half of adding a block: its address node goes in, the size list and the block's
   own size node are untouched.
   */
  lemma LinkAddr(m: Memory, al: int, sl: int, bs: seq<Block>, order: seq<Block>, k: nat, b: Block, m': Memory)
    requires Represents(m, al, sl, bs, order) && Fits(bs, k, b) && Clear(al, b) && Clear(sl, b)
    requires SizeOf(m, b.addr) == b.size
    requires m' == NodeInsertAfter(m, At(al, Nodes(bs, ADDR_NODE), k), b.addr)
    ensures Listed(m', al, ADDR_NODE, Inserted(bs, k, b)) && Listed(m', sl, SIZE_NODE, order)
    ensures SizeOf(m', b.addr + SIZE_NODE) == SizeOf(m, b.addr + SIZE_NODE)
    ensures ChangedOnlyInside(al, sl, Inserted(bs, k, b), m, m')
  {
    hide Linked, Canonical, NoDuplicates, SameElements, Room, Owns;
    var bs', order' := Inserted(bs, k, b), Inserted(order, 0, b);
    InsertedShape(al, sl, bs, order, k, 0, b);
    assert Room(al, bs') by { ShapeGivesRoom(al, sl, bs', order'); }
    InsertListed(m, al, ADDR_NODE, bs, k, b, m', bs');
    AddrWords(m, m', al, sl, bs', order');
    SizeNodeKept(m, m', sl, order, b);
  }

  lemma SizeNodeKept(m: Memory, m': Memory, sl: int, order: seq<Block>, b: Block)
    requires Listed(m, sl, SIZE_NODE, order)
    requires forall a :: Owns(sl, SIZE_NODE, Inserted(order, 0, b), a) ==> Word(m', a) == Word(m, a)
    ensures Listed(m', sl, SIZE_NODE, order)
    ensures SizeOf(m', b.addr + SIZE_NODE) == SizeOf(m, b.addr + SIZE_NODE)
  {
    var order' := Inserted(order, 0, b);
    InsertedElements(order, 0, b);
    assert Owns(sl, SIZE_NODE, order', b.addr + SIZE_NODE + 8);
    ListedFrame(m, m', sl, SIZE_NODE, order);
  }

  /** Second half: its size node goes in at any position of the size list. */
  lemma LinkSize(m: Memory, al: int, sl: int, bs: seq<Block>, order: seq<Block>, k: nat, j: nat, b: Block, m': Memory)
    requires Shape(al, sl, bs, order) && Fits(bs, k, b) && Clear(al, b) && Clear(sl, b) && j <= |order|
    requires Listed(m, al, ADDR_NODE, Inserted(bs, k, b)) && Listed(m, sl, SIZE_NODE, order)
    requires SizeOf(m, b.addr + SIZE_NODE) == b.size
    requires m' == NodeInsertAfter(m, At(sl, Nodes(order, SIZE_NODE), j), b.addr + SIZE_NODE)
    ensures Represents(m', al, sl, Inserted(bs, k, b), Inserted(order, j, b))
    ensures ChangedOnlyInside(al, sl, Inserted(bs, k, b), m, m')
  {
    hide Linked, Canonical, NoDuplicates, SameElements, Room, Owns;
    var bs', order' := Inserted(bs, k, b), Inserted(order, j, b);
    InsertedShape(al, sl, bs, order, k, j, b);
    ShapeGivesRoom(al, sl, bs', order');
    InsertListed(m, sl, SIZE_NODE, order, j, b, m', order');
    SizeChange(m, m', al, sl, bs', order');
  }

  /** What one step of a list traversal sees. */
  lemma Walk(m: Memory, l: int, off: int, bs: seq<Block>, k: nat)
    requires Listed(m, l, off, bs) && Room(l, bs) && 0 <= off <= NODE_BYTES && k <= |bs|
    ensures var ns := Nodes(bs, off);
            && Next(m, At(l, ns, k)) == At(l, ns, k + 1)
            && Prev(m, At(l, ns, k + 1)) == At(l, ns, k)
            && (Next(m, At(l, ns, k + 1)) == 0 <==> k == |bs|)
            && (k < |bs| ==> At(l, ns, k + 1) == bs[k].addr + off && SizeOf(m, bs[k].addr + off) == bs[k].size)
  {
    var ns := Nodes(bs, off);
    assert Next(m, At(l, ns, k)) == At(l, ns, k + 1);
    assert Prev(m, At(l, ns, k + 1)) == At(l, ns, k);
    if k < |bs| {
      assert Next(m, At(l, ns, k + 1)) == At(l, ns, k + 2);
      assert bs[k] in bs;
      assert k + 1 < |bs| ==> bs[k + 1] in bs;
    }
  }

  /** The two deletes touch disjoint words, so their order does not matter. */
  lemma DeletesCommute(m: Memory, al: int, sl: int, bs: seq<Block>, order: seq<Block>, i: nat, j: nat)
    requires Represents(m, al, sl, bs, order) && i < |bs| && j < |order| && bs[i] == order[j]
    ensures NodeDelete(NodeDelete(m, bs[i].addr), bs[i].addr + SIZE_NODE)
         == NodeDelete(NodeDelete(m, bs[i].addr + SIZE_NODE), bs[i].addr)
  {
    hide Linked, Canonical, NoDuplicates, SameElements, Room, Owns, Spaced, NodeDelete, Unlinked, At, Word, Nodes,
         Shape;
    var ns, ss := Nodes(bs, ADDR_NODE), Nodes(order, SIZE_NODE);
    ShapeGivesRoom(al, sl, bs, order);
    RoomIsSpaced(al, ADDR_NODE, bs);
    RoomIsSpaced(sl, SIZE_NODE, order);
    DeleteIsUnlink(m, al, ns, i);
    DeleteIsUnlink(m, sl, ss, j);
    ChainOwned(al, ADDR_NODE, bs, i);
    ChainOwned(sl, SIZE_NODE, order, j);
    var p, n, p', n' := At(al, ns, i), At(al, ns, i + 2), At(sl, ss, j), At(sl, ss, j + 2);
    WordsApart(al, sl, bs, order, p, p');
    WordsApart(al, sl, bs, order, p, n' + 4);
    WordsApart(al, sl, bs, order, n + 4, p');
    WordsApart(al, sl, bs, order, n + 4, n' + 4);
    var a := bs[i].addr;
    NodeAt(al, ADDR_NODE, bs, i);
    NodeAt(sl, SIZE_NODE, order, j);
    LinksAt(m, al, ns, i);
    LinksAt(m, sl, ss, j);
    NodeWordsOwned(al, ADDR_NODE, bs, i);
    NodeWordsOwned(sl, SIZE_NODE, order, j);
    DeleteAfterUnlink(m, p', n', a) by {
      WordsApart(al, sl, bs, order, a, p');
      WordsApart(al, sl, bs, order, a, n' + 4);
      WordsApart(al, sl, bs, order, a + 4, p');
      WordsApart(al, sl, bs, order, a + 4, n' + 4);
      ChainWordsDiffer(al, ns, i, i + 2);
      ChainWordsDiffer(al, ns, i + 2, i);
    }
    DeleteAfterUnlink(m, p, n, a + SIZE_NODE) by {
      WordsApart(al, sl, bs, order, p, a + SIZE_NODE);
      WordsApart(al, sl, bs, order, n + 4, a + SIZE_NODE);
      WordsApart(al, sl, bs, order, p, a + SIZE_NODE + 4);
      WordsApart(al, sl, bs, order, n + 4, a + SIZE_NODE + 4);
      ChainWordsDiffer(sl, ss, j, j + 2);
      ChainWordsDiffer(sl, ss, j + 2, j);
    }
    UnlinksCommute(m, p, n, p', n');
  }

  lemma DeleteAfterUnlink(m: Memory, p: int, n: int, s: int)
    requires s != p && s != n + 4 && s + 4 != p && s + 4 != n + 4
    requires Next(m, s) != 0 && Prev(m, s) != 0
    ensures NodeDelete(Unlinked(m, p, n), s) == Unlinked(Unlinked(m, p, n), Prev(m, s), Next(m, s))
  {
  }

  lemma UnlinksCommute(m: Memory, p: int, n: int, p': int, n': int)
    requires p != p' && p != n' + 4 && n + 4 != p' && n != n'
    ensures Unlinked(Unlinked(m, p, n), p', n') == Unlinked(Unlinked(m, p', n'), p, n)
  {
  }

  lemma NodeAt(l: int, off: int, bs: seq<Block>, i: nat)
    requires i < |bs|
    ensures At(l, Nodes(bs, off), i + 1) == bs[i].addr + off
  {
  }

  lemma LinksAt(m: Memory, l: int, ns: seq<int>, i: nat)
    requires Linked(m, l, ns) && i < |ns|
    ensures Next(m, At(l, ns, i + 1)) == At(l, ns, i + 2) && Prev(m, At(l, ns, i + 1)) == At(l, ns, i)
  {
  }

  lemma NodeWordsOwned(l: int, off: int, bs: seq<Block>, i: nat)
    requires i < |bs|
    ensures Owns(l, off, bs, bs[i].addr + off) && Owns(l, off, bs, bs[i].addr + off + 4)
  {
    assert bs[i] in bs;
  }

  lemma ChainOwned(l: int, off: int, bs: seq<Block>, i: nat)
    requires i < |bs|
    ensures Owns(l, off, bs, At(l, Nodes(bs, off), i)) && Owns(l, off, bs, At(l, Nodes(bs, off), i + 2) + 4)
  {
    if i > 0 { NodeWordsOwned(l, off, bs, i - 1); }
    if i + 1 < |bs| { NodeWordsOwned(l, off, bs, i + 1); }
  }

  lemma WordsApart(al: int, sl: int, bs: seq<Block>, order: seq<Block>, a: int, b: int)
    requires Shape(al, sl, bs, order) && Owns(al, ADDR_NODE, bs, a) && Owns(sl, SIZE_NODE, order, b)
    ensures a != b
  {
    ListsApart(al, sl, bs, order, a);
  }
}
