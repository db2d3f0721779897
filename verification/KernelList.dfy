/**
 The kernel's doubly linked lists (kernel/list.asm, kernel/include/list.h).

 A list lives in plain memory: a node is four words (next, prev, size, type) and
 the header is three words that overlap two dummy nodes, the head node at `l` and
 the tail node at `l + 4`.  Memory is a map from word addresses to words.
 */
module KernelList {

  type Memory = map<int, int>

  const NODE_BYTES := 16
  const HEADER_BYTES := 12

  function Word(m: Memory, a: int): int {
    if a in m then m[a] else 0
  }

  function Next(m: Memory, node: int): int { Word(m, node) }

  function Prev(m: Memory, node: int): int { Word(m, node + 4) }

  function SizeOf(m: Memory, node: int): int { Word(m, node + 8) }

  // ---------------------------------------------------------------------------
  // The primitives, word for word
  // ---------------------------------------------------------------------------

  function ListInit(m: Memory, l: int): Memory {
    m[l := l + 4][l + 4 := 0][l + 8 := l]
  }

  function NodeInsertAfter(m: Memory, target: int, subject: int): Memory {
    var next := Next(m, target);
    var linked := m[target := subject][subject := next][subject + 4 := target];
    if next != 0 then linked[next + 4 := subject] else linked
  }

  function NodeDelete(m: Memory, subject: int): Memory {
    var prev, next := Prev(m, subject), Next(m, subject);
    var m1 := if prev != 0 then m[prev := next] else m;
    if next != 0 then m1[next + 4 := prev] else m1
  }

  // ---------------------------------------------------------------------------
  // What it means for memory to hold a list
  // ---------------------------------------------------------------------------

  /** The chain of nodes: head dummy, the nodes in order, tail dummy. */
  ghost function At(l: int, ns: seq<int>, i: int): int
    requires 0 <= i <= |ns| + 1
  {
    if i == 0 then l else if i <= |ns| then ns[i - 1] else l + 4
  }

  ghost predicate Linked(m: Memory, l: int, ns: seq<int>) {
    && Word(m, l + 4) == 0
    && (forall i {:trigger Next(m, At(l, ns, i))} :: 0 <= i <= |ns| ==> Next(m, At(l, ns, i)) == At(l, ns, i + 1))
    && (forall i {:trigger Prev(m, At(l, ns, i))} :: 1 <= i <= |ns| + 1 ==> Prev(m, At(l, ns, i)) == At(l, ns, i - 1))
  }

  /** The nodes overlap neither each other nor the header. */
  ghost predicate Spaced(l: int, ns: seq<int>) {
    && 0 < l
    && (forall i :: 0 <= i < |ns| ==> ClearOfHeader(l, ns[i]))
    && (forall i, j :: 0 <= i < j < |ns| ==> ClearOf(ns[i], ns[j]))
  }

  ghost predicate ClearOfHeader(l: int, node: int) {
    0 < node && (node + NODE_BYTES <= l || l + HEADER_BYTES <= node)
  }

  ghost predicate ClearOf(a: int, b: int) {
    a + NODE_BYTES <= b || b + NODE_BYTES <= a
  }

  /** The words through which a list is linked. */
  ghost predicate IsLinkWord(l: int, ns: seq<int>, a: int) {
    a == l || a == l + 8 || exists i :: 0 <= i < |ns| && (a == ns[i] || a == ns[i] + 4)
  }

  /** `s` without position `k`. */
  ghost function Removed<T>(s: seq<T>, k: nat): (r: seq<T>)
    requires k < |s|
    ensures |r| == |s| - 1
    ensures forall i :: 0 <= i < |r| ==> r[i] == s[if i < k then i else i + 1]
  {
    seq(|s| - 1, i requires 0 <= i < |s| - 1 => s[if i < k then i else i + 1])
  }

  /** `s` with `x` put in at position `k`. */
  ghost function Inserted<T>(s: seq<T>, k: nat, x: T): (r: seq<T>)
    requires k <= |s|
    ensures |r| == |s| + 1
    ensures forall i :: 0 <= i < |r| ==> r[i] == if i == k then x else s[if i < k then i else i - 1]
  {
    seq(|s| + 1, i requires 0 <= i < |s| + 1 => if i == k then x else s[if i < k then i else i - 1])
  }

  // ---------------------------------------------------------------------------
  // The primitives keep lists, and touch only words the list owns
  // ---------------------------------------------------------------------------

  lemma InitIsEmpty(m: Memory, l: int)
    ensures Linked(ListInit(m, l), l, [])
    ensures forall a :: !(l <= a < l + HEADER_BYTES) ==> Word(ListInit(m, l), a) == Word(m, a)
  {
  }

  /** The next-words and prev-words of a chain are pairwise different. */
  lemma ChainWordsDiffer(l: int, ns: seq<int>, i: int, j: int)
    requires Spaced(l, ns) && 0 <= i <= |ns| + 1 && 0 <= j <= |ns| + 1
    ensures At(l, ns, i) > 0
    ensures i <= |ns| ==> At(l, ns, i) != l + 4
    ensures j >= 1 ==> At(l, ns, j) != l
    ensures i <= |ns| && j >= 1 ==> At(l, ns, i) != At(l, ns, j) + 4
    ensures i != j ==> At(l, ns, i) != At(l, ns, j)
  {
    assert 1 <= i < j <= |ns| ==> ClearOf(ns[i - 1], ns[j - 1]);
    assert 1 <= j < i <= |ns| ==> ClearOf(ns[j - 1], ns[i - 1]);
  }

  lemma LinkWord(l: int, ns: seq<int>, i: int)
    requires 0 <= i <= |ns| + 1
    ensures i <= |ns| ==> IsLinkWord(l, ns, At(l, ns, i))
    ensures i >= 1 ==> IsLinkWord(l, ns, At(l, ns, i) + 4)
  {
  }

  ghost function Unlinked(m: Memory, p: int, n: int): Memory {
    m[p := n][n + 4 := p]
  }

  ghost function Spliced(m: Memory, p: int, s: int, n: int): Memory {
    m[p := s][s := n][s + 4 := p][n + 4 := s]
  }

  lemma DeleteIsUnlink(m: Memory, l: int, ns: seq<int>, k: nat)
    requires Linked(m, l, ns) && Spaced(l, ns) && k < |ns|
    ensures NodeDelete(m, ns[k]) == Unlinked(m, At(l, ns, k), At(l, ns, k + 2))
  {
    assert Next(m, At(l, ns, k + 1)) == At(l, ns, k + 2) && Prev(m, At(l, ns, k + 1)) == At(l, ns, k);
    ChainWordsDiffer(l, ns, k, k + 2);
    ChainWordsDiffer(l, ns, k + 2, k);
  }

  /** Each link of the shortened chain is either an old link or the one that bridges the gap. */
  lemma UnlinkedAt(m: Memory, l: int, ns: seq<int>, k: nat, ns': seq<int>, i: int)
    requires Linked(m, l, ns) && Spaced(l, ns) && k < |ns| && ns' == Removed(ns, k)
    requires 0 <= i <= |ns'|
    ensures var m' := Unlinked(m, At(l, ns, k), At(l, ns, k + 2));
            Next(m', At(l, ns', i)) == At(l, ns', i + 1) && Prev(m', At(l, ns', i + 1)) == At(l, ns', i)
  {
    var j := if i <= k then i else i + 1;
    var j' := if i < k then i + 1 else i + 2;
    assert At(l, ns', i) == At(l, ns, j) && At(l, ns', i + 1) == At(l, ns, j');
    ChainWordsDiffer(l, ns, j, k);
    ChainWordsDiffer(l, ns, j, k + 2);
    ChainWordsDiffer(l, ns, k, j');
    ChainWordsDiffer(l, ns, k + 2, j');
    assert Next(m, At(l, ns, j)) == At(l, ns, j + 1) && Prev(m, At(l, ns, j')) == At(l, ns, j' - 1);
  }

  lemma DeleteKeepsLinked(m: Memory, l: int, ns: seq<int>, k: nat, ns': seq<int>, m': Memory)
    requires Linked(m, l, ns) && Spaced(l, ns) && k < |ns|
    requires ns' == Removed(ns, k) && m' == NodeDelete(m, ns[k])
    ensures Linked(m', l, ns')
    ensures forall a :: a != At(l, ns, k) && a != At(l, ns, k + 2) + 4 ==> Word(m', a) == Word(m, a)
    ensures forall a :: !IsLinkWord(l, ns', a) ==> Word(m', a) == Word(m, a)
  {
    DeleteIsUnlink(m, l, ns, k);
    forall i | 0 <= i <= |ns'|
      ensures Next(m', At(l, ns', i)) == At(l, ns', i + 1) && Prev(m', At(l, ns', i + 1)) == At(l, ns', i)
    {
      UnlinkedAt(m, l, ns, k, ns', i);
    }
    assert Word(m', l + 4) == 0 by {
      ChainWordsDiffer(l, ns, k, k + 2);
    }
    assert forall a :: !IsLinkWord(l, ns', a) ==> Word(m', a) == Word(m, a) by {
      assert At(l, ns, k) == At(l, ns', k) && At(l, ns, k + 2) == At(l, ns', k + 1);
      LinkWord(l, ns', k);
      LinkWord(l, ns', k + 1);
    }
  }

  lemma InsertIsSplice(m: Memory, l: int, ns: seq<int>, k: nat, s: int, ns': seq<int>)
    requires Linked(m, l, ns) && k <= |ns| && ns' == Inserted(ns, k, s) && Spaced(l, ns')
    ensures NodeInsertAfter(m, At(l, ns, k), s) == Spliced(m, At(l, ns', k), s, At(l, ns', k + 2))
  {
    assert At(l, ns, k) == At(l, ns', k) && At(l, ns, k + 1) == At(l, ns', k + 2);
    assert Next(m, At(l, ns, k)) == At(l, ns, k + 1);
    ChainWordsDiffer(l, ns', k + 2, k);
  }

  lemma SplicedAt(m: Memory, l: int, ns: seq<int>, k: nat, s: int, ns': seq<int>, i: int)
    requires Linked(m, l, ns) && k <= |ns| && ns' == Inserted(ns, k, s) && Spaced(l, ns')
    requires 0 <= i <= |ns'|
    ensures var m' := Spliced(m, At(l, ns', k), s, At(l, ns', k + 2));
            Next(m', At(l, ns', i)) == At(l, ns', i + 1) && Prev(m', At(l, ns', i + 1)) == At(l, ns', i)
  {
    assert At(l, ns', k + 1) == s;
    SplicedWords(l, ns', k, i);
    if i < k || i > k + 1 {
      var j := if i < k then i else i - 1;
      assert At(l, ns', i) == At(l, ns, j) && At(l, ns', i + 1) == At(l, ns, j + 1);
      assert Next(m, At(l, ns, j)) == At(l, ns, j + 1) && Prev(m, At(l, ns, j + 1)) == At(l, ns, j);
    }
  }

  lemma SplicedWords(l: int, ns: seq<int>, k: nat, i: int)
    requires Spaced(l, ns) && k < |ns| && 0 <= i <= |ns|
    ensures forall j :: k <= j <= k + 2 && j != i && j <= |ns| ==> At(l, ns, i) != At(l, ns, j)
    ensures forall j :: k <= j <= k + 2 && 1 <= j ==> At(l, ns, i) != At(l, ns, j) + 4
    ensures forall j :: k <= j <= k + 2 && j != i + 1 && 1 <= j ==> At(l, ns, i + 1) != At(l, ns, j)
    ensures forall j :: k <= j <= k + 2 && j <= |ns| ==> At(l, ns, i + 1) + 4 != At(l, ns, j)
  {
    forall j | k <= j <= k + 2
      ensures j != i && j <= |ns| ==> At(l, ns, i) != At(l, ns, j)
      ensures 1 <= j ==> At(l, ns, i) != At(l, ns, j) + 4
      ensures j != i + 1 && 1 <= j ==> At(l, ns, i + 1) != At(l, ns, j)
      ensures j <= |ns| ==> At(l, ns, i + 1) + 4 != At(l, ns, j)
    {
      ChainWordsDiffer(l, ns, i, j);
      ChainWordsDiffer(l, ns, j, i + 1);
    }
  }

  lemma InsertKeepsLinked(m: Memory, l: int, ns: seq<int>, k: nat, s: int, ns': seq<int>, m': Memory)
    requires Linked(m, l, ns) && k <= |ns|
    requires ns' == Inserted(ns, k, s) && Spaced(l, ns') && m' == NodeInsertAfter(m, At(l, ns, k), s)
    ensures Linked(m', l, ns')
    ensures forall a :: !IsLinkWord(l, ns', a) ==> Word(m', a) == Word(m, a)
  {
    InsertIsSplice(m, l, ns, k, s, ns');
    forall i | 0 <= i <= |ns'|
      ensures Next(m', At(l, ns', i)) == At(l, ns', i + 1) && Prev(m', At(l, ns', i + 1)) == At(l, ns', i)
    {
      SplicedAt(m, l, ns, k, s, ns', i);
    }
    assert Word(m', l + 4) == 0 && (forall a :: !IsLinkWord(l, ns', a) ==> Word(m', a) == Word(m, a)) by {
      SplicedFrame(m, l, ns', k);
    }
  }

  lemma SplicedFrame(m: Memory, l: int, ns: seq<int>, k: nat)
    requires Spaced(l, ns) && k < |ns|
    ensures var m' := Spliced(m, At(l, ns, k), ns[k], At(l, ns, k + 2));
            Word(m', l + 4) == Word(m, l + 4) && (forall a :: !IsLinkWord(l, ns, a) ==> Word(m', a) == Word(m, a))
  {
    assert At(l, ns, k + 1) == ns[k];
    LinkWord(l, ns, k);
    LinkWord(l, ns, k + 1);
    LinkWord(l, ns, k + 2);
    ChainWordsDiffer(l, ns, k, k + 1);
    ChainWordsDiffer(l, ns, k + 1, k + 2);
  }

  lemma LinkedFrame(m: Memory, m': Memory, l: int, ns: seq<int>)
    requires Linked(m, l, ns)
    requires Word(m', l) == Word(m, l) && Word(m', l + 4) == Word(m, l + 4) && Word(m', l + 8) == Word(m, l + 8)
    requires forall i :: 0 <= i < |ns| ==>
               Word(m', ns[i]) == Word(m, ns[i]) && Word(m', ns[i] + 4) == Word(m, ns[i] + 4)
    ensures Linked(m', l, ns)
  {
    forall i | 0 <= i <= |ns|
      ensures Next(m', At(l, ns, i)) == At(l, ns, i + 1)
    {
      assert Next(m, At(l, ns, i)) == At(l, ns, i + 1);
    }
    forall i | 1 <= i <= |ns| + 1
      ensures Prev(m', At(l, ns, i)) == At(l, ns, i - 1)
    {
      assert Prev(m, At(l, ns, i)) == At(l, ns, i - 1);
    }
  }
}
