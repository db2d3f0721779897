/**
 A graph grown one leaf at a time.

 `nodes` lists the nodes in the order they were added; node `i` hangs from
 `nodes[up[i]]`, added earlier.  Such a graph is a tree: any two nodes are joined
 by exactly one simple path.
 */
module GrowingTree {

  ghost predicate Grown(nodes: seq<int>, up: seq<int>) {
    && 1 <= |nodes| == |up|
    && (forall i, j :: 0 <= i < j < |nodes| ==> nodes[i] != nodes[j])
    && (forall i :: 1 <= i < |up| ==> 0 <= up[i] < i)
  }

  /** `u` and `v` are joined by the edge that was added with node `i`. */
  ghost predicate JoinedAt(nodes: seq<int>, up: seq<int>, u: int, v: int, i: int)
    requires Grown(nodes, up) && 1 <= i < |nodes|
  {
    (u == nodes[i] && v == nodes[up[i]]) || (v == nodes[i] && u == nodes[up[i]])
  }

  ghost predicate Joined(nodes: seq<int>, up: seq<int>, u: int, v: int)
    requires Grown(nodes, up)
  {
    exists i :: 1 <= i < |nodes| && JoinedAt(nodes, up, u, v, i)
  }

  /** A path visits no node twice. */
  ghost predicate IsPath(nodes: seq<int>, up: seq<int>, p: seq<int>)
    requires Grown(nodes, up)
  {
    && p != []
    && (forall i :: 0 <= i < |p| ==> p[i] in nodes)
    && (forall i :: 0 <= i < |p| - 1 ==> Joined(nodes, up, p[i], p[i + 1]))
    && (forall i, j :: 0 <= i < j < |p| ==> p[i] != p[j])
  }

  ghost predicate Joins(p: seq<int>, u: int, v: int) {
    p != [] && p[0] == u && p[|p| - 1] == v
  }

  // ---------------------------------------------------------------------------

  lemma DropLeaf(nodes: seq<int>, up: seq<int>)
    requires Grown(nodes, up) && 2 <= |nodes|
    ensures var n := |nodes| - 1;
            && Grown(nodes[..n], up[..n]) && nodes[n] !in nodes[..n] && nodes[up[n]] in nodes[..n]
            && (forall x :: x in nodes <==> x in nodes[..n] || x == nodes[n])
            && (forall u, v :: Joined(nodes, up, u, v) <==>
                  Joined(nodes[..n], up[..n], u, v) || JoinedAt(nodes, up, u, v, n))
            && (forall u, v :: Joined(nodes[..n], up[..n], u, v) ==> u in nodes[..n] && v in nodes[..n])
  {
    var n := |nodes| - 1;
    var nodes', up' := nodes[..n], up[..n];
    assert nodes == nodes' + [nodes[n]];
    forall u, v
      ensures Joined(nodes, up, u, v) <==> Joined(nodes', up', u, v) || JoinedAt(nodes, up, u, v, n)
    {
      if Joined(nodes, up, u, v) {
        var i :| 1 <= i < |nodes| && JoinedAt(nodes, up, u, v, i);
        assert i < n ==> JoinedAt(nodes', up', u, v, i);
      }
      if Joined(nodes', up', u, v) {
        var i :| 1 <= i < n && JoinedAt(nodes', up', u, v, i);
        assert JoinedAt(nodes, up, u, v, i);
      }
    }
    assert nodes'[up[n]] in nodes';
  }

  lemma JoinedSymmetric(nodes: seq<int>, up: seq<int>, u: int, v: int)
    requires Grown(nodes, up)
    ensures Joined(nodes, up, u, v) <==> Joined(nodes, up, v, u)
  {
    if Joined(nodes, up, u, v) {
      var i :| 1 <= i < |nodes| && JoinedAt(nodes, up, u, v, i);
      assert JoinedAt(nodes, up, v, u, i);
    }
    if Joined(nodes, up, v, u) {
      var i :| 1 <= i < |nodes| && JoinedAt(nodes, up, v, u, i);
      assert JoinedAt(nodes, up, u, v, i);
    }
  }

  /** A leaf has one neighbour, so a path can only start or end there. */
  lemma LeafIsAnEnd(nodes: seq<int>, up: seq<int>, p: seq<int>, k: int)
    requires Grown(nodes, up) && 2 <= |nodes| && IsPath(nodes, up, p)
    requires 0 <= k < |p| && p[k] == nodes[|nodes| - 1]
    ensures k == 0 || k == |p| - 1
    ensures k == 0 && 1 < |p| ==> p[1] == nodes[up[|nodes| - 1]]
    ensures k == |p| - 1 && 1 < |p| ==> p[|p| - 2] == nodes[up[|nodes| - 1]]
  {
    DropLeaf(nodes, up);
    var n := |nodes| - 1;
    if k + 1 < |p| {
      assert Joined(nodes, up, p[k], p[k + 1]);
      assert JoinedAt(nodes, up, p[k], p[k + 1], n);
    }
    if 0 < k {
      assert Joined(nodes, up, p[k - 1], p[k]);
      assert JoinedAt(nodes, up, p[k - 1], p[k], n);
    }
  }

  lemma AvoidsLeaf(nodes: seq<int>, up: seq<int>, p: seq<int>)
    requires Grown(nodes, up) && 2 <= |nodes| && IsPath(nodes, up, p) && nodes[|nodes| - 1] !in p
    ensures var n := |nodes| - 1; Grown(nodes[..n], up[..n]) && IsPath(nodes[..n], up[..n], p)
  {
    DropLeaf(nodes, up);
    var n := |nodes| - 1;
    forall i | 0 <= i < |p| - 1
      ensures Joined(nodes[..n], up[..n], p[i], p[i + 1])
    {
      assert Joined(nodes, up, p[i], p[i + 1]);
      assert p[i] in p && p[i + 1] in p;
    }
    forall i | 0 <= i < |p|
      ensures p[i] in nodes[..n]
    {
      assert p[i] in p;
    }
  }

  /** Where a path between two nodes goes with respect to the last leaf. */
  lemma TrimLeaf(nodes: seq<int>, up: seq<int>, p: seq<int>, u: int, v: int)
    requires Grown(nodes, up) && 2 <= |nodes| && IsPath(nodes, up, p) && Joins(p, u, v)
    ensures var n := |nodes| - 1; var leaf, twig := nodes[n], nodes[up[n]];
            && Grown(nodes[..n], up[..n])
            && (u == leaf && v == leaf ==> p == [leaf])
            && (u == leaf && v != leaf ==>
                  |p| > 1 && p[0] == leaf && IsPath(nodes[..n], up[..n], p[1..]) && Joins(p[1..], twig, v))
            && (u != leaf && v == leaf ==>
                  |p| > 1 && p[|p| - 1] == leaf && IsPath(nodes[..n], up[..n], p[..|p| - 1])
                      && Joins(p[..|p| - 1], u, twig))
            && (u != leaf && v != leaf ==> IsPath(nodes[..n], up[..n], p))
  {
    DropLeaf(nodes, up);
    var n := |nodes| - 1;
    var leaf := nodes[n];
    if u == leaf && v != leaf {
      LeafIsAnEnd(nodes, up, p, 0);
      assert IsPath(nodes, up, p[1..]);
      AvoidsLeaf(nodes, up, p[1..]);
    } else if u != leaf && v == leaf {
      LeafIsAnEnd(nodes, up, p, |p| - 1);
      assert IsPath(nodes, up, p[..|p| - 1]);
      AvoidsLeaf(nodes, up, p[..|p| - 1]);
    } else if u != leaf && v != leaf {
      if leaf in p {
        var k :| 0 <= k < |p| && p[k] == leaf;
        LeafIsAnEnd(nodes, up, p, k);
      }
      AvoidsLeaf(nodes, up, p);
    }
  }

  lemma SingleNode(nodes: seq<int>, up: seq<int>, p: seq<int>)
    requires Grown(nodes, up) && |nodes| == 1 && IsPath(nodes, up, p)
    ensures p == [nodes[0]]
  {
    assert p[0] == nodes[0] && p[|p| - 1] == nodes[0];
  }

  /** Two simple paths between the same nodes are the same path. */
  lemma {:induction false} PathIsUnique(nodes: seq<int>, up: seq<int>, p: seq<int>, q: seq<int>, u: int, v: int)
    requires Grown(nodes, up) && IsPath(nodes, up, p) && IsPath(nodes, up, q)
    requires Joins(p, u, v) && Joins(q, u, v)
    ensures p == q
    decreases |nodes|
  {
    hide IsPath;
    if |nodes| == 1 {
      SingleNode(nodes, up, p);
      SingleNode(nodes, up, q);
    } else {
      var n := |nodes| - 1;
      var leaf, twig := nodes[n], nodes[up[n]];
      TrimLeaf(nodes, up, p, u, v);
      TrimLeaf(nodes, up, q, u, v);
      if u == leaf && v != leaf {
        PathIsUnique(nodes[..n], up[..n], p[1..], q[1..], twig, v);
        assert p == [leaf] + p[1..] && q == [leaf] + q[1..];
      } else if u != leaf && v == leaf {
        PathIsUnique(nodes[..n], up[..n], p[..|p| - 1], q[..|q| - 1], u, twig);
        assert p == p[..|p| - 1] + [leaf] && q == q[..|q| - 1] + [leaf];
      } else if u != leaf && v != leaf {
        PathIsUnique(nodes[..n], up[..n], p, q, u, v);
      }
    }
  }

  lemma PathInLarger(nodes: seq<int>, up: seq<int>, p: seq<int>)
    requires Grown(nodes, up) && 2 <= |nodes|
    requires Grown(nodes[..|nodes| - 1], up[..|nodes| - 1]) && IsPath(nodes[..|nodes| - 1], up[..|nodes| - 1], p)
    ensures IsPath(nodes, up, p) && nodes[|nodes| - 1] !in p
  {
    DropLeaf(nodes, up);
  }

  lemma PathFromLeaf(nodes: seq<int>, up: seq<int>, x: int, p: seq<int>)
    requires Grown(nodes, up) && IsPath(nodes, up, p) && x in nodes && x !in p && Joined(nodes, up, x, p[0])
    ensures IsPath(nodes, up, [x] + p)
  {
    var q := [x] + p;
    assert forall i :: 1 <= i < |q| ==> q[i] == p[i - 1];
  }

  lemma PathToLeaf(nodes: seq<int>, up: seq<int>, x: int, p: seq<int>)
    requires Grown(nodes, up) && IsPath(nodes, up, p) && x in nodes && x !in p && Joined(nodes, up, p[|p| - 1], x)
    ensures IsPath(nodes, up, p + [x])
  {
  }

  /** Any two nodes are joined by a simple path. */
  lemma {:induction false} PathExists(nodes: seq<int>, up: seq<int>, u: int, v: int) returns (p: seq<int>)
    requires Grown(nodes, up) && u in nodes && v in nodes
    ensures IsPath(nodes, up, p) && Joins(p, u, v)
    decreases |nodes|
  {
    if u == v {
      p := [u];
    } else {
      hide IsPath;
      DropLeaf(nodes, up);
      var n := |nodes| - 1;
      var leaf, twig := nodes[n], nodes[up[n]];
      assert JoinedAt(nodes, up, leaf, twig, n) && JoinedAt(nodes, up, twig, leaf, n);
      p := PathExists(nodes[..n], up[..n], if u == leaf then twig else u, if v == leaf then twig else v);
      PathInLarger(nodes, up, p);
      if u == leaf {
        PathFromLeaf(nodes, up, leaf, p);
        p := [leaf] + p;
      } else if v == leaf {
        PathToLeaf(nodes, up, leaf, p);
        p := p + [leaf];
      }
    }
  }
}
