/**
 The maze generator (software/2dmaze/2dmaze.c), for any number of rows and columns.

 The random numbers are an arbitrary finite stream: the walk stops when it runs
 out of them, and the maze is complete when `count` has reached zero.
 */
module Maze {
  import opened GrowingTree
  import opened CDivision

  const MAX_DIRS := 4
  const BEEN_HERE: bv8 := 0x80

  function Row(rows: nat, sq: int): int
    requires rows > 0
  {
    Remainder(sq, rows)
  }

  function Col(rows: nat, sq: int): int
    requires rows > 0
  {
    Quotient(sq, rows)
  }

  /** DIR_NORTH, DIR_EAST, DIR_WEST, DIR_SOUTH are 0 to 3. */
  function Offset(rows: int, dir: int): int
    requires 0 <= dir < MAX_DIRS
  {
    if dir == 0 then -1 else if dir == 1 then rows else if dir == 2 then -rows else 1
  }

  /** `1 << dir` */
  function Bit(dir: int): bv8
    requires 0 <= dir < MAX_DIRS
  {
    if dir == 0 then 1 else if dir == 1 then 2 else if dir == 2 then 4 else 8
  }

  lemma BitsDouble(dir: int)
    requires 0 <= dir < MAX_DIRS - 1
    ensures Bit(0) == 1 && Bit(dir + 1) == 2 * Bit(dir)
  {
  }

  /** `grid[sq] += 1 << dir` */
  function OpenSide(x: bv8, dir: int): bv8
    requires 0 <= dir < MAX_DIRS
  {
    x + Bit(dir)
  }

  /** The test InitMaze makes before it steps from `sq` to `to`. */
  predicate MayStep(rows: nat, squares: int, sq: int, to: int)
    requires rows > 0
  {
    && (if Row(rows, sq) == Row(rows, to) then 1 else 0) + (if Col(rows, sq) == Col(rows, to) then 1 else 0) == 1
    && to >= 0 && to < squares
  }

  predicate Open(g: seq<bv8>, sq: int, dir: int)
    requires 0 <= sq < |g| && 0 <= dir < MAX_DIRS
  {
    g[sq] & Bit(dir) != 0
  }

  ghost predicate Passage(rows: nat, g: seq<bv8>, u: int, v: int) {
    && 0 <= u < |g|
    && exists dir :: 0 <= dir < MAX_DIRS && Open(g, u, dir) && v == u + Offset(rows, dir)
  }

  // ---------------------------------------------------------------------------
  // Geometry
  // ---------------------------------------------------------------------------

  /** Neighbouring squares of the grid: one step apart in exactly one coordinate. */
  predicate Adjacent(rows: nat, u: int, v: int)
    requires rows > 0
  {
    Abs(Row(rows, u) - Row(rows, v)) + Abs(Col(rows, u) - Col(rows, v)) == 1
  }

  lemma Division(rows: nat, sq: int)
    requires rows > 0 && 0 <= sq
    ensures 0 <= Row(rows, sq) < rows && sq == Col(rows, sq) * rows + Row(rows, sq)
  {
  }

  lemma DivisionUnique(rows: nat, sq: int, col: int, row: int)
    requires rows > 0 && 0 <= sq && 0 <= row < rows && sq == col * rows + row
    ensures Row(rows, sq) == row && Col(rows, sq) == col
  {
    Division(rows, sq);
    hide Row, Col;
    UniqueQuotient(rows, Col(rows, sq), Row(rows, sq), col, row);
  }

  lemma UniqueQuotient(d: nat, q: int, r: int, q': int, r': int)
    requires d > 0 && 0 <= r < d && 0 <= r' < d && q * d + r == q' * d + r'
    ensures q == q' && r == r'
  {
    if q > q' { MultipleStep(d, q, q'); }
    if q < q' { MultipleStep(d, q', q); }
  }

  lemma {:induction false} MultipleStep(d: nat, q: int, q': int)
    requires q > q'
    ensures q * d >= q' * d + d
    decreases q - q'
  {
    if q > q' + 1 { MultipleStep(d, q - 1, q'); }
  }

  /** The step test accepts exactly the neighbouring squares that lie on the grid. */
  lemma StepsAreAdjacent(rows: nat, squares: int, sq: int, dir: int)
    requires rows > 0 && 0 <= sq < squares && 0 <= dir < MAX_DIRS
    ensures var to := sq + Offset(rows, dir);
            MayStep(rows, squares, sq, to) <==> 0 <= to < squares && Adjacent(rows, sq, to)
  {
    var to := sq + Offset(rows, dir);
    if 0 <= to < squares {
      var c, r := Col(rows, sq), Row(rows, sq);
      Division(rows, sq);
      Division(rows, to);
      if dir == 1 {
        assert to == (c + 1) * rows + r;
        DivisionUnique(rows, to, c + 1, r);
      } else if dir == 2 {
        assert to == (c - 1) * rows + r;
        DivisionUnique(rows, to, c - 1, r);
      } else if dir == 0 {
        if r > 0 { DivisionUnique(rows, to, c, r - 1); } else { StepDown(rows, sq, to); }
      } else {
        if r < rows - 1 { DivisionUnique(rows, to, c, r + 1); } else { StepDown(rows, to, sq); }
      }
    }
  }

  /** DIR_NORTH goes up a row, DIR_SOUTH down one, DIR_EAST to the next column and DIR_WEST to the one before. */
  lemma DirectionsMean(rows: nat, sq: int)
    requires rows > 0 && 0 <= sq
    ensures var r, c := Row(rows, sq), Col(rows, sq);
            && (r > 0 ==> Row(rows, sq + Offset(rows, 0)) == r - 1 && Col(rows, sq + Offset(rows, 0)) == c)
            && (r < rows - 1 ==> Row(rows, sq + Offset(rows, 3)) == r + 1 && Col(rows, sq + Offset(rows, 3)) == c)
            && Row(rows, sq + Offset(rows, 1)) == r && Col(rows, sq + Offset(rows, 1)) == c + 1
            && (c > 0 ==> Row(rows, sq + Offset(rows, 2)) == r && Col(rows, sq + Offset(rows, 2)) == c - 1)
  {
    hide Row, Col;
    Division(rows, sq);
    ColumnsApart(rows, sq, Col(rows, sq), Row(rows, sq));
    RowsApart(rows, sq, Col(rows, sq), Row(rows, sq));
  }

  lemma RowsApart(rows: nat, sq: int, c: int, r: int)
    requires rows > 0 && 0 <= r < rows && 0 <= c && 0 <= sq == c * rows + r
    ensures r > 0 ==> Row(rows, sq - 1) == r - 1 && Col(rows, sq - 1) == c
    ensures r < rows - 1 ==> Row(rows, sq + 1) == r + 1 && Col(rows, sq + 1) == c
  {
    hide Row, Col;
    if r > 0 {
      WholeColumns(c, rows);
      DivisionUnique(rows, sq - 1, c, r - 1);
    }
    if r < rows - 1 { DivisionUnique(rows, sq + 1, c, r + 1); }
  }

  lemma ColumnsApart(rows: nat, sq: int, c: int, r: int)
    requires rows > 0 && 0 <= r < rows && 0 <= c && 0 <= sq == c * rows + r
    ensures Row(rows, sq + rows) == r && Col(rows, sq + rows) == c + 1
    ensures c > 0 ==> Row(rows, sq - rows) == r && Col(rows, sq - rows) == c - 1
  {
    hide Row, Col;
    assert (c + 1) * rows == c * rows + rows && (c - 1) * rows == c * rows - rows;
    WholeColumns(c, rows);
    DivisionUnique(rows, sq + rows, c + 1, r);
    if c > 0 {
      WholeColumns(c - 1, rows);
      DivisionUnique(rows, sq - rows, c - 1, r);
    }
  }

  lemma WholeColumns(c: int, rows: nat)
    requires c >= 0
    ensures c * rows >= 0
  {
  }

  /** Going up from the first row leaves the column. */
  lemma StepDown(rows: nat, hi: int, lo: int)
    requires rows > 0 && 0 <= lo && hi == lo + 1 && (Row(rows, hi) == 0 || Row(rows, lo) == rows - 1)
    ensures Row(rows, hi) == 0 && Row(rows, lo) == rows - 1 && Col(rows, hi) == Col(rows, lo) + 1
  {
    Division(rows, hi);
    Division(rows, lo);
    if Row(rows, hi) == 0 {
      assert lo == (Col(rows, hi) - 1) * rows + (rows - 1);
      DivisionUnique(rows, lo, Col(rows, hi) - 1, rows - 1);
    } else {
      assert hi == (Col(rows, lo) + 1) * rows;
      DivisionUnique(rows, hi, Col(rows, lo) + 1, 0);
    }
  }

  // ---------------------------------------------------------------------------
  // Carving
  // ---------------------------------------------------------------------------

  function OpenSides(x: bv8): nat {
    (if x & Bit(0) != 0 then 1 else 0) + (if x & Bit(1) != 0 then 1 else 0)
    + (if x & Bit(2) != 0 then 1 else 0) + (if x & Bit(3) != 0 then 1 else 0)
  }

  /** How many sides of squares are open; a passage opens two. */
  ghost function OpenCount(g: seq<bv8>): nat {
    if g == [] then 0 else OpenSides(g[0]) + OpenCount(g[1..])
  }

  lemma {:induction false} OpenCountUpdate(g: seq<bv8>, sq: nat, x: bv8)
    requires sq < |g|
    ensures OpenCount(g[sq := x]) == OpenCount(g) - OpenSides(g[sq]) + OpenSides(x)
  {
    if sq == 0 {
      assert g[sq := x][1..] == g[1..];
    } else {
      assert g[sq := x][1..] == g[1..][sq - 1 := x];
      OpenCountUpdate(g[1..], sq - 1, x);
    }
  }

  lemma {:induction false} OpenCountZero(g: seq<bv8>)
    requires forall i :: 0 <= i < |g| ==> g[i] == 0
    ensures OpenCount(g) == 0
  {
    if g != [] { OpenCountZero(g[1..]); }
  }

  /** Adding `1 << dir` to a square whose side `dir` is closed opens that side and no other. */
  lemma AddBit(x: bv8, dir: int)
    requires 0 <= dir < MAX_DIRS && x < 16 && x & Bit(dir) == 0
    ensures x + Bit(dir) < 16 && x + Bit(dir) != 0
    ensures forall e :: 0 <= e < MAX_DIRS ==> ((x + Bit(dir)) & Bit(e) != 0 <==> e == dir || x & Bit(e) != 0)
    ensures OpenSides(x + Bit(dir)) == OpenSides(x) + 1
  {
  }

  /** The opened passages are exactly the edges of a tree over the squares visited so far. */
  ghost predicate Carved(rows: nat, g: seq<bv8>, nodes: seq<int>, up: seq<int>) {
    && rows > 0 && Grown(nodes, up) && Squares(g, nodes)
    && (forall u, v :: Passage(rows, g, u, v) <==> Joined(nodes, up, u, v))
    && (forall u, v :: Joined(nodes, up, u, v) ==> Adjacent(rows, u, v))
    && OpenCount(g) == 2 * (|nodes| - 1)
  }

  function Carve(g: seq<bv8>, sq: int, dir: int, to: int): seq<bv8>
    requires 0 <= sq < |g| && 0 <= to < |g| && 0 <= dir < MAX_DIRS
  {
    var g1 := g[sq := OpenSide(g[sq], dir)];
    g1[to := OpenSide(g1[to], MAX_DIRS - 1 - dir)]
  }

  lemma CarveOpens(g: seq<bv8>, sq: int, dir: int, to: int, u: int, e: int)
    requires 0 <= sq < |g| && 0 <= to < |g| && 0 <= dir < MAX_DIRS && to != sq && 0 <= u < |g| && 0 <= e < MAX_DIRS
    requires g[sq] < 16 && g[to] == 0 && g[sq] & Bit(dir) == 0
    ensures Open(Carve(g, sq, dir, to), u, e)
       <==> Open(g, u, e) || (u == sq && e == dir) || (u == to && e == MAX_DIRS - 1 - dir)
  {
    AddBit(g[sq], dir);
    AddBit(0, MAX_DIRS - 1 - dir);
  }

  lemma CarvePassages(rows: nat, g: seq<bv8>, sq: int, dir: int, to: int, u: int, v: int)
    requires 0 <= sq < |g| && 0 <= to < |g| && 0 <= dir < MAX_DIRS && to == sq + Offset(rows, dir) && to != sq
    requires g[sq] < 16 && g[to] == 0 && g[sq] & Bit(dir) == 0
    ensures Passage(rows, Carve(g, sq, dir, to), u, v) <==>
              Passage(rows, g, u, v) || (u == sq && v == to) || (u == to && v == sq)
  {
    hide Open, Bit;
    var g' := Carve(g, sq, dir, to);
    assert to + Offset(rows, MAX_DIRS - 1 - dir) == sq;
    if 0 <= u < |g| {
      forall e | 0 <= e < MAX_DIRS
        ensures Open(g', u, e) <==> Open(g, u, e) || (u == sq && e == dir) || (u == to && e == MAX_DIRS - 1 - dir)
      {
        CarveOpens(g, sq, dir, to, u, e);
      }
      assert u == sq ==> Open(g', u, dir);
      assert u == to ==> Open(g', u, MAX_DIRS - 1 - dir);
      if Passage(rows, g, u, v) {
        var e :| 0 <= e < MAX_DIRS && Open(g, u, e) && v == u + Offset(rows, e);
        assert Open(g', u, e);
      }
    }
  }

  /** The part of `Carved` about single squares. */
  ghost predicate Squares(g: seq<bv8>, nodes: seq<int>) {
    && (forall u :: u in nodes ==> 0 <= u < |g|)
    && (forall u :: 0 <= u < |g| ==> g[u] < 16)
    && (forall u :: 0 <= u < |g| && u !in nodes ==> g[u] == 0)
    && (|nodes| > 1 ==> forall u :: u in nodes ==> g[u] != 0)
  }

  lemma CarveSquares(g: seq<bv8>, nodes: seq<int>, sq: int, dir: int, to: int)
    requires Squares(g, nodes) && sq in nodes && 0 <= to < |g| && to !in nodes && 0 <= dir < MAX_DIRS
    requires g[sq] & Bit(dir) == 0
    ensures Squares(Carve(g, sq, dir, to), nodes + [to])
  {
    AddBit(g[sq], dir);
    AddBit(0, MAX_DIRS - 1 - dir);
    hide Bit;
    var g' := Carve(g, sq, dir, to);
    assert |nodes| == 1 ==> forall u :: u in nodes ==> u == sq by {
      var i :| 0 <= i < |nodes| && nodes[i] == sq;
    }
  }

  lemma CarveTree(rows: nat, nodes: seq<int>, up: seq<int>, k: nat, to: int)
    requires Grown(nodes, up) && k < |nodes| && to !in nodes
    ensures var nodes', up' := nodes + [to], up + [k];
            && Grown(nodes', up')
            && forall u, v :: Joined(nodes', up', u, v) <==>
                 Joined(nodes, up, u, v) || (u == nodes[k] && v == to) || (u == to && v == nodes[k])
  {
    var nodes', up' := nodes + [to], up + [k];
    assert Grown(nodes', up');
    DropLeaf(nodes', up');
    assert nodes'[..|nodes|] == nodes && up'[..|nodes|] == up;
  }

  /** Opening a wall to an unvisited square adds one leaf to the tree. */
  lemma CarveGrows(rows: nat, g: seq<bv8>, nodes: seq<int>, up: seq<int>, k: nat, dir: int, to: int)
    requires Carved(rows, g, nodes, up) && k < |nodes| && 0 <= dir < MAX_DIRS
    requires 0 <= nodes[k] < |g| && to == nodes[k] + Offset(rows, dir)
    requires MayStep(rows, |g|, nodes[k], to) && to !in nodes
    ensures Carved(rows, Carve(g, nodes[k], dir, to), nodes + [to], up + [k])
  {
    hide Bit, Squares, Carve, Grown, Open, Passage, Offset, Row, Col, OpenCount, Joined, MayStep, Adjacent;
    var sq := nodes[k];
    StepFacts(rows, |g|, sq, dir, to);
    SideIsClosed(rows, g, nodes, up, sq, dir, to);
    var g', nodes', up' := Carve(g, sq, dir, to), nodes + [to], up + [k];
    CarveSquares(g, nodes, sq, dir, to);
    CarveTree(rows, nodes, up, k, to);
    CarveCounts(g, sq, dir, to);
    forall u, v
      ensures Passage(rows, g', u, v) <==> Joined(nodes', up', u, v)
    {
      CarvePassages(rows, g, sq, dir, to, u, v);
    }
  }

  lemma StepFacts(rows: nat, squares: int, sq: int, dir: int, to: int)
    requires rows > 0 && 0 <= sq < squares && 0 <= dir < MAX_DIRS
    requires to == sq + Offset(rows, dir) && MayStep(rows, squares, sq, to)
    ensures 0 <= to < squares && Adjacent(rows, sq, to) && Adjacent(rows, to, sq)
  {
    StepsAreAdjacent(rows, squares, sq, dir);
  }

  lemma SideIsClosed(rows: nat, g: seq<bv8>, nodes: seq<int>, up: seq<int>, sq: int, dir: int, to: int)
    requires Carved(rows, g, nodes, up) && sq in nodes && 0 <= dir < MAX_DIRS
    requires to == sq + Offset(rows, dir) && 0 <= to < |g| && to !in nodes
    ensures g[sq] & Bit(dir) == 0 && g[sq] < 16 && g[to] == 0 && to != sq
  {
    assert !Joined(nodes, up, sq, to);
    assert !Passage(rows, g, sq, to);
    assert !Open(g, sq, dir);
  }

  lemma CarveCounts(g: seq<bv8>, sq: int, dir: int, to: int)
    requires 0 <= sq < |g| && 0 <= to < |g| && 0 <= dir < MAX_DIRS && to != sq
    requires g[sq] < 16 && g[to] == 0 && g[sq] & Bit(dir) == 0
    ensures OpenCount(Carve(g, sq, dir, to)) == OpenCount(g) + 2
  {
    AddBit(g[sq], dir);
    AddBit(0, MAX_DIRS - 1 - dir);
    var g1 := g[sq := g[sq] + Bit(dir)];
    OpenCountUpdate(g, sq, g[sq] + Bit(dir));
    OpenCountUpdate(g1, to, g1[to] + Bit(MAX_DIRS - 1 - dir));
  }

  lemma EmptyGridIsCarved(rows: nat, g: seq<bv8>, start: int)
    requires rows > 0 && 0 <= start < |g| && forall i :: 0 <= i < |g| ==> g[i] == 0
    ensures Carved(rows, g, [start], [0])
  {
    OpenCountZero(g);
    assert forall u, v :: !Passage(rows, g, u, v);
  }

  // ---------------------------------------------------------------------------
  // The program
  // ---------------------------------------------------------------------------

  /** Every square visited: the opened passages are the edges of a spanning tree. */
  ghost predicate SpanningTree(rows: nat, g: seq<bv8>, nodes: seq<int>, up: seq<int>) {
    Carved(rows, g, nodes, up) && |nodes| == |g|
  }

  /** Distinct squares below `n`: at most `n` of them, and if there are `n`, every square is among them. */
  lemma {:induction false} AllVisited(nodes: seq<int>, n: nat)
    requires forall i, j :: 0 <= i < j < |nodes| ==> nodes[i] != nodes[j]
    requires forall i :: 0 <= i < |nodes| ==> 0 <= nodes[i] < n
    ensures |nodes| <= n
    ensures |nodes| == n ==> forall u :: 0 <= u < n ==> u in nodes
  {
    if nodes != [] {
      assert 0 <= nodes[0] < n;
      if n - 1 in nodes {
        var i :| 0 <= i < |nodes| && nodes[i] == n - 1;
        var rest := nodes[..i] + nodes[i + 1..];
        assert forall j :: 0 <= j < |rest| ==> rest[j] == nodes[if j < i then j else j + 1];
        AllVisited(rest, n - 1);
        assert forall u :: u in rest ==> u in nodes;
      } else {
        AllVisited(nodes, n - 1);
      }
    }
  }

  /**
   A finished maze, in its own terms: walls open from both sides, every passage
   joins two neighbouring squares of the grid, there are `squares - 1` passages, and
   exactly one simple path joins any two squares.
   */
  lemma FinishedMaze(rows: nat, g: seq<bv8>, nodes: seq<int>, up: seq<int>, u: int, v: int) returns (p: seq<int>)
    requires SpanningTree(rows, g, nodes, up) && 0 <= u < |g| && 0 <= v < |g|
    ensures Passage(rows, g, u, v) <==> Passage(rows, g, v, u)
    ensures Passage(rows, g, u, v) ==> Adjacent(rows, u, v)
    ensures OpenCount(g) == 2 * (|g| - 1)
    ensures MazePath(rows, g, p, u, v)
    ensures forall q :: MazePath(rows, g, q, u, v) ==> q == p
  {
    AllVisited(nodes, |g|) by {
      assert forall i :: 0 <= i < |nodes| ==> nodes[i] in nodes;
    }
    JoinedSymmetric(nodes, up, u, v);
    p := PathExists(nodes, up, u, v);
    forall q | MazePath(rows, g, q, u, v)
      ensures q == p
    {
      assert IsPath(nodes, up, q);
      PathIsUnique(nodes, up, p, q, u, v);
    }
  }

  ghost predicate MazePath(rows: nat, g: seq<bv8>, p: seq<int>, u: int, v: int) {
    && Joins(p, u, v)
    && (forall i :: 0 <= i < |p| ==> 0 <= p[i] < |g|)
    && (forall i :: 0 <= i < |p| - 1 ==> Passage(rows, g, p[i], p[i + 1]))
    && (forall i, j :: 0 <= i < j < |p| ==> p[i] != p[j])
  }

  /** GetRandomSquare and GetRandomDir */
  function Random(r: nat, n: nat): (x: nat)
    requires n > 0
    ensures x < n
  {
    r % n
  }

  /** The inner do-while loop: the first visited square among the random ones, and the numbers left. */
  function JumpTo(g: seq<bv8>, sq: int, rand: seq<nat>): (int, seq<nat>)
    requires g != []
  {
    if rand == [] then (sq, [])
    else
      var candidate := Random(rand[0], |g|);
      if g[candidate] != 0 then (candidate, rand[1..]) else JumpTo(g, sq, rand[1..])
  }

  lemma {:induction false} JumpLands(g: seq<bv8>, sq: int, rand: seq<nat>)
    requires g != [] && 0 <= sq < |g|
    ensures var (to, rest) := JumpTo(g, sq, rand); 0 <= to < |g| && |rest| <= |rand| && (to == sq || g[to] != 0)
  {
    if rand != [] { JumpLands(g, sq, rand[1..]); }
  }

  /** The main loop of InitMaze from a square: the grid it leaves, and how many squares it did not reach. */
  function Wander(rows: nat, g: seq<bv8>, sq: int, count: nat, rand: seq<nat>): (seq<bv8>, nat)
    requires rows > 0 && 0 <= sq < |g|
    decreases |rand|
  {
    if count == 0 || |rand| < 3 then (g, count)
    else
      var dir := Random(rand[0], MAX_DIRS);
      var to := sq + Offset(rows, dir);
      if !MayStep(rows, |g|, sq, to) then Wander(rows, g, sq, count, rand[1..])
      else if g[to] == 0 then Wander(rows, Carve(g, sq, dir, to), to, count - 1, rand[1..])
      else if 6 * rand[1] < rand[2] then
        JumpLands(g, sq, rand[3..]);
        var (sq', rest) := JumpTo(g, sq, rand[3..]);
        Wander(rows, g, sq', count, rest)
      else Wander(rows, g, sq, count, rand[3..])
  }

  class Grid {
    const rows: nat
    const squares: nat
    const grid: array<bv8>

    constructor (rows: nat, cols: nat)
      requires rows > 0 && cols > 0
      ensures this.rows == rows && squares == rows * cols && grid.Length == squares && fresh(grid)
    {
      this.rows, this.squares := rows, rows * cols;
      grid := new bv8[rows * cols];
    }

    ghost predicate Valid() { rows > 0 && squares > 0 && grid.Length == squares }

    /** InitMaze: a random walk that opens a wall whenever it meets a square it has not been to. */
    method InitMaze(rand: seq<nat>) returns (done: bool, ghost nodes: seq<int>, ghost up: seq<int>)
      requires Valid() && rand != []
      modifies grid
      ensures Carved(rows, grid[..], nodes, up)
      ensures done ==> SpanningTree(rows, grid[..], nodes, up)
      ensures var (g, left) := Wander(rows, Blank(squares), Random(rand[0], squares), squares - 1, rand[1..]);
              grid[..] == g && (done <==> left == 0)
    {
      hide Carved, Random, Row, Col, Bit, Offset, Carve;
      for i := 0 to squares
        invariant forall j :: 0 <= j < i ==> grid[j] == 0
      {
        grid[i] := 0;
      }
      var sq, pos, count := Random(rand[0], squares), 1, squares - 1;
      nodes, up := [sq], [0];
      EmptyGridIsCarved(rows, grid[..], sq);
      assert grid[..] == Blank(squares);
      ghost var run := Wander(rows, grid[..], sq, count, rand[1..]);
      while count > 0 && pos + 3 <= |rand|
        invariant Carved(rows, grid[..], nodes, up)
        invariant count == squares - |nodes| >= 0 && sq in nodes && 0 <= sq < squares
        invariant 1 <= pos <= |rand| && run == Wander(rows, grid[..], sq, count, rand[pos..])
        decreases |rand| - pos
      {
        ghost var rest := rand[pos..];
        assert rest[1..] == rand[pos + 1..] && rest[3..] == rand[pos + 3..];
        AtMostAll(rows, grid[..], nodes, up);
        var dir := Random(rand[pos], MAX_DIRS);
        pos := pos + 1;
        var to := sq + Offset(rows, dir);
        if MayStep(rows, squares, sq, to) {
          if grid[to] == 0 {
            ghost var g, k := grid[..], Position(nodes, sq);
            assert to !in nodes by { Unvisited(rows, g, nodes, up, sq, dir, to); }
            OpenWall(sq, dir, to);
            CarveGrows(rows, g, nodes, up, k, dir, to);
            nodes, up := nodes + [to], up + [k];
            sq, count := to, count - 1;
          } else {
            var r1, r2 := rand[pos], rand[pos + 1];
            pos := pos + 2;
            if 6 * r1 < r2 {
              sq, pos := Jump(rand, pos, sq, nodes, up);
            }
          }
        }
      }
      done := count == 0;
    }

    /** Make an opening: from `sq` towards `to`, and back from `to`. */
    method OpenWall(sq: int, dir: int, to: int)
      requires Valid() && 0 <= sq < squares && 0 <= to < squares && 0 <= dir < MAX_DIRS
      modifies grid
      ensures grid[..] == Carve(old(grid[..]), sq, dir, to)
    {
      hide OpenSide;
      ghost var g := grid[..];
      grid[sq] := OpenSide(grid[sq], dir);
      assert grid[..] == g[sq := OpenSide(g[sq], dir)];
      grid[to] := OpenSide(grid[to], MAX_DIRS - 1 - dir);
    }

    /** The inner do-while loop: pick squares until one has been visited (or the random numbers run out). */
    method Jump(rand: seq<nat>, pos0: nat, sq0: int, ghost nodes: seq<int>, ghost up: seq<int>) returns (sq: int,
                pos: nat)
      requires Valid() && Carved(rows, grid[..], nodes, up) && pos0 <= |rand|
      requires sq0 in nodes && 0 <= sq0 < squares
      ensures pos0 <= pos <= |rand| && sq in nodes && 0 <= sq < squares
      ensures JumpTo(grid[..], sq0, rand[pos0..]) == (sq, rand[pos..])
    {
      hide Random, Carved;
      sq, pos := sq0, pos0;
      while pos < |rand|
        invariant pos0 <= pos <= |rand| && sq == sq0
        invariant JumpTo(grid[..], sq0, rand[pos0..]) == JumpTo(grid[..], sq0, rand[pos..])
        decreases |rand| - pos
      {
        assert rand[pos..][1..] == rand[pos + 1..];
        var candidate := Random(rand[pos], squares);
        pos := pos + 1;
        if grid[candidate] != 0 {
          VisitedIsNode(rows, grid[..], nodes, up, candidate);
          return candidate, pos;
        }
      }
    }

    /**
     The game loop of main: mark the square, read a key, follow the arrow when the wall is
     open. The trail is the start in the last square and one square more for every arrow
     typed before Quit.
     */
    method Play(keys: seq<Key>, ghost maze: seq<bv8>, ghost nodes: seq<int>, ghost up: seq<int>)
      returns (sq: int, trail: seq<int>)
      requires Valid() && SpanningTree(rows, maze, nodes, up) && SameWalls(maze, grid[..])
      modifies grid
      ensures SameWalls(maze, grid[..])
      ensures Followed(rows, maze, trail, Arrows(keys)) && trail[0] == squares - 1
      ensures sq == if Quit in keys then -1 else trail[|trail| - 1]
      ensures Seen(old(grid[..]), grid[..], trail, if Quit in keys then |trail| else |trail| - 1)
    {
      hide SpanningTree, Passage, SameWalls, Moves, Playing, Seen, Followed, Arrows;
      WallsEverywhere(maze, grid[..]);
      sq, trail := squares - 1, [squares - 1];
      ghost var g := grid[..];
      StartOfTrail(rows, maze, g);
      var n := 0;
      assert keys[..0] == [];
      while n < |keys| && sq >= 0
        invariant n <= |keys| && sq < squares && Playing(rows, maze, g, grid[..], keys[..n], trail, sq)
      {
        assert keys[..n + 1] == keys[..n] + [keys[n]];
        sq, trail := TypeKey(keys[n], sq, trail, maze, nodes, up, g, keys[..n]);
        n := n + 1;
      }
      PlayingMeans(rows, maze, g, grid[..], keys[..n], trail, sq);
      KeysAfterQuit(keys, n);
    }

    /** One round of the loop */
    method TypeKey(key: Key, sq: int, trail: seq<int>, ghost maze: seq<bv8>, ghost nodes: seq<int>, ghost up: seq<int>,
                   ghost g0: seq<bv8>, ghost before: seq<Key>) returns (to: int, trail': seq<int>)
      requires Valid() && SpanningTree(rows, maze, nodes, up) && 0 <= sq < squares
      requires Playing(rows, maze, g0, grid[..], before, trail, sq)
      modifies grid
      ensures Playing(rows, maze, g0, grid[..], before + [key], trail', to) && to < squares
    {
      hide SpanningTree, Passage, SameWalls, Moves, Playing, Seen, Followed, Arrows;
      PlayingMeans(rows, maze, g0, grid[..], before, trail, sq);
      ghost var was := grid[..];
      WallsEverywhere(maze, was);
      MarkVisited(sq, maze);
      to, trail' := sq, trail;
      match key {
        case Arrow(dir) =>
          to := Follow(sq, dir, maze, nodes, up);
          ArrowTyped(rows, maze, g0, was, before, trail, sq, dir, to);
          trail' := trail + [to];
        case Quit =>
          QuitTyped(rows, maze, g0, was, before, trail, sq);
          to := -1;
        case Other =>
          OtherTyped(rows, maze, g0, was, before, trail, sq);
      }
    }

    /** What an arrow key does */
    method Follow(sq: int, dir: Dir, ghost maze: seq<bv8>, ghost nodes: seq<int>, ghost up: seq<int>)
      returns (to: int)
      requires Valid() && SpanningTree(rows, maze, nodes, up) && SameWalls(maze, grid[..]) && 0 <= sq < squares
      ensures 0 <= to < squares && Moves(rows, maze, sq, dir, to)
    {
      WallsEverywhere(maze, grid[..]);
      hide SpanningTree, Passage, SameWalls, Bit, Offset, Moves;
      SameSide(rows, maze, grid[..], sq, dir);
      to := sq;
      if grid[sq] & Bit(dir) != 0 {
        OpenWallLeads(rows, maze, grid[..], nodes, up, sq, dir);
        to := sq + Offset(rows, dir);
      }
    }

    /** `grid[curSq] |= BEEN_HERE` */
    method MarkVisited(sq: int, ghost maze: seq<bv8>)
      requires Valid() && 0 <= sq < squares && SameWalls(maze, grid[..])
      modifies grid
      ensures SameWalls(maze, grid[..]) && grid[..] == old(grid[..])[sq := old(grid[..])[sq] | BEEN_HERE]
    {
      ghost var g := grid[..];
      var marked := grid[sq] | BEEN_HERE;
      grid[sq] := marked;
      MarkKeepsWalls(g[sq]);
      assert grid[..] == g[sq := marked];
    }
  }

  /** What the player types: an arrow key, the quit key, or anything else. */
  datatype Key = Arrow(dir: Dir) | Quit | Other

  type Dir = d: int | 0 <= d < MAX_DIRS

  /** The arrows typed before Quit */
  function Arrows(keys: seq<Key>): seq<Dir> {
    if keys == [] then []
    else
      var before, key := keys[..|keys| - 1], keys[|keys| - 1];
      Arrows(before) + if key.Arrow? && Quit !in before then [key.dir] else []
  }

  /**
   What an arrow does: a step in its direction where that side of the square is open, and
   nothing where it is closed.
   */
  predicate Moves(rows: nat, maze: seq<bv8>, sq: int, dir: int, to: int) {
    0 <= sq < |maze| && 0 <= dir < MAX_DIRS && to == if Open(maze, sq, dir) then sq + Offset(rows, dir) else sq
  }

  lemma NextKey(keys: seq<Key>, key: Key)
    ensures Quit in keys + [key] <==> Quit in keys || key == Quit
    ensures Arrows(keys + [key]) == Arrows(keys) + if key.Arrow? && Quit !in keys then [key.dir] else []
  {
    assert (keys + [key])[..|keys + [key]| - 1] == keys;
  }

  lemma {:induction false} KeysAfterQuit(keys: seq<Key>, n: nat)
    requires n <= |keys| && (n == |keys| || Quit in keys[..n])
    ensures Arrows(keys) == Arrows(keys[..n]) && (Quit in keys <==> Quit in keys[..n])
    decreases |keys| - n
  {
    if n == |keys| {
      assert keys[..n] == keys;
    } else {
      NextKey(keys[..n], keys[n]);
      assert keys[..n + 1] == keys[..n] + [keys[n]];
      KeysAfterQuit(keys, n + 1);
    }
  }

  /** The trail of these arrows: each leads from one square of the grid to the next. */
  predicate Followed(rows: nat, maze: seq<bv8>, trail: seq<int>, arrows: seq<Dir>) {
    && |trail| == |arrows| + 1 && (forall i :: 0 <= i < |trail| ==> 0 <= trail[i] < |maze|)
    && forall i :: 0 <= i < |arrows| ==> Moves(rows, maze, trail[i], arrows[i], trail[i + 1])
  }

  /** No square is marked but those of the trail, and its first n are. */
  predicate Seen(g0: seq<bv8>, g: seq<bv8>, trail: seq<int>, n: nat) {
    && |g| == |g0| && n <= |trail|
    && (forall u :: 0 <= u < |g| ==> g[u] == g0[u] || (u in trail && g[u] == g0[u] | BEEN_HERE))
    && forall i :: 0 <= i < n ==> 0 <= trail[i] < |g| && g[trail[i]] & BEEN_HERE != 0
  }

  lemma NothingSeen(g: seq<bv8>, trail: seq<int>)
    ensures Seen(g, g, trail, 0)
  {
  }

  lemma MarkShows(x: bv8)
    ensures (x | BEEN_HERE) & BEEN_HERE != 0 && (x | BEEN_HERE) | BEEN_HERE == x | BEEN_HERE
  {
  }

  lemma SeenHere(g0: seq<bv8>, g: seq<bv8>, trail: seq<int>)
    requires trail != [] && 0 <= trail[|trail| - 1] < |g| && Seen(g0, g, trail, |trail| - 1)
    ensures var sq := trail[|trail| - 1]; Seen(g0, g[sq := g[sq] | BEEN_HERE], trail, |trail|)
  {
    MarkShows(g[trail[|trail| - 1]]);
    MarkShows(g0[trail[|trail| - 1]]);
  }

  lemma SeenFewer(g0: seq<bv8>, g: seq<bv8>, trail: seq<int>)
    requires trail != [] && Seen(g0, g, trail, |trail|)
    ensures Seen(g0, g, trail, |trail| - 1)
  {
  }

  lemma SeenBefore(g0: seq<bv8>, g: seq<bv8>, trail: seq<int>, to: int)
    requires Seen(g0, g, trail, |trail|)
    ensures Seen(g0, g, trail + [to], |trail|)
  {
  }

  lemma WallsEverywhere(maze: seq<bv8>, g: seq<bv8>)
    requires SameWalls(maze, g)
    ensures |maze| == |g|
  {
  }

  /** The game after the keys given, with the player at `sq` and the grid as `g`. */
  ghost predicate Playing(rows: nat, maze: seq<bv8>, g0: seq<bv8>, g: seq<bv8>, keys: seq<Key>, trail: seq<int>,
                          sq: int) {
    && SameWalls(maze, g) && Followed(rows, maze, trail, Arrows(keys)) && trail[0] == |maze| - 1
    && sq == (if Quit in keys then -1 else trail[|trail| - 1])
    && Seen(g0, g, trail, if Quit in keys then |trail| else |trail| - 1)
  }

  lemma PlayingMeans(rows: nat, maze: seq<bv8>, g0: seq<bv8>, g: seq<bv8>, keys: seq<Key>, trail: seq<int>, sq: int)
    requires Playing(rows, maze, g0, g, keys, trail, sq)
    ensures SameWalls(maze, g) && -1 <= sq < |maze| && (sq < 0 <==> Quit in keys)
    ensures Followed(rows, maze, trail, Arrows(keys)) && trail[0] == |maze| - 1
    ensures sq == if Quit in keys then -1 else trail[|trail| - 1]
    ensures Seen(g0, g, trail, if Quit in keys then |trail| else |trail| - 1)
  {
    hide Moves, Arrows, Seen, SameWalls;
  }

  lemma StartOfTrail(rows: nat, maze: seq<bv8>, g: seq<bv8>)
    requires maze != [] && SameWalls(maze, g)
    ensures Playing(rows, maze, g, g, [], [|maze| - 1], |maze| - 1)
  {
    NothingSeen(g, [|maze| - 1]);
  }

  lemma ArrowTyped(rows: nat, maze: seq<bv8>, g0: seq<bv8>, g: seq<bv8>, keys: seq<Key>, trail: seq<int>, sq: int,
                   dir: Dir, to: int)
    requires Playing(rows, maze, g0, g, keys, trail, sq) && 0 <= sq < |g| && SameWalls(maze, g[sq := g[sq] | BEEN_HERE])
    requires Moves(rows, maze, sq, dir, to) && 0 <= to < |maze|
    ensures Playing(rows, maze, g0, g[sq := g[sq] | BEEN_HERE], keys + [Arrow(dir)], trail + [to], to)
  {
    hide Moves, Arrows, Seen, SameWalls;
    NextKey(keys, Arrow(dir));
    SeenHere(g0, g, trail);
    SeenBefore(g0, g[sq := g[sq] | BEEN_HERE], trail, to);
  }

  lemma QuitTyped(rows: nat, maze: seq<bv8>, g0: seq<bv8>, g: seq<bv8>, keys: seq<Key>, trail: seq<int>, sq: int)
    requires Playing(rows, maze, g0, g, keys, trail, sq) && 0 <= sq < |g| && SameWalls(maze, g[sq := g[sq] | BEEN_HERE])
    ensures Playing(rows, maze, g0, g[sq := g[sq] | BEEN_HERE], keys + [Quit], trail, -1)
  {
    hide Moves, Arrows, Seen, SameWalls;
    NextKey(keys, Quit);
    SeenHere(g0, g, trail);
  }

  lemma OtherTyped(rows: nat, maze: seq<bv8>, g0: seq<bv8>, g: seq<bv8>, keys: seq<Key>, trail: seq<int>, sq: int)
    requires Playing(rows, maze, g0, g, keys, trail, sq) && 0 <= sq < |g| && SameWalls(maze, g[sq := g[sq] | BEEN_HERE])
    ensures Playing(rows, maze, g0, g[sq := g[sq] | BEEN_HERE], keys + [Other], trail, sq)
  {
    hide Moves, Arrows, Seen, SameWalls;
    NextKey(keys, Other);
    SeenHere(g0, g, trail);
    SeenFewer(g0, g[sq := g[sq] | BEEN_HERE], trail);
  }

  lemma SameSide(rows: nat, maze: seq<bv8>, g: seq<bv8>, sq: int, dir: int)
    requires SameWalls(maze, g) && 0 <= sq < |g| && 0 <= dir < MAX_DIRS
    ensures g[sq] & Bit(dir) != 0 ==> Moves(rows, maze, sq, dir, sq + Offset(rows, dir))
    ensures g[sq] & Bit(dir) == 0 ==> Moves(rows, maze, sq, dir, sq)
  {
    LowSide(maze[sq], g[sq], dir);
  }

  /** The two grids have the same open sides, whatever squares are marked as visited. */
  ghost predicate SameWalls(g: seq<bv8>, h: seq<bv8>) {
    |g| == |h| && forall u :: 0 <= u < |g| ==> h[u] & 0x0f == g[u]
  }

  lemma MarkKeepsWalls(x: bv8)
    ensures (x | BEEN_HERE) & 0x0f == x & 0x0f
  {
  }

  lemma LowSide(x: bv8, y: bv8, dir: int)
    requires 0 <= dir < MAX_DIRS && y & 0x0f == x
    ensures y & Bit(dir) == x & Bit(dir)
  {
  }

  /** An open side leads to a square of the grid. */
  lemma OpenWallLeads(rows: nat, g: seq<bv8>, h: seq<bv8>, nodes: seq<int>, up: seq<int>, sq: int, dir: int)
    requires SpanningTree(rows, g, nodes, up) && SameWalls(g, h) && 0 <= sq < |g| && 0 <= dir < MAX_DIRS
    requires h[sq] & Bit(dir) != 0
    ensures 0 <= sq + Offset(rows, dir) < |g| && Passage(rows, g, sq, sq + Offset(rows, dir))
  {
    LowSide(g[sq], h[sq], dir);
    assert Open(g, sq, dir);
    var to := sq + Offset(rows, dir);
    assert Joined(nodes, up, sq, to);
    var i :| 1 <= i < |nodes| && JoinedAt(nodes, up, sq, to, i);
    assert nodes[i] in nodes && nodes[up[i]] in nodes;
  }

  function Blank(squares: nat): seq<bv8> { seq(squares, _ => 0) }

  lemma VisitedIsNode(rows: nat, g: seq<bv8>, nodes: seq<int>, up: seq<int>, sq: int)
    requires Carved(rows, g, nodes, up) && 0 <= sq < |g| && g[sq] != 0
    ensures sq in nodes
  {
  }

  lemma AtMostAll(rows: nat, g: seq<bv8>, nodes: seq<int>, up: seq<int>)
    requires Carved(rows, g, nodes, up)
    ensures |nodes| <= |g|
  {
    AllVisited(nodes, |g|) by {
      assert forall i :: 0 <= i < |nodes| ==> nodes[i] in nodes;
    }
  }

  ghost function Position(nodes: seq<int>, x: int): (k: nat)
    requires x in nodes
    ensures k < |nodes| && nodes[k] == x
  {
    var i :| 0 <= i < |nodes| && nodes[i] == x; i
  }

  lemma Unvisited(rows: nat, g: seq<bv8>, nodes: seq<int>, up: seq<int>, sq: int, dir: int, to: int)
    requires Carved(rows, g, nodes, up) && sq in nodes && 0 <= dir < MAX_DIRS && to == sq + Offset(rows, dir)
    requires 0 <= to < |g| && g[to] == 0
    ensures to !in nodes
  {
    assert |nodes| == 1 ==> nodes[0] == sq;
  }
}
