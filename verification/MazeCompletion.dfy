/**
 Whether the maze generator (software/2dmaze/2dmaze.c, InitMaze) can finish: whatever
 random numbers came so far, some continuation of them completes the maze.
 */
module MazeCompletion {
  import opened GrowingTree
  import opened Maze

  // ---------------------------------------------------------------------------
  // The grid is connected
  // ---------------------------------------------------------------------------

  /** The direction towards a neighbour with a smaller number: north, or west from the first row. */
  function Back(rows: nat, sq: int): int
    requires rows > 0
  {
    if Row(rows, sq) > 0 then 0 else 2
  }

  function Parent(rows: nat, sq: int): int
    requires rows > 0
  {
    sq + Offset(rows, Back(rows, sq))
  }

  lemma ParentIsStep(rows: nat, squares: int, sq: int)
    requires rows > 0 && 0 < sq < squares
    ensures var p := Parent(rows, sq);
            && 0 <= p < sq && MayStep(rows, squares, sq, p) && MayStep(rows, squares, p, sq)
            && sq == p + Offset(rows, MAX_DIRS - 1 - Back(rows, sq))
  {
    var c, r := Col(rows, sq), Row(rows, sq);
    Division(rows, sq);
    if r > 0 {
      DivisionUnique(rows, sq - 1, c, r - 1);
    } else {
      assert c > 0;
      assert sq - rows == (c - 1) * rows + 0;
      FirstColumn(rows, c - 1);
      DivisionUnique(rows, sq - rows, c - 1, 0);
    }
  }

  lemma FirstColumn(rows: nat, c: int)
    requires c >= 0
    ensures c * rows >= 0
  {
  }

  /** Square 1 can be reached from square 0. */
  lemma SecondSquare(rows: nat, squares: int)
    requires rows > 0 && squares > 1
    ensures MayStep(rows, squares, 0, 1)
  {
    ParentIsStep(rows, squares, 1);
  }

  /** A step from a visited square to one that is not */
  ghost predicate Frontier(rows: nat, squares: int, nodes: seq<int>, sq: int, dir: int) {
    && rows > 0 && 0 <= dir < MAX_DIRS && sq in nodes && 0 <= sq < squares
    && MayStep(rows, squares, sq, sq + Offset(rows, dir)) && sq + Offset(rows, dir) !in nodes
  }

  lemma {:induction false} FrontierBelow(rows: nat, squares: int, nodes: seq<int>, sq: int) returns (a: int, dir: int)
    requires rows > 0 && 0 <= sq < squares && sq in nodes && 0 !in nodes
    ensures Frontier(rows, squares, nodes, a, dir)
    decreases sq
  {
    ParentIsStep(rows, squares, sq);
    hide MayStep, Row;
    var p := Parent(rows, sq);
    if p in nodes {
      a, dir := FrontierBelow(rows, squares, nodes, p);
    } else {
      a, dir := sq, Back(rows, sq);
    }
  }

  lemma {:induction false} FrontierAbove(rows: nat, squares: int, nodes: seq<int>, sq: int) returns (a: int, dir: int)
    requires rows > 0 && 0 <= sq < squares && sq !in nodes && 0 in nodes
    ensures Frontier(rows, squares, nodes, a, dir)
    decreases sq
  {
    ParentIsStep(rows, squares, sq);
    hide MayStep, Row;
    var p := Parent(rows, sq);
    if p in nodes {
      a, dir := p, MAX_DIRS - 1 - Back(rows, sq);
    } else {
      a, dir := FrontierAbove(rows, squares, nodes, p);
    }
  }

  lemma {:induction false} SomeUnvisited(nodes: seq<int>, n: nat) returns (u: int)
    requires |nodes| < n
    ensures 0 <= u < n && u !in nodes
  {
    if n - 1 in nodes {
      var i :| 0 <= i < |nodes| && nodes[i] == n - 1;
      var rest := nodes[..i] + nodes[i + 1..];
      u := SomeUnvisited(rest, n - 1);
      assert forall j :: 0 <= j < |nodes| && nodes[j] != n - 1 ==> nodes[j] in rest by {
        forall j | 0 <= j < |nodes| && nodes[j] != n - 1
          ensures nodes[j] in rest
        {
          assert nodes[j] == rest[if j < i then j else j - 1];
        }
      }
    } else {
      u := n - 1;
    }
  }

  lemma FindFrontier(rows: nat, squares: nat, nodes: seq<int>) returns (a: int, dir: int)
    requires rows > 0 && 0 < |nodes| < squares && forall u :: u in nodes ==> 0 <= u < squares
    ensures Frontier(rows, squares, nodes, a, dir)
  {
    if 0 in nodes {
      var u := SomeUnvisited(nodes, squares);
      a, dir := FrontierAbove(rows, squares, nodes, u);
    } else {
      assert nodes[0] in nodes;
      a, dir := FrontierBelow(rows, squares, nodes, nodes[0]);
    }
  }

  lemma SomeStep(rows: nat, squares: nat, sq: int) returns (dir: int)
    requires rows > 0 && squares > 1 && 0 <= sq < squares
    ensures 0 <= dir < MAX_DIRS && MayStep(rows, squares, sq, sq + Offset(rows, dir))
  {
    if sq == 0 {
      SecondSquare(rows, squares);
      dir := 3;
    } else {
      ParentIsStep(rows, squares, sq);
      dir := Back(rows, sq);
    }
  }

  // ---------------------------------------------------------------------------
  // Streams that finish
  // ---------------------------------------------------------------------------

  /** The stream completes the maze, whatever comes after it. */
  ghost predicate Finishes(rows: nat, g: seq<bv8>, sq: int, count: nat, rand: seq<nat>)
    requires rows > 0 && 0 <= sq < |g|
  {
    |rand| >= 2 && forall more: seq<nat> :: Wander(rows, g, sq, count, rand + more).1 == 0
  }

  /** A state of the walk */
  ghost predicate Walking(rows: nat, g: seq<bv8>, nodes: seq<int>, up: seq<int>, sq: int) {
    Carved(rows, g, nodes, up) && rows > 0 && sq in nodes && 0 <= sq < |g| && 0 < |nodes| <= |g|
  }

  lemma WalkingFacts(rows: nat, g: seq<bv8>, nodes: seq<int>, up: seq<int>, sq: int)
    requires Walking(rows, g, nodes, up, sq)
    ensures forall u :: u in nodes ==> 0 <= u < |g|
    ensures |nodes| > 1 ==> forall u :: u in nodes ==> g[u] != 0
  {
  }

  /** After a step that opens a wall, or through a jump, the walk is where it would be. */
  lemma CarveStep(rows: nat, g: seq<bv8>, nodes: seq<int>, up: seq<int>, sq: int, dir: int)
    requires Walking(rows, g, nodes, up, sq) && 0 <= dir < MAX_DIRS
    requires MayStep(rows, |g|, sq, sq + Offset(rows, dir)) && g[sq + Offset(rows, dir)] == 0
    ensures var to := sq + Offset(rows, dir);
            to !in nodes && |nodes| < |g| && Walking(rows, Carve(g, sq, dir, to), nodes + [to],
                up + [Position(nodes, sq)], to)
  {
    hide Carved, Offset, Row, Col, Carve, MayStep;
    var to := sq + Offset(rows, dir);
    MayStepOnGrid(rows, |g|, sq, to);
    Unvisited(rows, g, nodes, up, sq, dir, to);
    CarveGrows(rows, g, nodes, up, Position(nodes, sq), dir, to);
    SameSize(g, sq, dir, to);
    AtMostAll(rows, Carve(g, sq, dir, to), nodes + [to], up + [Position(nodes, sq)]);
  }

  lemma MayStepOnGrid(rows: nat, squares: int, sq: int, to: int)
    requires rows > 0 && MayStep(rows, squares, sq, to)
    ensures 0 <= to < squares
  {
  }

  lemma SameSize(g: seq<bv8>, sq: int, dir: int, to: int)
    requires 0 <= sq < |g| && 0 <= to < |g| && 0 <= dir < MAX_DIRS
    ensures |Carve(g, sq, dir, to)| == |g|
  {
  }

  lemma FinishesByCarving(rows: nat, g: seq<bv8>, sq: int, count: nat, r: nat, rand: seq<nat>)
    requires rows > 0 && 0 <= sq < |g| && count > 0
    requires var dir := Random(r, MAX_DIRS);
             var to := sq + Offset(rows, dir);
             MayStep(rows, |g|, sq, to) && g[to] == 0 && Finishes(rows, Carve(g, sq, dir, to), to, count - 1, rand)
    ensures Finishes(rows, g, sq, count, [r] + rand)
  {
    hide Random, Offset, Row, Col, Carve;
    forall more: seq<nat>
      ensures Wander(rows, g, sq, count, [r] + rand + more).1 == 0
    {
      var s := [r] + rand + more;
      assert s[1..] == rand + more;
    }
  }

  lemma FinishesByBump(rows: nat, g: seq<bv8>, sq: int, count: nat, r: nat, rand: seq<nat>)
    requires rows > 0 && 0 <= sq < |g| && !MayStep(rows, |g|, sq, sq + Offset(rows, Random(r, MAX_DIRS)))
    requires Finishes(rows, g, sq, count, rand)
    ensures Finishes(rows, g, sq, count, [r] + rand)
  {
    hide Random, Offset, MayStep, Carve;
    forall more: seq<nat>
      ensures Wander(rows, g, sq, count, [r] + rand + more).1 == 0
    {
      var s := [r] + rand + more;
      assert s[1..] == rand + more;
      assert Wander(rows, g, sq, count, rand + more).1 == 0;
    }
  }

  /** The step meets a visited square. */
  predicate Meets(rows: nat, g: seq<bv8>, sq: int, r: nat)
    requires rows > 0 && 0 <= sq < |g|
  {
    var to := sq + Offset(rows, Random(r, MAX_DIRS));
    MayStep(rows, |g|, sq, to) && g[to] != 0
  }

  lemma FinishesByStaying(rows: nat, g: seq<bv8>, sq: int, count: nat, r: nat, r1: nat, r2: nat, rand: seq<nat>)
    requires rows > 0 && 0 <= sq < |g| && Meets(rows, g, sq, r) && 6 * r1 >= r2
    requires Finishes(rows, g, sq, count, rand)
    ensures Finishes(rows, g, sq, count, [r, r1, r2] + rand)
  {
    hide Random, Offset, Row, Col, Carve;
    forall more: seq<nat>
      ensures Wander(rows, g, sq, count, [r, r1, r2] + rand + more).1 == 0
    {
      var s := [r, r1, r2] + rand + more;
      assert s[3..] == rand + more;
      assert Wander(rows, g, sq, count, rand + more).1 == 0;
    }
  }

  /** The jump stops at `to` after `picks` whatever follows. */
  ghost predicate JumpsTo(g: seq<bv8>, sq: int, picks: seq<nat>, to: int, rest: seq<nat>)
    requires g != []
  {
    forall more: seq<nat> :: JumpTo(g, sq, picks + more) == (to, rest + more)
  }

  lemma FinishesByJump(rows: nat, g: seq<bv8>, sq: int, count: nat, r: nat, r1: nat, r2: nat, picks: seq<nat>, to: int,
                       rest: seq<nat>,
                       rand: seq<nat>)
    requires rows > 0 && 0 <= sq < |g| && 0 <= to < |g| && Meets(rows, g, sq, r) && 6 * r1 < r2
    requires JumpsTo(g, sq, picks, to, rest) && Finishes(rows, g, to, count, rest + rand)
    ensures Finishes(rows, g, sq, count, [r, r1, r2] + picks + rand)
  {
    hide Random, Offset, Row, Col, Carve, JumpTo;
    forall more: seq<nat>
      ensures Wander(rows, g, sq, count, [r, r1, r2] + picks + rand + more).1 == 0
    {
      var s := [r, r1, r2] + picks + rand + more;
      assert s[3..] == picks + (rand + more);
      assert JumpTo(g, sq, picks + (rand + more)) == (to, rest + (rand + more));
      assert rest + (rand + more) == rest + rand + more;
      assert Wander(rows, g, to, count, rest + rand + more).1 == 0;
    }
  }

  lemma JumpAtOnce(g: seq<bv8>, sq: int, to: nat)
    requires 0 <= to < |g| && g[to] != 0
    ensures JumpsTo(g, sq, [to], to, [])
  {
    forall more: seq<nat>
      ensures JumpTo(g, sq, [to] + more) == (to, [] + more)
    {
      assert ([to] + more)[1..] == more == [] + more;
    }
  }

  // ---------------------------------------------------------------------------
  // A stream for every state
  // ---------------------------------------------------------------------------

  lemma DirIsItself(dir: nat)
    requires dir < MAX_DIRS
    ensures Random(dir, MAX_DIRS) == dir
  {
  }

  /** From every state of the walk, some stream completes the maze. */
  lemma {:induction false} CanFinish(rows: nat, g: seq<bv8>, nodes: seq<int>, up: seq<int>,
                                     sq: int) returns (rand: seq<nat>)
    requires Walking(rows, g, nodes, up, sq)
    ensures Finishes(rows, g, sq, |g| - |nodes|, rand)
    decreases |g| - |nodes|, 2
  {
    hide Carved, Random, Offset, Row, Col, Carve, Wander, MayStep;
    if |nodes| == |g| {
      rand := [0, 0];
      AlreadyFinished(rows, g, sq, rand);
      return;
    }
    WalkingFacts(rows, g, nodes, up, sq);
    var dir := SomeStep(rows, |g|, sq);
    DirIsItself(dir);
    var to := sq + Offset(rows, dir);
    MayStepOnGrid(rows, |g|, sq, to);
    if g[to] == 0 {
      rand := CarveOn(rows, g, nodes, up, sq, dir);
    } else {
      var a, e := FindFrontier(rows, |g|, nodes);
      rand := JumpOn(rows, g, nodes, up, sq, dir, a, e);
    }
  }

  lemma AlreadyFinished(rows: nat, g: seq<bv8>, sq: int, rand: seq<nat>)
    requires rows > 0 && 0 <= sq < |g| && |rand| >= 2
    ensures Finishes(rows, g, sq, 0, rand)
  {
  }

  lemma {:induction false} CarveOn(rows: nat, g: seq<bv8>, nodes: seq<int>, up: seq<int>, sq: int,
                                   dir: nat) returns (rand: seq<nat>)
    requires Walking(rows, g, nodes, up, sq) && dir < MAX_DIRS
    requires MayStep(rows, |g|, sq, sq + Offset(rows, dir)) && g[sq + Offset(rows, dir)] == 0
    ensures |nodes| < |g| && Finishes(rows, g, sq, |g| - |nodes|, rand)
    decreases |g| - |nodes|, 0
  {
    CarveStep(rows, g, nodes, up, sq, dir);
    hide Carved, Random, Offset, Row, Col, Wander, MayStep;
    var to := sq + Offset(rows, dir);
    var tail := CanFinish(rows, Carve(g, sq, dir, to), nodes + [to], up + [Position(nodes, sq)], to);
    DirIsItself(dir);
    FinishesByCarving(rows, g, sq, |g| - |nodes|, dir, tail);
    rand := [dir] + tail;
  }

  lemma {:induction false} JumpOn(rows: nat, g: seq<bv8>, nodes: seq<int>, up: seq<int>, sq: int, dir: nat, a: int,
                                  e: int)
    returns (rand: seq<nat>)
    requires Walking(rows, g, nodes, up, sq) && dir < MAX_DIRS && Meets(rows, g, sq, dir)
             && Frontier(rows, |g|, nodes, a, e)
    ensures Finishes(rows, g, sq, |g| - |nodes|, rand)
    decreases |g| - |nodes|, 1
  {
    FrontierIsVisited(rows, g, nodes, up, sq, dir, a, e);
    hide Carved, Random, Offset, Row, Col, Wander, MayStep, Carve, Meets;
    var tail := CarveOn(rows, g, nodes, up, a, e);
    JumpAtOnce(g, sq, a);
    assert [] + tail == tail;
    FinishesByJump(rows, g, sq, |g| - |nodes|, dir, 0, 1, [a], a, [], tail);
    rand := [dir, 0, 1] + [a] + tail;
  }

  lemma FrontierIsVisited(rows: nat, g: seq<bv8>, nodes: seq<int>, up: seq<int>, sq: int, dir: nat, a: int, e: int)
    requires Walking(rows, g, nodes, up, sq) && dir < MAX_DIRS && Meets(rows, g, sq, dir)
             && Frontier(rows, |g|, nodes, a, e)
    ensures Walking(rows, g, nodes, up, a) && g[a] != 0 && |nodes| > 1
    ensures var to := a + Offset(rows, e); 0 <= to < |g| && g[to] == 0
  {
    hide Carved, Row, Col, Random;
    WalkingFacts(rows, g, nodes, up, sq);
    var to := sq + Offset(rows, Random(dir, MAX_DIRS));
    VisitedIsNode(rows, g, nodes, up, to);
    UnvisitedIsBlank(rows, g, nodes, up, a + Offset(rows, e));
    MoreThanOne(nodes, sq, to);
  }

  lemma MoreThanOne(nodes: seq<int>, x: int, y: int)
    requires x in nodes && y in nodes && x != y
    ensures |nodes| > 1
  {
    var i :| 0 <= i < |nodes| && nodes[i] == x;
    var j :| 0 <= j < |nodes| && nodes[j] == y;
  }

  lemma UnvisitedIsBlank(rows: nat, g: seq<bv8>, nodes: seq<int>, up: seq<int>, sq: int)
    requires Carved(rows, g, nodes, up) && 0 <= sq < |g| && sq !in nodes
    ensures g[sq] == 0
  {
  }

  // ---------------------------------------------------------------------------
  // After any random numbers
  // ---------------------------------------------------------------------------

  /** A jump over numbers that pick no visited square goes on with what follows; another one is over. */
  lemma {:induction false} JumpSplits(g: seq<bv8>, sq: int, picks: seq<nat>)
    requires g != []
    ensures (exists to: int, rest: seq<nat> ::
               0 <= to < |g| && g[to] != 0 && |rest| < |picks| && JumpsTo(g, sq, picks, to, rest))
            || forall more: seq<nat> :: JumpTo(g, sq, picks + more) == JumpTo(g, sq, more)
  {
    hide Random;
    if picks == [] {
      assert forall more: seq<nat> :: picks + more == more;
    } else {
      forall more: seq<nat>
        ensures (picks + more)[1..] == picks[1..] + more
      {
      }
      var candidate := Random(picks[0], |g|);
      if g[candidate] != 0 {
        assert JumpsTo(g, sq, picks, candidate, picks[1..]);
      } else {
        JumpSplits(g, sq, picks[1..]);
        if to: int, rest: seq<nat> :|
          0 <= to < |g| && g[to] != 0 && |rest| < |picks[1..]| && JumpsTo(g, sq, picks[1..], to, rest)
        {
          assert JumpsTo(g, sq, picks, to, rest);
        }
      }
    }
  }

  /** The jump has run out of numbers: let the next one pick the square where the walk is. */
  lemma JumpBack(g: seq<bv8>, sq: nat, picks: seq<nat>)
    requires sq < |g| && g[sq] != 0 && forall more: seq<nat> :: JumpTo(g, sq, picks + more) == JumpTo(g, sq, more)
    ensures JumpsTo(g, sq, picks + [sq], sq, [])
  {
    JumpAtOnce(g, sq, sq);
    hide JumpTo;
    forall more: seq<nat>
      ensures JumpTo(g, sq, picks + [sq] + more) == (sq, [] + more)
    {
      assert picks + [sq] + more == picks + ([sq] + more);
      assert JumpTo(g, sq, [sq] + more) == (sq, [] + more);
    }
  }

  lemma MeetsMeansMany(rows: nat, g: seq<bv8>, nodes: seq<int>, up: seq<int>, sq: int, r: nat)
    requires Walking(rows, g, nodes, up, sq) && Meets(rows, g, sq, r)
    ensures g[sq] != 0
  {
    hide Carved, Row, Col, Random;
    WalkingFacts(rows, g, nodes, up, sq);
    var to := sq + Offset(rows, Random(r, MAX_DIRS));
    VisitedIsNode(rows, g, nodes, up, to);
    MoreThanOne(nodes, sq, to);
  }

  /** Whatever numbers the walk is given from a state, some continuation of them completes the maze. */
  lemma {:induction false} CanAlwaysFinish(rows: nat, g: seq<bv8>, nodes: seq<int>, up: seq<int>, sq: int,
                                           rand: seq<nat>)
    returns (more: seq<nat>)
    requires Walking(rows, g, nodes, up, sq)
    ensures Finishes(rows, g, sq, |g| - |nodes|, rand + more)
    decreases |rand|, 3
  {
    hide Carved, Random, Offset, Row, Col, Carve, Wander, MayStep, Meets;
    var count := |g| - |nodes|;
    if count == 0 {
      more := [0, 0];
      AlreadyFinished(rows, g, sq, rand + more);
    } else if rand == [] {
      more := CanFinish(rows, g, nodes, up, sq);
      assert rand + more == more;
    } else {
      var r, to := rand[0], sq + Offset(rows, Random(rand[0], MAX_DIRS));
      if !MayStep(rows, |g|, sq, to) {
        more := CanAlwaysFinish(rows, g, nodes, up, sq, rand[1..]);
        FinishesByBump(rows, g, sq, count, r, rand[1..] + more);
        assert [r] + (rand[1..] + more) == rand + more;
      } else {
        MayStepOnGrid(rows, |g|, sq, to);
        if g[to] == 0 {
          more := FinishAfterCarve(rows, g, nodes, up, sq, rand);
        } else {
          MeetsIs(rows, g, sq, r);
          more := FinishAfterMeeting(rows, g, nodes, up, sq, rand);
        }
      }
    }
  }

  lemma MeetsIs(rows: nat, g: seq<bv8>, sq: int, r: nat)
    requires rows > 0 && 0 <= sq < |g|
    ensures var to := sq + Offset(rows, Random(r, MAX_DIRS));
            Meets(rows, g, sq, r) <==> MayStep(rows, |g|, sq, to) && g[to] != 0
  {
  }

  lemma {:induction false} FinishAfterCarve(rows: nat, g: seq<bv8>, nodes: seq<int>, up: seq<int>, sq: int,
                                            rand: seq<nat>)
    returns (more: seq<nat>)
    requires Walking(rows, g, nodes, up, sq) && rand != []
    requires var to := sq + Offset(rows, Random(rand[0], MAX_DIRS)); MayStep(rows, |g|, sq, to) && g[to] == 0
    ensures |nodes| < |g| && Finishes(rows, g, sq, |g| - |nodes|, rand + more)
    decreases |rand|, 0
  {
    var dir := Random(rand[0], MAX_DIRS);
    CarveStep(rows, g, nodes, up, sq, dir);
    hide Carved, Random, Offset, Row, Col, Wander, MayStep;
    var to := sq + Offset(rows, dir);
    more := CanAlwaysFinish(rows, Carve(g, sq, dir, to), nodes + [to], up + [Position(nodes, sq)], to, rand[1..]);
    FinishesByCarving(rows, g, sq, |g| - |nodes|, rand[0], rand[1..] + more);
    assert [rand[0]] + (rand[1..] + more) == rand + more;
  }

  lemma {:induction false} FinishAfterMeeting(rows: nat, g: seq<bv8>, nodes: seq<int>, up: seq<int>, sq: int,
                                              rand: seq<nat>)
    returns (more: seq<nat>)
    requires Walking(rows, g, nodes, up, sq) && rand != [] && Meets(rows, g, sq, rand[0])
    ensures Finishes(rows, g, sq, |g| - |nodes|, rand + more)
    decreases |rand|, 2
  {
    hide Carved, Random, Offset, Row, Col, Carve, Wander, MayStep, Meets;
    var count := |g| - |nodes|;
    if |rand| < 3 {
      var tail := CanFinish(rows, g, nodes, up, sq);
      var r1 := if |rand| == 2 then rand[1] else 0;
      FinishesByStaying(rows, g, sq, count, rand[0], r1, 0, tail);
      more := (if |rand| == 2 then [0] else [0, 0]) + tail;
      assert [rand[0], r1, 0] + tail == rand + more;
    } else if 6 * rand[1] >= rand[2] {
      more := CanAlwaysFinish(rows, g, nodes, up, sq, rand[3..]);
      FinishesByStaying(rows, g, sq, count, rand[0], rand[1], rand[2], rand[3..] + more);
      assert [rand[0], rand[1], rand[2]] + (rand[3..] + more) == rand + more;
    } else {
      more := FinishAfterJump(rows, g, nodes, up, sq, rand);
    }
  }

  lemma {:induction false} FinishAfterJump(rows: nat, g: seq<bv8>, nodes: seq<int>, up: seq<int>, sq: int,
                                           rand: seq<nat>)
    returns (more: seq<nat>)
    requires Walking(rows, g, nodes, up, sq) && |rand| >= 3 && Meets(rows, g, sq, rand[0]) && 6 * rand[1] < rand[2]
    ensures Finishes(rows, g, sq, |g| - |nodes|, rand + more)
    decreases |rand|, 1
  {
    hide Carved, Random, Offset, Row, Col, Carve, Wander, MayStep, Meets, JumpsTo, JumpTo, Finishes;
    var count, picks := |g| - |nodes|, rand[3..];
    JumpSplits(g, sq, picks);
    if to: int, rest: seq<nat> :|
      0 <= to < |g| && g[to] != 0 && |rest| < |picks| && JumpsTo(g, sq, picks, to, rest)
    {
      VisitedIsNode(rows, g, nodes, up, to);
      more := CanAlwaysFinish(rows, g, nodes, up, to, rest);
      FinishesByJump(rows, g, sq, count, rand[0], rand[1], rand[2], picks, to, rest, more);
      assert [rand[0], rand[1], rand[2]] + picks + more == rand + more;
    } else {
      MeetsMeansMany(rows, g, nodes, up, sq, rand[0]);
      JumpBack(g, sq, picks);
      var tail := CanFinish(rows, g, nodes, up, sq);
      assert [] + tail == tail;
      FinishesByJump(rows, g, sq, count, rand[0], rand[1], rand[2], picks + [sq], sq, [], tail);
      more := [sq] + tail;
      assert [rand[0], rand[1], rand[2]] + (picks + [sq]) + tail == rand + more;
    }
  }

  /** InitMaze can still finish, however its random numbers began. */
  lemma InitMazeCanFinish(rows: nat, squares: nat, rand: seq<nat>) returns (more: seq<nat>)
    requires rows > 0 && squares > 0 && rand != []
    ensures Wander(rows, Blank(squares), Random(rand[0], squares), squares - 1, (rand + more)[1..]).1 == 0
  {
    var g, sq := Blank(squares), Random(rand[0], squares);
    EmptyGridIsCarved(rows, g, sq);
    hide Carved, Random, Blank, Wander;
    more := CanAlwaysFinish(rows, g, [sq], [0], sq, rand[1..]);
    assert (rand + more)[1..] == rand[1..] + more + [];
  }
}
