/** A* search (solveH1 and solveH2 are one loop, parameterised by the
    heuristic): poll a node of least priority, skip it if its key was
    visited, otherwise visit it and queue every child whose key is not
    visited.  The goal is noticed only by the loop guard, after the goal
    node has been visited and expanded; the node budget is tested by the
    same guard and, after the loop, before the path is extracted. */
module AStar {
  import opened Boards
  import opened Heuristics
  import opened Search
  import opened Expansion

  /** The loop invariant of the search; at is the order of the visits. */
  ghost predicate Inv(start: Board, rootMove: Option<Move>, h: Heuristic,
                      arena: seq<Node>, pq: multiset<nat>, visited: map<Grid, nat>, at: map<Grid, nat>, nodes: int)
  {
    && SearchTree(start, rootMove, h, arena)
    && Frontier(arena, pq)
    && Indexed(arena, visited)
    && Stamped(arena, visited, at)
    && nodes == |arena| - 1
    && nodes <= 4 * |visited|
    && (visited == map[] ==> pq == multiset{0} && |arena| == 1)
    && (visited != map[] ==> start.grid in visited && visited[start.grid] == 0)
    && (start.grid == Goal ==> |visited| <= 1)
    && Covered(arena, pq, visited, start.grid)
    && Closed(arena, pq, visited, {}, AllMoves)
  }

  /** Visiting the polled node cur (its key was new) and expanding it
      keeps the loop invariant. */
  lemma VisitKeeps(start: Board, rootMove: Option<Move>, h: Heuristic,
                   arena0: seq<Node>, pq0: multiset<nat>, visited0: map<Grid, nat>, at0: map<Grid, nat>, nodes0: int, cur: nat,
                   arena: seq<Node>, pq: multiset<nat>, visited: map<Grid, nat>, at: map<Grid, nat>, nodes: int)
    requires Inv(start, rootMove, h, arena0, pq0, visited0, at0, nodes0)
    requires Goal !in visited0 && cur in pq0
    requires arena0[cur].board.grid !in visited0 && visited == visited0[arena0[cur].board.grid := cur]
    requires SearchTree(start, rootMove, h, arena) && Frontier(arena, pq) && Indexed(arena, visited)
    requires |arena0| <= |arena| && arena[..|arena0|] == arena0
    requires nodes == |arena| - 1 && nodes0 <= nodes <= nodes0 + 4
    requires Closed(arena, pq, visited, {}, AllMoves) && Covered(arena, pq, visited, start.grid)
    requires Stamped(arena, visited, at)
    ensures Inv(start, rootMove, h, arena, pq, visited, at, nodes)
  {
    assert |visited| == |visited0| + 1;
    assert arena[0] == arena0[0];
    if visited0 == map[] {
      assert cur == 0;
    }
  }

  /** Visits the polled node cur, whose key is new, and expands it. */
  method Visit(start: Board, rootMove: Option<Move>, h: Heuristic,
               arena0: seq<Node>, pq0: multiset<nat>, visited0: map<Grid, nat>, ghost at0: map<Grid, nat>, nodes0: int,
               cur: nat, rest: multiset<nat>)
    returns (arena: seq<Node>, pq: multiset<nat>, visited: map<Grid, nat>, ghost at: map<Grid, nat>, nodes: int)
    requires Inv(start, rootMove, h, arena0, pq0, visited0, at0, nodes0)
    requires Goal !in visited0 && cur in pq0 && rest == pq0 - multiset{cur}
    requires arena0[cur].board.grid !in visited0
    ensures Inv(start, rootMove, h, arena, pq, visited, at, nodes)
    ensures nodes0 <= nodes <= nodes0 + 4 && |pq| + 1 == |pq0| + (nodes - nodes0)
    ensures visited == visited0[arena0[cur].board.grid := cur]
    ensures var b := arena0[cur].board;
      arena == arena0 + Children(h, arena0[cur], cur, ValidMoves(b.r, b.c), visited)
    ensures pq == rest + Fresh(|arena0|, |arena|)
  {
    var key := arena0[cur].board.grid;
    visited := visited0[key := cur];
    at := at0[key := |arena0|];
    PollVisit(start, AllMoves, arena0, pq0, cur, visited0);
    IndexedVisit(arena0, visited0, cur);
    var b := arena0[cur].board;
    assert rest + multiset{} == rest;
    arena, pq, nodes := Expand(start, rootMove, h, AllMoves, arena0, rest, multiset{}, visited, nodes0, cur, ValidMoves(b.r, b.c));
    assert pq + multiset{} == pq;
    assert arena[cur] == arena0[cur];
    ExpandedCloses(arena, pq, visited, b, AllMoves, ValidMoves(b.r, b.c));
    VisitStamped(arena0, arena, visited0, at0, cur);
    VisitKeeps(start, rootMove, h, arena0, pq0, visited0, at0, nodes0, cur, arena, pq, visited, at, nodes);
  }

  /** Dropping a polled node whose key was visited keeps the loop invariant. */
  lemma SkipKeeps(start: Board, rootMove: Option<Move>, h: Heuristic,
                  arena: seq<Node>, pq: multiset<nat>, visited: map<Grid, nat>, at: map<Grid, nat>, nodes: int, cur: nat)
    requires Inv(start, rootMove, h, arena, pq, visited, at, nodes)
    requires cur in pq && arena[cur].board.grid in visited
    ensures Inv(start, rootMove, h, arena, pq - multiset{cur}, visited, at, nodes)
  {
    KeysPop(arena, pq, cur);
  }

  /** One turn of the search loop: poll a node of least value, and visit
      and expand it unless its key was visited. */
  method Iterate(start: Board, rootMove: Option<Move>, h: Heuristic,
                 arena0: seq<Node>, pq0: multiset<nat>, visited0: map<Grid, nat>, ghost at0: map<Grid, nat>, nodes0: int)
    returns (cur: nat, arena: seq<Node>, pq: multiset<nat>, visited: map<Grid, nat>, ghost at: map<Grid, nat>, nodes: int)
    requires Inv(start, rootMove, h, arena0, pq0, visited0, at0, nodes0)
    requires Goal !in visited0 && |pq0| > 0
    ensures Inv(start, rootMove, h, arena, pq, visited, at, nodes)
    ensures nodes0 <= nodes <= nodes0 + 4 && (nodes == nodes0 ==> |pq| < |pq0|)
    ensures IsMin(arena0, pq0, cur)
    ensures arena0[cur].board.grid in visited0 ==>
      arena == arena0 && pq == pq0 - multiset{cur} && visited == visited0 && nodes == nodes0
    ensures var b := arena0[cur].board; b.grid !in visited0 ==>
      && visited == visited0[b.grid := cur]
      && arena == arena0 + Children(h, arena0[cur], cur, ValidMoves(b.r, b.c), visited)
      && pq == pq0 - multiset{cur} + Fresh(|arena0|, |arena|)
  {
    var rest;
    cur, rest := Poll(arena0, pq0);
    if arena0[cur].board.grid !in visited0 {
      arena, pq, visited, at, nodes := Visit(start, rootMove, h, arena0, pq0, visited0, at0, nodes0, cur, rest);
    } else {
      SkipKeeps(start, rootMove, h, arena0, pq0, visited0, at0, nodes0, cur);
      arena, pq, visited, at, nodes := arena0, rest, visited0, at0, nodes0;
    }
  }

  /** The search loop: runs until the goal's key is visited, the queue is
      empty or more than maxNodes nodes were generated. */
  method Loop(start: Board, rootMove: Option<Move>, h: Heuristic, maxNodes: int)
    returns (arena: seq<Node>, pq: multiset<nat>, visited: map<Grid, nat>, ghost at: map<Grid, nat>, nodes: int)
    requires WellFormed(start) && (h == H2 ==> InRange(start.grid))
    ensures Inv(start, rootMove, h, arena, pq, visited, at, nodes)
    ensures nodes <= (if maxNodes < 0 then 0 else maxNodes + 4)
    ensures Goal in visited || |pq| == 0 || nodes > maxNodes
  {
    arena := [Node(start, rootMove, 0, None)];
    pq, visited, at, nodes := multiset{0}, map[], map[], 0;
    assert Keys(arena, pq) == {start.grid};
    while Goal !in visited && |pq| > 0 && nodes <= maxNodes
      invariant Inv(start, rootMove, h, arena, pq, visited, at, nodes)
      invariant nodes <= (if maxNodes < 0 then 0 else maxNodes + 4)
      decreases if nodes <= maxNodes then maxNodes + 1 - nodes else 0, |pq|
    {
      var polled;
      polled, arena, pq, visited, at, nodes := Iterate(start, rootMove, h, arena, pq, visited, at, nodes);
    }
  }

  /** A* from the start board; rootMove is the puzzle object's prevMove.
      tree is every node generated, seen the visited map when the loop
      stopped and at the order in which its keys were visited. */
  method Solve(start: Board, rootMove: Option<Move>, h: Heuristic, maxNodes: int)
    returns (res: Outcome, ghost tree: seq<Node>, ghost seen: map<Grid, nat>, ghost at: map<Grid, nat>)
    requires WellFormed(start) && (h == H2 ==> InRange(start.grid))
    ensures SearchTree(start, rootMove, h, tree) && Indexed(tree, seen) && Stamped(tree, seen, at)
    ensures res.nodes == |tree| - 1 && res.nodes <= 4 * |seen|
    ensures res.nodes <= (if maxNodes < 0 then 0 else maxNodes + 4)
    ensures res.BudgetExceeded? <==> res.nodes > maxNodes
    ensures res.Solved? ==> Goal in seen && res.path == PathTo(tree, seen[Goal])
    ensures res.Solved? ==> Legal(start, res.path) && Replay(start, res.path).grid == Goal
    ensures res.NoPath? ==> Goal !in seen
    ensures res.NoPath? && Canonical(start) ==> forall p :: Replay(start, p).grid != Goal
    ensures start.grid == Goal ==> !res.NoPath? && (res.Solved? ==> res.path == [])
    ensures start.grid == Goal && maxNodes >= 4 ==> res.Solved? && res.path == []
  {
    var arena, pq, visited, nodes;
    arena, pq, visited, at, nodes := Loop(start, rootMove, h, maxNodes);
    tree, seen := arena, visited;
    if nodes > maxNodes {
      return BudgetExceeded(nodes), tree, seen, at;
    }
    if Goal in visited {
      var path, moves := ExtractPath(arena, visited[Goal]);
      PathReplays(start, rootMove, h, arena, visited[Goal]);
      return Solved(path, nodes), tree, seen, at;
    }
    if Canonical(start) {
      assert Keys(arena, multiset{}) == {};
      Unreachable(start, rootMove, h, AllMoves, arena, visited);
      forall p ensures Replay(start, p).grid != Goal {
        forall j | 0 <= j < |p| ensures p[j] in AllMoves {
          EveryMove(p[j]);
        }
      }
    }
    return NoPath(nodes), tree, seen, at;
  }
}
