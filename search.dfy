/** What the two searches share: the search nodes, kept in an append-only
    arena whose index 0 is the root (the puzzle object itself in the
    source), the priority queue as a multiset of arena indices, the map of
    visited keys, and the walk up the parent links that turns the goal node
    into the list of moves. */
module Search {
  import opened Boards
  import opened Heuristics

  /** A search node: its board, the move that produced it (the root keeps
      whatever move the puzzle object made last), its priority and the
      index of its parent (none for the root). */
  datatype Node = Node(board: Board, prevMove: Option<Move>, value: int, parent: Option<nat>)

  /** How a search ends: the moves and the number of generated nodes; or
      the frontier ran dry ("No path found."); or more nodes were generated
      than allowed (the source throws OutOfMemoryError). */
  datatype Outcome =
    | Solved(path: seq<Move>, nodes: int)
    | NoPath(nodes: int)
    | BudgetExceeded(nodes: int)

  /** Parent links point backwards; only the root has none; every other
      node records the move that produced it. */
  ghost predicate Linked(arena: seq<Node>) {
    |arena| > 0 && arena[0].parent.None?
    && forall i :: 0 < i < |arena| ==>
         arena[i].parent.Some? && arena[i].parent.value < i && arena[i].prevMove.Some?
  }

  /** Number of parent links from node i to the root. */
  ghost function Depth(arena: seq<Node>, i: nat): nat
    requires Linked(arena) && i < |arena|
    decreases i
  {
    if i == 0 then 0 else 1 + Depth(arena, arena[i].parent.value)
  }

  /** The moves from the root down to node i. */
  ghost function PathTo(arena: seq<Node>, i: nat): (p: seq<Move>)
    requires Linked(arena) && i < |arena|
    ensures |p| == Depth(arena, i)
    decreases i
  {
    if i == 0 then [] else PathTo(arena, arena[i].parent.value) + [arena[i].prevMove.value]
  }

  /** Node i is its parent's board with its move applied, and that move was allowed. */
  ghost predicate FromParent(arena: seq<Node>, i: nat)
    requires Linked(arena) && 0 < i < |arena|
    requires forall j :: 0 <= j < |arena| ==> WellFormed(arena[j].board)
  {
    var p := arena[i].parent.value;
    var m := arena[i].prevMove.value;
    CanMove(arena[p].board.r, arena[p].board.c, m) && arena[i].board == Step(arena[p].board, m)
  }

  /** The search-node invariant: the root is the start board with priority
      0, each child is a legal move away from its parent, and every node's
      priority is its depth plus its heuristic minus the root's heuristic
      (children get value = parent.value - h(parent) + 1 + h(child)). */
  ghost predicate SearchTree(start: Board, rootMove: Option<Move>, h: Heuristic, arena: seq<Node>) {
    && Linked(arena)
    && arena[0] == Node(start, rootMove, 0, None)
    && (forall i :: 0 <= i < |arena| ==>
          WellFormed(arena[i].board) && (h == H2 ==> InRange(arena[i].board.grid)))
    && (forall i :: 0 < i < |arena| ==> FromParent(arena, i))
    && (forall i :: 0 <= i < |arena| ==>
          arena[i].value == Depth(arena, i) + Value(h, arena[i].board.grid) - Value(h, start.grid))
  }

  /** Every queued index names a node. */
  ghost predicate Frontier(arena: seq<Node>, pq: multiset<nat>) {
    forall j :: j in pq ==> j < |arena|
  }

  /** Each visited key maps to a node with that key. */
  ghost predicate Indexed(arena: seq<Node>, visited: map<Grid, nat>) {
    forall k :: k in visited ==> visited[k] < |arena| && arena[visited[k]].board.grid == k
  }

  /** x is an element of the queue of least priority (ties are left open). */
  predicate IsMin(arena: seq<Node>, pq: multiset<nat>, x: nat) {
    x in pq && x < |arena| && forall j :: j in pq && j < |arena| ==> arena[x].value <= arena[j].value
  }

  /** A non-empty queue has an element of least priority. */
  lemma MinExists(arena: seq<Node>, pq: multiset<nat>)
    requires |pq| > 0 && Frontier(arena, pq)
    ensures exists x :: IsMin(arena, pq, x)
    decreases |pq|
  {
    var y: nat :| y in pq;
    var rest := pq - multiset{y};
    if |rest| == 0 {
      assert pq == rest + multiset{y};
      assert IsMin(arena, pq, y);
    } else {
      MinExists(arena, rest);
      var z: nat :| IsMin(arena, rest, z);
      assert forall j :: j in pq ==> j == y || j in rest;
      if arena[y].value <= arena[z].value {
        assert IsMin(arena, pq, y);
      } else {
        assert IsMin(arena, pq, z);
      }
    }
  }

  /** Polls the queue: removes and returns an element of least priority. */
  method Poll(arena: seq<Node>, pq: multiset<nat>) returns (x: nat, rest: multiset<nat>)
    requires |pq| > 0 && Frontier(arena, pq)
    ensures IsMin(arena, pq, x)
    ensures rest == pq - multiset{x} && |rest| == |pq| - 1
  {
    MinExists(arena, pq);
    x :| IsMin(arena, pq, x);
    rest := pq - multiset{x};
  }

  lemma {:induction false} DepthPrefix(arena: seq<Node>, n: Node, i: nat)
    requires Linked(arena) && Linked(arena + [n]) && i < |arena|
    ensures Depth(arena + [n], i) == Depth(arena, i)
    ensures PathTo(arena + [n], i) == PathTo(arena, i)
    decreases i
  {
    if i > 0 {
      DepthPrefix(arena, n, arena[i].parent.value);
    }
  }

  /** Appending a child of node p made by a legal move, with the priority
      the source gives it, keeps the search-node invariant. */
  lemma AppendChild(start: Board, rootMove: Option<Move>, h: Heuristic, arena: seq<Node>, p: nat, m: Move, v: int)
    requires SearchTree(start, rootMove, h, arena) && p < |arena|
    requires CanMove(arena[p].board.r, arena[p].board.c, m)
    requires v == arena[p].value - Value(h, arena[p].board.grid) + 1 + Value(h, Step(arena[p].board, m).grid)
    ensures SearchTree(start, rootMove, h, arena + [Node(Step(arena[p].board, m), Some(m), v, Some(p))])
  {
    var n := Node(Step(arena[p].board, m), Some(m), v, Some(p));
    var a := arena + [n];
    assert Linked(a) by {
      forall i | 0 < i < |a| ensures a[i].parent.Some? && a[i].parent.value < i && a[i].prevMove.Some? {
        if i < |arena| { assert a[i] == arena[i]; }
      }
    }
    forall i | 0 <= i < |a| ensures WellFormed(a[i].board) && (h == H2 ==> InRange(a[i].board.grid)) {
      if i < |arena| { assert a[i] == arena[i]; }
    }
    forall i | 0 < i < |a| ensures FromParent(a, i) {
      if i < |arena| {
        assert a[i] == arena[i] && a[arena[i].parent.value] == arena[arena[i].parent.value];
        assert FromParent(arena, i);
      }
    }
    forall i | 0 <= i < |a|
      ensures a[i].value == Depth(a, i) + Value(h, a[i].board.grid) - Value(h, start.grid)
    {
      if i < |arena| {
        DepthPrefix(arena, n, i);
        assert a[i] == arena[i];
      } else {
        DepthPrefix(arena, n, p);
      }
    }
  }

  /** Replaying the path to a node from the start board is legal and ends
      on that node's board. */
  lemma {:induction false} PathReplays(start: Board, rootMove: Option<Move>, h: Heuristic, arena: seq<Node>, i: nat)
    requires SearchTree(start, rootMove, h, arena) && i < |arena|
    ensures Legal(start, PathTo(arena, i))
    ensures Replay(start, PathTo(arena, i)) == arena[i].board
    decreases i
  {
    if i > 0 {
      var p := arena[i].parent.value;
      assert FromParent(arena, i);
      PathReplays(start, rootMove, h, arena, p);
      ReplayAppend(start, PathTo(arena, p), arena[i].prevMove.value);
    }
  }

  /** From a canonical start every node's board is canonical. */
  lemma {:induction false} TreeCanonical(start: Board, rootMove: Option<Move>, h: Heuristic, arena: seq<Node>, i: nat)
    requires SearchTree(start, rootMove, h, arena) && Canonical(start) && i < |arena|
    ensures Canonical(arena[i].board)
    decreases i
  {
    if i > 0 {
      var p := arena[i].parent.value;
      assert FromParent(arena, i);
      TreeCanonical(start, rootMove, h, arena, p);
      StepKeepsCanonical(arena[p].board, arena[i].prevMove.value);
    }
  }

  /** Collections.reverse. */
  function Reverse<T>(s: seq<T>): (t: seq<T>)
    ensures |t| == |s| && forall k :: 0 <= k < |s| ==> t[k] == s[|s| - 1 - k]
  {
    seq(|s|, k requires 0 <= k < |s| => s[|s| - 1 - k])
  }

  function Lift(p: seq<Move>): (s: seq<Option<Move>>)
    ensures |s| == |p| && forall k :: 0 <= k < |p| ==> s[k] == Some(p[k])
  {
    seq(|p|, k requires 0 <= k < |p| => Some(p[k]))
  }

  function Unwrap(s: seq<Option<Move>>): (p: seq<Move>)
    requires forall k :: 0 <= k < |s| ==> s[k].Some?
    ensures Lift(p) == s
  {
    var p := seq(|s|, k requires 0 <= k < |s| => s[k].value);
    assert Lift(p) == s;
    p
  }

  /** The prevMove fields met walking from node i up to the root, root included. */
  ghost function Chain(arena: seq<Node>, i: nat): seq<Option<Move>>
    requires Linked(arena) && i < |arena|
    decreases i
  {
    [arena[i].prevMove] + (if i == 0 then [] else Chain(arena, arena[i].parent.value))
  }

  /** The walk collects the path backwards, then the root's move. */
  lemma {:induction false} ChainIsReversedPath(arena: seq<Node>, i: nat)
    requires Linked(arena) && i < |arena|
    ensures |Chain(arena, i)| == Depth(arena, i) + 1
    ensures Chain(arena, i)[..Depth(arena, i)] == Reverse(Lift(PathTo(arena, i)))
    ensures Chain(arena, i)[Depth(arena, i)] == arena[0].prevMove
    decreases i
  {
    if i > 0 {
      var p := arena[i].parent.value;
      ChainIsReversedPath(arena, p);
      var lp := Lift(PathTo(arena, p));
      var li := Lift(PathTo(arena, i));
      assert li == lp + [arena[i].prevMove];
      assert Chain(arena, i)[..Depth(arena, i)] == [arena[i].prevMove] + Chain(arena, p)[..Depth(arena, p)];
      assert Reverse(li) == [arena[i].prevMove] + Reverse(lp);
    }
  }

  lemma ReverseTwice<T>(s: seq<T>)
    ensures Reverse(Reverse(s)) == s
  {
  }

  lemma LiftInjective(p: seq<Move>, q: seq<Move>)
    requires Lift(p) == Lift(q)
    ensures p == q
  {
    assert forall k :: 0 <= k < |p| ==> Lift(p)[k] == Lift(q)[k];
  }

  /** Dropping the root's entry from the walk and reversing gives the path
      to the node, lifted. */
  lemma ChainGivesPath(arena: seq<Node>, i: nat)
    requires Linked(arena) && i < |arena|
    ensures |Chain(arena, i)| == Depth(arena, i) + 1
    ensures Reverse(Chain(arena, i)[..|Chain(arena, i)| - 1]) == Lift(PathTo(arena, i))
  {
    ChainIsReversedPath(arena, i);
    ReverseTwice(Lift(PathTo(arena, i)));
  }

  /** One step of the walk: node t's move, then the walk from its parent. */
  lemma ChainStep(arena: seq<Node>, t: nat, collected: seq<Option<Move>>, whole: seq<Option<Move>>)
    requires Linked(arena) && 0 < t < |arena|
    requires collected + Chain(arena, t) == whole
    ensures (collected + [arena[t].prevMove]) + Chain(arena, arena[t].parent.value) == whole
  {
    assert Chain(arena, t) == [arena[t].prevMove] + Chain(arena, arena[t].parent.value);
  }

  /** The source's walk up the parent links: collects the prevMove of
      every node met, the root's included, and counts the nodes met. */
  method WalkUp(arena: seq<Node>, goal: nat) returns (collected: seq<Option<Move>>, count: int)
    requires Linked(arena) && goal < |arena|
    ensures collected == Chain(arena, goal) && count == |collected|
  {
    var trav: Option<nat> := Some(goal);
    collected := [];
    count := 0;
    while trav.Some?
      invariant trav.Some? ==> trav.value < |arena| && collected + Chain(arena, trav.value) == Chain(arena, goal)
      invariant trav.None? ==> collected == Chain(arena, goal)
      invariant count == |collected|
      decreases if trav.Some? then trav.value + 1 else 0
    {
      var t := trav.value;
      if t > 0 {
        ChainStep(arena, t, collected, Chain(arena, goal));
      } else {
        assert Chain(arena, t) == [arena[t].prevMove];
      }
      collected := collected + [arena[t].prevMove];
      count := count + 1;
      trav := arena[t].parent;
    }
  }

  /** A*'s path extraction: walk up, drop the last move collected (the
      root's), reverse; the count of nodes met, less one, is the number of
      moves. */
  method ExtractPath(arena: seq<Node>, goal: nat) returns (path: seq<Move>, moves: int)
    requires Linked(arena) && goal < |arena|
    ensures path == PathTo(arena, goal)
    ensures moves == |path| == Depth(arena, goal)
  {
    var collected, count := WalkUp(arena, goal);
    ChainGivesPath(arena, goal);
    path := Unwrap(Reverse(collected[..|collected| - 1]));
    LiftInjective(path, PathTo(arena, goal));
    moves := count - 1;
  }

  /** The beam search's path extraction: walk up, reverse, drop the first
      move (the root's); the number of moves is the length of the path. */
  method ExtractPathReversedFirst(arena: seq<Node>, goal: nat) returns (path: seq<Move>, moves: int)
    requires Linked(arena) && goal < |arena|
    ensures path == PathTo(arena, goal)
    ensures moves == |path| == Depth(arena, goal)
  {
    var collected, count := WalkUp(arena, goal);
    ChainGivesPath(arena, goal);
    DropRootEitherOrder(collected);
    var reversed := Reverse(collected);
    path := Unwrap(reversed[1..]);
    LiftInjective(path, PathTo(arena, goal));
    moves := |path|;
  }

  /** The beam search reverses first and then drops the first element; the
      result is the same list as dropping the last and then reversing. */
  lemma DropRootEitherOrder<T>(s: seq<T>)
    requires |s| > 0
    ensures Reverse(s)[1..] == Reverse(s[..|s| - 1])
  {
  }
}
