/** Beam search (solveBeam), ordered by h2.  Each round visits every node
    of the open list whose key is new and queues its children whose keys
    are not visited; then the open list is emptied and refilled with up to
    k nodes polled from the queue, a polled goal node setting the solved
    flag and being recorded as the goal's visited node.  The queue is never
    cleared between rounds.

    The source expands every open node with the moves that are legal for
    the puzzle object itself (the root), not for the node being expanded.
    A move that is refused for the node leaves its copy equal to the node,
    whose key is visited, so nothing is queued for it; the search therefore
    only ever moves the blank in the directions legal at the start.  The
    move list a node is expanded with is a parameter here: StartMoves is
    the source as written, NodeMoves the node's own legal moves. */
module Beam {
  import opened Boards
  import opened Heuristics
  import opened Search
  import opened Expansion

  /** Whose legal moves an open node is expanded with. */
  datatype MoveSource = StartMoves | NodeMoves

  /** The moves tried from board b in a search from start. */
  function TriedMoves(src: MoveSource, start: Board, b: Board): (ms: seq<Move>)
    ensures src == StartMoves ==> forall m :: m in ms <==> CanMove(start.r, start.c, m)
    ensures src == NodeMoves ==> forall m :: m in ms <==> CanMove(b.r, b.c, m)
    ensures |ms| <= 4
  {
    match src
    case StartMoves => ValidMoves(start.r, start.c)
    case NodeMoves => ValidMoves(b.r, b.c)
  }

  /** The moves a search from start can ever make. */
  function Allowed(src: MoveSource, start: Board): (s: set<Move>)
    ensures forall m :: m in s <==> (src == NodeMoves || CanMove(start.r, start.c, m))
  {
    match src
    case StartMoves => set m | m in ValidMoves(start.r, start.c)
    case NodeMoves =>
      assert forall m :: m in AllMoves by {
        forall m ensures m in AllMoves { EveryMove(m); }
      }
      AllMoves
  }

  /** Every node but the root was made by an allowed move. */
  ghost predicate Drawn(arena: seq<Node>, allowed: set<Move>) {
    forall i :: 0 < i < |arena| ==> arena[i].prevMove.Some? && arena[i].prevMove.value in allowed
  }

  /** The state between two visits: q holds the queue and the open nodes
      not yet visited in this round. */
  ghost predicate Steady(start: Board, rootMove: Option<Move>, src: MoveSource,
                         arena: seq<Node>, q: multiset<nat>, visited: map<Grid, nat>)
  {
    && SearchTree(start, rootMove, H2, arena) && Frontier(arena, q) && Indexed(arena, visited)
    && Drawn(arena, Allowed(src, start))
    && Covered(arena, q, visited, start.grid)
    && Closed(arena, q, visited, {}, Allowed(src, start))
  }

  /** An open node whose key was visited earlier is passed over. */
  lemma SkipOpen(start: Board, rootMove: Option<Move>, src: MoveSource,
                 arena: seq<Node>, best: multiset<nat>, held: multiset<nat>, visited: map<Grid, nat>, x: nat)
    requires Steady(start, rootMove, src, arena, best + multiset{x} + held, visited)
    requires x < |arena| && arena[x].board.grid in visited
    ensures Steady(start, rootMove, src, arena, best + held, visited)
  {
    var q := best + multiset{x} + held;
    KeysPop(arena, q, x);
    assert q - multiset{x} == best + held;
  }

  /** Nodes made by tried moves are made by allowed moves. */
  lemma DrawnGrows(arena0: seq<Node>, arena: seq<Node>, moves: seq<Move>, allowed: set<Move>)
    requires Drawn(arena0, allowed) && |arena0| > 0 && |arena0| <= |arena| && arena[..|arena0|] == arena0
    requires forall i :: |arena0| <= i < |arena| ==> arena[i].prevMove.Some? && arena[i].prevMove.value in moves[..|moves|]
    requires forall m :: m in moves ==> m in allowed
    ensures Drawn(arena, allowed)
  {
    assert moves[..|moves|] == moves;
    forall i | 0 < i < |arena| ensures arena[i].prevMove.Some? && arena[i].prevMove.value in allowed {
      if i < |arena0| {
        assert arena[i] == arena0[i];
      }
    }
  }

  /** Visits open node x, whose key is new, and expands it with the tried
      moves; held is the rest of the open list. */
  method Visit(start: Board, rootMove: Option<Move>, src: MoveSource,
               arena0: seq<Node>, best0: multiset<nat>, ghost held: multiset<nat>,
               visited0: map<Grid, nat>, ghost at0: map<Grid, nat>, nodes0: int, x: nat)
    returns (arena: seq<Node>, best: multiset<nat>, visited: map<Grid, nat>, ghost at: map<Grid, nat>, nodes: int)
    requires Steady(start, rootMove, src, arena0, best0 + multiset{x} + held, visited0) && Stamped(arena0, visited0, at0)
    requires nodes0 == |arena0| - 1 && Goal !in visited0
    requires x < |arena0| && arena0[x].board.grid !in visited0 && arena0[x].board.grid != Goal
    ensures Steady(start, rootMove, src, arena, best + held, visited) && Stamped(arena, visited, at)
    ensures nodes == |arena| - 1 && nodes0 <= nodes <= nodes0 + 4 && |best| == |best0| + (nodes - nodes0)
    ensures |visited| == |visited0| + 1
    ensures |arena0| <= |arena| && arena[..|arena0|] == arena0 && Goal !in visited
    ensures visited == visited0[arena0[x].board.grid := x]
    ensures arena == arena0 + Children(H2, arena0[x], x, TriedMoves(src, start, arena0[x].board), visited)
    ensures best == best0 + Fresh(|arena0|, |arena|)
  {
    var allowed := Allowed(src, start);
    var q := best0 + multiset{x} + held;
    var b := arena0[x].board;
    visited := visited0[b.grid := x];
    at := at0[b.grid := |arena0|];
    PollVisit(start, allowed, arena0, q, x, visited0);
    IndexedVisit(arena0, visited0, x);
    assert q - multiset{x} == best0 + held;
    var moves := TriedMoves(src, start, b);
    arena, best, nodes := Expand(start, rootMove, H2, allowed, arena0, best0, held, visited, nodes0, x, moves);
    assert arena[x] == arena0[x];
    ExpandedCloses(arena, best + held, visited, b, allowed, moves);
    DrawnGrows(arena0, arena, moves, allowed);
    VisitStamped(arena0, arena, visited0, at0, x);
  }

  /** What the first loop of a round does to the arena, the queue and the
      visited map, taking the open nodes in list order: a node whose key is
      new at its turn is visited and the children made by its tried moves
      whose keys are not visited are queued; a node whose key is visited by
      then is passed over.  (The last guard, that the node is in the arena
      with a board of nine tiles 0..8, always holds in a search.) */
  ghost function Passed(start: Board, src: MoveSource, arena: seq<Node>, best: multiset<nat>,
                        visited: map<Grid, nat>, open: seq<nat>): (seq<Node>, multiset<nat>, map<Grid, nat>)
    decreases |open|
  {
    if open == [] then (arena, best, visited)
    else
      var (a, b, v) := Passed(start, src, arena, best, visited, open[..|open| - 1]);
      var x := open[|open| - 1];
      if x < |a| && WellFormed(a[x].board) && InRange(a[x].board.grid) && a[x].board.grid !in v then
        var v' := v[a[x].board.grid := x];
        var a' := a + Children(H2, a[x], x, TriedMoves(src, start, a[x].board), v');
        (a', b + Fresh(|a|, |a'|), v')
      else (a, b, v)
  }

  /** Taking care of open node i extends the specification by that node. */
  lemma PassedStep(start: Board, src: MoveSource, arena0: seq<Node>, best0: multiset<nat>, visited0: map<Grid, nat>,
                   open: seq<nat>, i: int, arena1: seq<Node>, best1: multiset<nat>, visited1: map<Grid, nat>)
    requires 0 <= i < |open| && (arena1, best1, visited1) == Passed(start, src, arena0, best0, visited0, open[..i])
    requires open[i] < |arena1| && WellFormed(arena1[open[i]].board) && InRange(arena1[open[i]].board.grid)
    ensures var x := open[i]; var key := arena1[x].board.grid;
      Passed(start, src, arena0, best0, visited0, open[..i + 1])
        == if key in visited1 then (arena1, best1, visited1)
           else var a := arena1 + Children(H2, arena1[x], x, TriedMoves(src, start, arena1[x].board), visited1[key := x]);
                (a, best1 + Fresh(|arena1|, |a|), visited1[key := x])
  {
    assert open[..i + 1][..i] == open[..i];
  }

  /** The open nodes are in the arena, with boards of nine tiles 0..8. */
  ghost predicate OpenIn(arena: seq<Node>, open: seq<nat>) {
    forall j :: 0 <= j < |open| ==>
      open[j] < |arena| && WellFormed(arena[open[j]].board) && InRange(arena[open[j]].board.grid)
  }

  /** The first loop of a round only appends to the arena. */
  lemma {:induction false} PassedGrows(start: Board, src: MoveSource, arena0: seq<Node>, best0: multiset<nat>,
                                       visited0: map<Grid, nat>, open: seq<nat>)
    requires OpenIn(arena0, open)
    ensures var r := Passed(start, src, arena0, best0, visited0, open);
      |arena0| <= |r.0| && r.0[..|arena0|] == arena0
    decreases |open|
  {
    if open == [] {
      assert arena0[..|arena0|] == arena0;
    } else {
      var n := |open| - 1;
      var init := open[..n];
      assert OpenIn(arena0, init) by {
        assert forall j :: 0 <= j < n ==> init[j] == open[j];
      }
      PassedGrows(start, src, arena0, best0, visited0, init);
      var (a, b, v) := Passed(start, src, arena0, best0, visited0, init);
      var x := open[n];
      assert a[x] == a[..|arena0|][x] == arena0[x];
      PassedStep(start, src, arena0, best0, visited0, open, n, a, b, v);
      assert open[..n + 1] == open;
      var key := a[x].board.grid;
      if key !in v {
        var a' := a + Children(H2, a[x], x, TriedMoves(src, start, a[x].board), v[key := x]);
        assert a'[..|a|] == a;
        PrefixOfPrefix(arena0, a, a');
      }
    }
  }

  /** The first loop of a round queues each node it generates, once. */
  lemma {:induction false} PassedQueues(start: Board, src: MoveSource, arena0: seq<Node>, best0: multiset<nat>,
                                        visited0: map<Grid, nat>, open: seq<nat>)
    requires OpenIn(arena0, open)
    ensures var r := Passed(start, src, arena0, best0, visited0, open);
      |arena0| <= |r.0| && |r.1| == |best0| + (|r.0| - |arena0|)
    decreases |open|
  {
    if open != [] {
      var n := |open| - 1;
      var init := open[..n];
      assert OpenIn(arena0, init) by {
        assert forall j :: 0 <= j < n ==> init[j] == open[j];
      }
      PassedQueues(start, src, arena0, best0, visited0, init);
      PassedGrows(start, src, arena0, best0, visited0, init);
      var (a, b, v) := Passed(start, src, arena0, best0, visited0, init);
      var x := open[n];
      assert a[x] == a[..|arena0|][x] == arena0[x];
      PassedStep(start, src, arena0, best0, visited0, open, n, a, b, v);
      assert open[..n + 1] == open;
    }
  }

  /** The keys of the open nodes. */
  ghost function OpenKeys(arena: seq<Node>, open: seq<nat>): set<Grid> {
    set j | 0 <= j < |open| && open[j] < |arena| :: arena[open[j]].board.grid
  }

  /** The keys of a non-empty open list are those of all but its last node
      and the last node's. */
  lemma OpenKeysSnoc(arena: seq<Node>, open: seq<nat>)
    requires open != [] && open[|open| - 1] < |arena|
    ensures OpenKeys(arena, open) == OpenKeys(arena, open[..|open| - 1]) + {arena[open[|open| - 1]].board.grid}
  {
    var n := |open| - 1;
    var init := open[..n];
    forall g | g in OpenKeys(arena, open) ensures g in OpenKeys(arena, init) + {arena[open[n]].board.grid} {
      var j :| 0 <= j < |open| && open[j] < |arena| && g == arena[open[j]].board.grid;
      if j < n { assert init[j] == open[j]; }
    }
    forall g | g in OpenKeys(arena, init) ensures g in OpenKeys(arena, open) {
      var j :| 0 <= j < n && init[j] < |arena| && g == arena[init[j]].board.grid;
      assert init[j] == open[j];
    }
  }

  /** The visited map after the first loop of a round: each open node, in
      list order, is recorded under its key unless the key is recorded
      already, so a key new to the round is recorded with its first open node. */
  ghost function Visits(arena: seq<Node>, visited: map<Grid, nat>, open: seq<nat>): map<Grid, nat>
    decreases |open|
  {
    if open == [] then visited
    else
      var v := Visits(arena, visited, open[..|open| - 1]);
      var x := open[|open| - 1];
      if x < |arena| && arena[x].board.grid !in v then v[arena[x].board.grid := x] else v
  }

  /** The visited map of the first loop, as Passed computes it, is Visits. */
  lemma {:induction false} PassedVisits(start: Board, src: MoveSource, arena0: seq<Node>, best0: multiset<nat>,
                                        visited0: map<Grid, nat>, open: seq<nat>)
    requires OpenIn(arena0, open)
    ensures Passed(start, src, arena0, best0, visited0, open).2 == Visits(arena0, visited0, open)
    decreases |open|
  {
    if open != [] {
      var n := |open| - 1;
      var init := open[..n];
      assert OpenIn(arena0, init) by {
        assert forall j :: 0 <= j < n ==> init[j] == open[j];
      }
      PassedVisits(start, src, arena0, best0, visited0, init);
      PassedGrows(start, src, arena0, best0, visited0, init);
      var (a, b, v) := Passed(start, src, arena0, best0, visited0, init);
      var x := open[n];
      assert a[x] == a[..|arena0|][x] == arena0[x];
      PassedStep(start, src, arena0, best0, visited0, open, n, a, b, v);
      assert open[..n + 1] == open;
    }
  }

  /** After the first loop of a round the visited keys are those before and
      the keys of the open nodes, and every earlier record is kept. */
  lemma {:induction false} VisitsKeys(arena: seq<Node>, visited: map<Grid, nat>, open: seq<nat>)
    requires forall j :: 0 <= j < |open| ==> open[j] < |arena|
    ensures Visits(arena, visited, open).Keys == visited.Keys + OpenKeys(arena, open)
    ensures forall key :: key in visited ==> Visits(arena, visited, open)[key] == visited[key]
    decreases |open|
  {
    if open != [] {
      var n := |open| - 1;
      var init := open[..n];
      assert forall j :: 0 <= j < n ==> init[j] == open[j];
      VisitsKeys(arena, visited, init);
      OpenKeysSnoc(arena, open);
    }
  }

  /** The state of the first loop of a round after the open nodes before
      index i were taken care of. */
  ghost predicate Passing(start: Board, rootMove: Option<Move>, src: MoveSource,
                          arena0: seq<Node>, best0: multiset<nat>, nodes0: int, open: seq<nat>, i: int,
                          arena: seq<Node>, best: multiset<nat>, visited: map<Grid, nat>, at: map<Grid, nat>, nodes: int)
  {
    && 0 <= i <= |open|
    && Steady(start, rootMove, src, arena, best + multiset(open[i..]), visited) && Stamped(arena, visited, at)
    && nodes == |arena| - 1 && nodes0 <= nodes && |best| == |best0| + (nodes - nodes0)
    && nodes <= nodes0 + 4 * i && nodes <= 4 * |visited|
    && |arena0| <= |arena| && arena[..|arena0|] == arena0 && Goal !in visited
    && (forall j :: 0 <= j < |open| ==> open[j] < |arena0| && arena0[open[j]].board.grid != Goal)
  }

  /** The open nodes from i on are node i and those after it. */
  lemma OpenSplit(best: multiset<nat>, open: seq<nat>, i: int)
    requires 0 <= i < |open|
    ensures best + multiset(open[i..]) == best + multiset{open[i]} + multiset(open[i + 1..])
  {
    assert open[i..] == [open[i]] + open[i + 1..];
  }

  /** Takes care of open node i: visits and expands it when its key is new. */
  method PassStep(start: Board, rootMove: Option<Move>, src: MoveSource,
                  ghost arena0: seq<Node>, ghost best0: multiset<nat>, ghost visited0: map<Grid, nat>, ghost nodes0: int,
                  open: seq<nat>, i: int,
                  arena1: seq<Node>, best1: multiset<nat>, visited1: map<Grid, nat>, ghost at1: map<Grid, nat>, nodes1: int)
    returns (arena: seq<Node>, best: multiset<nat>, visited: map<Grid, nat>, ghost at: map<Grid, nat>, nodes: int)
    requires Passing(start, rootMove, src, arena0, best0, nodes0, open, i, arena1, best1, visited1, at1, nodes1)
    requires i < |open|
    requires (arena1, best1, visited1) == Passed(start, src, arena0, best0, visited0, open[..i])
    ensures Passing(start, rootMove, src, arena0, best0, nodes0, open, i + 1, arena, best, visited, at, nodes)
    ensures var x := open[i]; var key := arena1[x].board.grid;
      if key in visited1 then arena == arena1 && best == best1 && visited == visited1
      else && visited == visited1[key := x]
           && arena == arena1 + Children(H2, arena1[x], x, TriedMoves(src, start, arena1[x].board), visited)
           && best == best1 + Fresh(|arena1|, |arena|)
    ensures (arena, best, visited) == Passed(start, src, arena0, best0, visited0, open[..i + 1])
  {
    var x := open[i];
    ghost var held := multiset(open[i + 1..]);
    OpenSplit(best1, open, i);
    assert arena1[x] == arena0[x];
    if arena1[x].board.grid !in visited1 {
      arena, best, visited, at, nodes := Visit(start, rootMove, src, arena1, best1, held, visited1, at1, nodes1, x);
      PassVisited(start, rootMove, src, arena0, best0, nodes0, open, i, arena1, best1, visited1, at1, nodes1,
                  arena, best, visited, at, nodes);
    } else {
      SkipOpen(start, rootMove, src, arena1, best1, held, visited1, x);
      arena, best, visited, at, nodes := arena1, best1, visited1, at1, nodes1;
    }
    PassedStep(start, src, arena0, best0, visited0, open, i, arena1, best1, visited1);
  }

  /** Visiting open node i keeps the state of the first loop. */
  lemma PassVisited(start: Board, rootMove: Option<Move>, src: MoveSource,
                    arena0: seq<Node>, best0: multiset<nat>, nodes0: int, open: seq<nat>, i: int,
                    arena1: seq<Node>, best1: multiset<nat>, visited1: map<Grid, nat>, at1: map<Grid, nat>, nodes1: int,
                    arena: seq<Node>, best: multiset<nat>, visited: map<Grid, nat>, at: map<Grid, nat>, nodes: int)
    requires Passing(start, rootMove, src, arena0, best0, nodes0, open, i, arena1, best1, visited1, at1, nodes1)
    requires i < |open|
    requires Steady(start, rootMove, src, arena, best + multiset(open[i + 1..]), visited) && Stamped(arena, visited, at)
    requires nodes == |arena| - 1 && nodes1 <= nodes <= nodes1 + 4 && |best| == |best1| + (nodes - nodes1)
    requires |visited| == |visited1| + 1
    requires |arena1| <= |arena| && arena[..|arena1|] == arena1 && Goal !in visited
    ensures Passing(start, rootMove, src, arena0, best0, nodes0, open, i + 1, arena, best, visited, at, nodes)
  {
    PrefixOfPrefix(arena0, arena1, arena);
  }

  /** A prefix of a prefix is a prefix. */
  lemma PrefixOfPrefix(a0: seq<Node>, a1: seq<Node>, a: seq<Node>)
    requires |a0| <= |a1| <= |a| && a1[..|a0|] == a0 && a[..|a1|] == a1
    ensures a[..|a0|] == a0
  {
    assert a[..|a0|] == a[..|a1|][..|a0|];
  }

  /** The first loop of a round: every open node whose key is new is
      visited and expanded, in list order. */
  method Pass(start: Board, rootMove: Option<Move>, src: MoveSource,
              arena0: seq<Node>, best0: multiset<nat>, visited0: map<Grid, nat>, ghost at0: map<Grid, nat>,
              nodes0: int, open: seq<nat>)
    returns (arena: seq<Node>, best: multiset<nat>, visited: map<Grid, nat>, ghost at: map<Grid, nat>, nodes: int)
    requires Steady(start, rootMove, src, arena0, best0 + multiset(open), visited0) && Stamped(arena0, visited0, at0)
    requires nodes0 == |arena0| - 1 && Goal !in visited0 && nodes0 <= 4 * |visited0|
    requires forall j :: 0 <= j < |open| ==> open[j] < |arena0| && arena0[open[j]].board.grid != Goal
    ensures Steady(start, rootMove, src, arena, best, visited) && Stamped(arena, visited, at)
    ensures nodes == |arena| - 1 && Goal !in visited
    ensures nodes0 <= nodes <= nodes0 + 4 * |open| && nodes <= 4 * |visited|
    ensures |best| == |best0| + (nodes - nodes0)
    ensures (arena, best, visited) == Passed(start, src, arena0, best0, visited0, open)
    ensures visited == Visits(arena0, visited0, open)
  {
    arena, best, visited, at, nodes := arena0, best0, visited0, at0, nodes0;
    PassingStart(start, rootMove, src, arena0, best0, visited0, at0, nodes0, open);
    for i := 0 to |open|
      invariant Passing(start, rootMove, src, arena0, best0, nodes0, open, i, arena, best, visited, at, nodes)
      invariant (arena, best, visited) == Passed(start, src, arena0, best0, visited0, open[..i])
    {
      arena, best, visited, at, nodes := PassStep(start, rootMove, src, arena0, best0, visited0, nodes0, open, i,
                                                  arena, best, visited, at, nodes);
    }
    PassingEnd(start, rootMove, src, arena0, best0, visited0, nodes0, open, arena, best, visited, at, nodes);
  }

  lemma PassingStart(start: Board, rootMove: Option<Move>, src: MoveSource,
                     arena0: seq<Node>, best0: multiset<nat>, visited0: map<Grid, nat>, at0: map<Grid, nat>,
                     nodes0: int, open: seq<nat>)
    requires Steady(start, rootMove, src, arena0, best0 + multiset(open), visited0) && Stamped(arena0, visited0, at0)
    requires nodes0 == |arena0| - 1 && Goal !in visited0 && nodes0 <= 4 * |visited0|
    requires forall j :: 0 <= j < |open| ==> open[j] < |arena0| && arena0[open[j]].board.grid != Goal
    ensures Passing(start, rootMove, src, arena0, best0, nodes0, open, 0, arena0, best0, visited0, at0, nodes0)
    ensures (arena0, best0, visited0) == Passed(start, src, arena0, best0, visited0, open[..0])
  {
    assert open[..0] == [];
    assert open[0..] == open;
    assert arena0[..|arena0|] == arena0;
  }

  lemma PassingEnd(start: Board, rootMove: Option<Move>, src: MoveSource,
                   arena0: seq<Node>, best0: multiset<nat>, visited0: map<Grid, nat>, nodes0: int, open: seq<nat>,
                   arena: seq<Node>, best: multiset<nat>, visited: map<Grid, nat>, at: map<Grid, nat>, nodes: int)
    requires Passing(start, rootMove, src, arena0, best0, nodes0, open, |open|, arena, best, visited, at, nodes)
    requires Steady(start, rootMove, src, arena0, best0 + multiset(open), visited0)
    requires (arena, best, visited) == Passed(start, src, arena0, best0, visited0, open[..|open|])
    ensures Steady(start, rootMove, src, arena, best, visited) && Stamped(arena, visited, at)
    ensures nodes == |arena| - 1 && Goal !in visited
    ensures nodes0 <= nodes <= nodes0 + 4 * |open| && nodes <= 4 * |visited|
    ensures |best| == |best0| + (nodes - nodes0)
    ensures (arena, best, visited) == Passed(start, src, arena0, best0, visited0, open)
    ensures visited == Visits(arena0, visited0, open)
  {
    assert best + multiset(open[|open|..]) == best;
    assert open[..|open|] == open;
    assert OpenIn(arena0, open);
    PassedVisits(start, src, arena0, best0, visited0, open);
  }

  /** Open node j is the last goal node of the open list. */
  ghost predicate LastGoal(arena: seq<Node>, open: seq<nat>, j: int) {
    && 0 <= j < |open| && open[j] < |arena| && arena[open[j]].board.grid == Goal
    && forall j' :: j < j' < |open| ==> open[j'] < |arena| && arena[open[j']].board.grid != Goal
  }

  /** Some open node has the goal's key. */
  ghost predicate HasGoal(arena: seq<Node>, open: seq<nat>) {
    exists j :: 0 <= j < |open| && open[j] < |arena| && arena[open[j]].board.grid == Goal
  }

  /** The queue side of the second loop of a round: what was polled and
      what is left make up the queue the loop started from, and each polled
      node was a least element of what was left when it was polled. */
  ghost predicate Taking(arena: seq<Node>, best0: multiset<nat>, k: int, open: seq<nat>, best: multiset<nat>) {
    && |open| <= (if k < 0 then 0 else k)
    && best + multiset(open) == best0 && Frontier(arena, best)
    && (forall j :: 0 <= j < |open| ==> open[j] < |arena|)
    && (forall j :: 0 <= j < |open| ==> IsMin(arena, best0 - multiset(open[..j]), open[j]))
  }

  /** The record side of the second loop: the flag says whether a goal
      node was polled, and the last one polled is the goal's visited node. */
  ghost predicate Recording(arena: seq<Node>, visited0: map<Grid, nat>, open: seq<nat>,
                            visited: map<Grid, nat>, solved: bool, last: int)
  {
    && Indexed(arena, visited)
    && (solved <==> HasGoal(arena, open))
    && (!solved ==> visited == visited0)
    && (solved ==> LastGoal(arena, open, last) && visited == visited0[Goal := open[last]])
  }

  /** The polled node is a least element of what is left in the queue. */
  lemma TakeOrder(arena: seq<Node>, best0: multiset<nat>, best: multiset<nat>, open: seq<nat>, x: nat)
    requires best + multiset(open) == best0 && IsMin(arena, best, x)
    requires forall j :: 0 <= j < |open| ==> IsMin(arena, best0 - multiset(open[..j]), open[j])
    ensures (best - multiset{x}) + multiset(open + [x]) == best0
    ensures forall j :: 0 <= j < |open + [x]| ==> IsMin(arena, best0 - multiset((open + [x])[..j]), (open + [x])[j])
  {
    var o := open + [x];
    assert o[..|open|] == open;
    assert best0 - multiset(open) == best;
    forall j | 0 <= j < |o| ensures IsMin(arena, best0 - multiset(o[..j]), o[j]) {
      if j < |open| {
        assert o[..j] == open[..j];
      }
    }
  }

  /** The solved flag and the last goal node follow the polled node. */
  lemma TakeGoal(arena: seq<Node>, open: seq<nat>, solved: bool, last: int, x: nat)
    requires x < |arena|
    requires (solved <==> HasGoal(arena, open)) && (solved ==> LastGoal(arena, open, last))
    ensures var g := arena[x].board.grid == Goal;
      && (solved || g <==> HasGoal(arena, open + [x]))
      && (solved || g ==> LastGoal(arena, open + [x], if g then |open| else last))
  {
    var o := open + [x];
    if arena[x].board.grid == Goal {
      assert LastGoal(arena, o, |open|);
      assert o[|open|] == x;
    } else {
      if HasGoal(arena, o) {
        var j :| 0 <= j < |o| && o[j] < |arena| && arena[o[j]].board.grid == Goal;
        assert j < |open| && o[j] == open[j];
      }
      if HasGoal(arena, open) {
        var j :| 0 <= j < |open| && open[j] < |arena| && arena[open[j]].board.grid == Goal;
        assert o[j] == open[j];
      }
      if solved {
        assert forall j' :: last < j' < |o| ==> (j' < |open| && o[j'] == open[j']) || j' == |open|;
      }
    }
  }

  /** Recording a key a second time replaces the first record. */
  lemma Overwrite(m: map<Grid, nat>, g: Grid, a: nat, b: nat)
    ensures m[g := a][g := b] == m[g := b]
  {
    var l, r := m[g := a][g := b], m[g := b];
    assert l.Keys == r.Keys;
    assert forall key :: key in l ==> l[key] == r[key];
  }

  /** Moving the polled node x to the open list keeps the queue side. */
  lemma TakeQueue(arena: seq<Node>, best0: multiset<nat>, k: int, open: seq<nat>, best: multiset<nat>, x: nat)
    requires Taking(arena, best0, k, open, best) && |open| < k && IsMin(arena, best, x)
    ensures Taking(arena, best0, k, open + [x], best - multiset{x})
  {
    TakeOrder(arena, best0, best, open, x);
    assert forall j :: 0 <= j < |open + [x]| ==> (open + [x])[j] < |arena|;
  }

  /** Polling node x keeps the record side. */
  lemma TakeRecord(arena: seq<Node>, visited0: map<Grid, nat>, open: seq<nat>,
                   visited: map<Grid, nat>, solved: bool, last: int, x: nat)
    requires Recording(arena, visited0, open, visited, solved, last) && x < |arena|
    ensures var g := arena[x].board.grid == Goal;
      Recording(arena, visited0, open + [x], if g then visited[Goal := x] else visited,
                solved || g, if g then |open| else last)
  {
    TakeGoal(arena, open, solved, last, x);
    if arena[x].board.grid == Goal {
      if solved {
        Overwrite(visited0, Goal, open[last], x);
      }
      assert (open + [x])[|open|] == x;
    }
  }

  /** The second loop of a round: polls up to k nodes into the open list;
      a polled goal node sets the solved flag and becomes the goal's
      visited node (the last one polled, if several). */
  method Extract(arena: seq<Node>, best0: multiset<nat>, visited0: map<Grid, nat>, k: int)
    returns (open: seq<nat>, best: multiset<nat>, visited: map<Grid, nat>, solved: bool)
    requires Frontier(arena, best0) && Indexed(arena, visited0)
    ensures best + multiset(open) == best0
    ensures |open| <= (if k < 0 then 0 else k) && (|open| < k ==> best == multiset{})
    ensures forall i :: 0 <= i < |open| ==> IsMin(arena, best0 - multiset(open[..i]), open[i])
    ensures Frontier(arena, best) && (forall j :: 0 <= j < |open| ==> open[j] < |arena|)
    ensures Indexed(arena, visited)
    ensures solved <==> HasGoal(arena, open)
    ensures !solved ==> visited == visited0
    ensures solved ==> exists j :: LastGoal(arena, open, j) && visited == visited0[Goal := open[j]]
  {
    open, best, visited, solved := [], best0, visited0, false;
    ghost var last := -1;
    assert Recording(arena, visited0, open, visited, solved, last);
    while |best| > 0 && |open| < k
      invariant Taking(arena, best0, k, open, best)
      invariant Recording(arena, visited0, open, visited, solved, last)
      decreases |best|
    {
      var x, rest := Poll(arena, best);
      TakeQueue(arena, best0, k, open, best, x);
      TakeRecord(arena, visited0, open, visited, solved, last, x);
      if arena[x].board.grid == Goal {
        solved := true;
        visited := visited[Goal := x];
        last := |open|;
      }
      open := open + [x];
      best := rest;
    }
  }

  /** The loop invariant of the rounds. */
  ghost predicate RoundInv(start: Board, rootMove: Option<Move>, src: MoveSource, k: int,
                           arena: seq<Node>, best: multiset<nat>, open: seq<nat>,
                           visited: map<Grid, nat>, at: map<Grid, nat>, nodes: int, solved: bool)
  {
    && SearchTree(start, rootMove, H2, arena) && Indexed(arena, visited) && Drawn(arena, Allowed(src, start))
    && Stamped(arena, visited, at)
    && nodes == |arena| - 1 && nodes <= 4 * |visited| && start.grid != Goal
    && |open| <= (if k < 1 then 1 else k)
    && Frontier(arena, best) && (forall j :: 0 <= j < |open| ==> open[j] < |arena|)
    && (solved <==> Goal in visited)
    && (!solved ==> Steady(start, rootMove, src, arena, best + multiset(open), visited)
                    && forall j :: 0 <= j < |open| ==> arena[open[j]].board.grid != Goal)
    && (k >= 1 && open == [] ==> best == multiset{})
  }

  /** One round: visit the open list, clear it, refill it from the queue.
      pool is the queue and passed the visited map between the two loops. */
  method Round(start: Board, rootMove: Option<Move>, src: MoveSource, k: int,
               arena0: seq<Node>, best0: multiset<nat>, open0: seq<nat>, visited0: map<Grid, nat>,
               ghost at0: map<Grid, nat>, nodes0: int)
    returns (arena: seq<Node>, best: multiset<nat>, open: seq<nat>, visited: map<Grid, nat>,
             ghost at: map<Grid, nat>, nodes: int, solved: bool, pool: multiset<nat>, passed: map<Grid, nat>)
    requires RoundInv(start, rootMove, src, k, arena0, best0, open0, visited0, at0, nodes0, false) && open0 != []
    ensures RoundInv(start, rootMove, src, k, arena, best, open, visited, at, nodes, solved)
    ensures nodes0 <= nodes <= nodes0 + 4 * |open0| && (nodes == nodes0 ==> |best| + |open| < |best0| + |open0|)
    ensures (arena, pool, passed) == Passed(start, src, arena0, best0, visited0, open0)
    ensures passed == Visits(arena0, visited0, open0)
    ensures best + multiset(open) == pool
    ensures |open| <= (if k < 0 then 0 else k) && (|open| < k ==> best == multiset{})
    ensures forall i :: 0 <= i < |open| ==> IsMin(arena, pool - multiset(open[..i]), open[i])
    ensures solved <==> HasGoal(arena, open)
    ensures !solved ==> visited == passed
    ensures solved ==> exists j :: LastGoal(arena, open, j) && visited == passed[Goal := open[j]]
  {
    arena, pool, passed, at, nodes := Pass(start, rootMove, src, arena0, best0, visited0, at0, nodes0, open0);
    open, best, visited, solved := Extract(arena, pool, passed, k);
    if solved {
      ghost var j :| LastGoal(arena, open, j) && visited == passed[Goal := open[j]];
      RecordStamped(arena, passed, at, open[j]);
      at := at[Goal := |arena|];
    }
  }

  /** With the blank starting in the top-left corner, the source's beam
      search only moves it down or right, so a node's row plus column is
      its depth. */
  lemma {:induction false} CornerDepth(start: Board, rootMove: Option<Move>, arena: seq<Node>, i: nat)
    requires SearchTree(start, rootMove, H2, arena) && Drawn(arena, Allowed(StartMoves, start))
    requires start.r == 0 && start.c == 0 && i < |arena|
    ensures arena[i].board.r + arena[i].board.c == Depth(arena, i)
    decreases i
  {
    if i > 0 {
      var p := arena[i].parent.value;
      assert FromParent(arena, i);
      CornerDepth(start, rootMove, arena, p);
    }
  }

  /** From a canonical start with the blank in the top-left corner, the
      source's beam search never visits the goal: the goal has its blank
      there too, which only the root (depth 0) can have. */
  lemma CornerStartNeverSolved(start: Board, rootMove: Option<Move>, arena: seq<Node>, visited: map<Grid, nat>)
    requires SearchTree(start, rootMove, H2, arena) && Indexed(arena, visited)
    requires Drawn(arena, Allowed(StartMoves, start))
    requires Canonical(start) && start.r == 0 && start.c == 0 && start.grid != Goal
    ensures Goal !in visited
  {
    if Goal in visited {
      var i := visited[Goal];
      TreeCanonical(start, rootMove, H2, arena, i);
      CornerDepth(start, rootMove, arena, i);
    }
  }

  /** A solvable start with the blank in the top-left corner:
      blank down, right, up, left reaches the goal. */
  const CornerStart: Board := Board([0, 4, 2, 1, 3, 5, 6, 7, 8], 0, 0)

  lemma CornerStartCanonical()
    ensures Canonical(CornerStart) && CornerStart.r == 0 && CornerStart.c == 0 && CornerStart.grid != Goal
  {
    var g := CornerStart.grid;
    assert g[1] != Goal[1];
    forall k | 0 <= k < 9 ensures g[k] == 0 <==> k == 0 {
      assert g[k] == [0, 4, 2, 1, 3, 5, 6, 7, 8][k];
    }
  }

  lemma CornerStartSolvable()
    ensures Legal(CornerStart, [Down, Right, Up, Left])
    ensures Replay(CornerStart, [Down, Right, Up, Left]).grid == Goal
  {
    var b1 := Step(CornerStart, Down);
    assert b1 == Board([1, 4, 2, 0, 3, 5, 6, 7, 8], 1, 0);
    var b2 := Step(b1, Right);
    assert b2 == Board([1, 4, 2, 3, 0, 5, 6, 7, 8], 1, 1);
    var b3 := Step(b2, Up);
    assert b3 == Board([1, 0, 2, 3, 4, 5, 6, 7, 8], 0, 1);
    var b4 := Step(b3, Left);
    assert b4 == SolvedBoard;
    assert [Down, Right, Up, Left][1..] == [Right, Up, Left];
    assert [Right, Up, Left][1..] == [Up, Left];
    assert [Up, Left][1..] == [Left];
    assert [Left][1..] == [];
  }

  /** The source's beam search misses a solvable start: from CornerStart
      whatever tree it grows never reaches the goal, yet four moves do. */
  lemma AsWrittenMissesCornerStart(rootMove: Option<Move>, arena: seq<Node>, visited: map<Grid, nat>)
    requires SearchTree(CornerStart, rootMove, H2, arena) && Indexed(arena, visited)
    requires Drawn(arena, Allowed(StartMoves, CornerStart))
    ensures Goal !in visited
    ensures Replay(CornerStart, [Down, Right, Up, Left]).grid == Goal
  {
    CornerStartCanonical();
    CornerStartSolvable();
    CornerStartNeverSolved(CornerStart, rootMove, arena, visited);
  }

  /** The rounds of the search from a start that is not the goal, until
      the open list is empty, a goal node was polled or the budget is spent. */
  method Rounds(start: Board, rootMove: Option<Move>, src: MoveSource, k: int, maxNodes: int)
    returns (arena: seq<Node>, best: multiset<nat>, open: seq<nat>, visited: map<Grid, nat>,
             ghost at: map<Grid, nat>, nodes: int, solved: bool)
    requires WellFormed(start) && InRange(start.grid) && start.grid != Goal
    ensures RoundInv(start, rootMove, src, k, arena, best, open, visited, at, nodes, solved)
    ensures open == [] || solved || nodes > maxNodes
    ensures nodes <= (if maxNodes < 0 then 0 else maxNodes) + 4 * (if k < 1 then 1 else k)
  {
    arena := [Node(start, rootMove, 0, None)];
    best, open, visited, at, nodes, solved := multiset{}, [0], map[], map[], 0, false;
    assert best + multiset(open) == multiset{0};
    assert Keys(arena, multiset{0}) == {start.grid};
    while open != [] && !solved && nodes <= maxNodes
      invariant RoundInv(start, rootMove, src, k, arena, best, open, visited, at, nodes, solved)
      invariant nodes <= (if maxNodes < 0 then 0 else maxNodes) + 4 * (if k < 1 then 1 else k)
      decreases if nodes <= maxNodes then maxNodes + 1 - nodes else 0, |best| + |open|
    {
      var pool, passed;
      arena, best, open, visited, at, nodes, solved, pool, passed := Round(start, rootMove, src, k, arena, best, open, visited, at, nodes);
    }
  }

  /** Rounds that stop with an empty open list and a beam width of at
      least one have emptied the queue: no path of allowed moves from a
      canonical start reaches the goal. */
  lemma DriedUp(start: Board, rootMove: Option<Move>, src: MoveSource, k: int,
                arena: seq<Node>, best: multiset<nat>, visited: map<Grid, nat>, at: map<Grid, nat>, nodes: int)
    requires RoundInv(start, rootMove, src, k, arena, best, [], visited, at, nodes, false)
    requires k >= 1 && Canonical(start)
    ensures forall p :: (forall j :: 0 <= j < |p| ==> p[j] in Allowed(src, start)) ==> Replay(start, p).grid != Goal
  {
    assert best + multiset([]) == multiset{};
    assert Keys(arena, multiset{}) == {};
    Unreachable(start, rootMove, H2, Allowed(src, start), arena, visited);
  }

  /** The search proper, from a start that is not the goal: the rounds,
      then the budget test and the path extraction. */
  method Run(start: Board, rootMove: Option<Move>, src: MoveSource, k: int, maxNodes: int)
    returns (res: Outcome, ghost tree: seq<Node>, ghost seen: map<Grid, nat>, ghost at: map<Grid, nat>)
    requires WellFormed(start) && InRange(start.grid) && start.grid != Goal
    ensures SearchTree(start, rootMove, H2, tree) && Indexed(tree, seen) && Drawn(tree, Allowed(src, start))
    ensures Stamped(tree, seen, at)
    ensures res.nodes == |tree| - 1 && res.nodes <= 4 * |seen|
    ensures res.nodes <= (if maxNodes < 0 then 0 else maxNodes) + 4 * (if k < 1 then 1 else k)
    ensures res.BudgetExceeded? <==> res.nodes > maxNodes
    ensures res.Solved? ==> Goal in seen && res.path == PathTo(tree, seen[Goal])
    ensures res.Solved? ==> Legal(start, res.path) && Replay(start, res.path).grid == Goal
    ensures res.NoPath? ==> Goal !in seen
    ensures res.NoPath? && k >= 1 && Canonical(start) ==>
      forall p :: (forall j :: 0 <= j < |p| ==> p[j] in Allowed(src, start)) ==> Replay(start, p).grid != Goal
  {
    var arena, best, open, visited, nodes, solved;
    arena, best, open, visited, at, nodes, solved := Rounds(start, rootMove, src, k, maxNodes);
    tree, seen := arena, visited;
    if nodes > maxNodes {
      res := BudgetExceeded(nodes);
    } else if Goal in visited {
      var path, moves := ExtractPathReversedFirst(arena, visited[Goal]);
      PathReplays(start, rootMove, H2, arena, visited[Goal]);
      res := Solved(path, nodes);
    } else {
      res := NoPath(nodes);
      if k >= 1 && Canonical(start) {
        DriedUp(start, rootMove, src, k, arena, best, visited, at, nodes);
      }
    }
  }

  /** Beam search from the start board with beam width k; rootMove is the
      puzzle object's prevMove.  tree is every node generated, seen the
      visited map when the rounds stopped and at the order in which its
      keys were visited.  A start that is already the goal returns before
      any round, with the visited map still empty; for it, tree is the root
      alone and seen and at are made up to record the root as the goal's
      node, so that the same postconditions can be stated. */
  method Solve(start: Board, rootMove: Option<Move>, src: MoveSource, k: int, maxNodes: int)
    returns (res: Outcome, ghost tree: seq<Node>, ghost seen: map<Grid, nat>, ghost at: map<Grid, nat>)
    requires WellFormed(start) && InRange(start.grid)
    ensures SearchTree(start, rootMove, H2, tree) && Indexed(tree, seen) && Drawn(tree, Allowed(src, start))
    ensures Stamped(tree, seen, at)
    ensures res.nodes == |tree| - 1 && res.nodes <= 4 * |seen|
    ensures res.nodes <= (if maxNodes < 0 then 0 else maxNodes) + 4 * (if k < 1 then 1 else k)
    ensures start.grid == Goal ==> res == Solved([], 0)
    ensures start.grid != Goal ==> (res.BudgetExceeded? <==> res.nodes > maxNodes)
    ensures res.Solved? ==> Goal in seen && res.path == PathTo(tree, seen[Goal])
    ensures res.Solved? ==> Legal(start, res.path) && Replay(start, res.path).grid == Goal
    ensures res.NoPath? ==> Goal !in seen
    ensures res.NoPath? && k >= 1 && Canonical(start) ==>
      forall p :: (forall j :: 0 <= j < |p| ==> p[j] in Allowed(src, start)) ==> Replay(start, p).grid != Goal
    ensures src == NodeMoves && res.NoPath? && k >= 1 && Canonical(start) ==>
      forall p :: Replay(start, p).grid != Goal
    ensures src == StartMoves && Canonical(start) && start.r == 0 && start.c == 0 && start.grid != Goal ==>
      !res.Solved?
  {
    if start.grid == Goal {
      res, tree, seen, at := Solved([], 0), [Node(start, rootMove, 0, None)], map[Goal := 0], map[Goal := 1];
    } else {
      res, tree, seen, at := Run(start, rootMove, src, k, maxNodes);
    }
    if src == StartMoves && Canonical(start) && start.r == 0 && start.c == 0 && start.grid != Goal {
      CornerStartNeverSolved(start, rootMove, tree, seen);
    }
  }
}
