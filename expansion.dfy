/** The expansion step both searches share: a visited node's children are
    queued when their keys are not visited, with value = parent.value -
    h(parent) + 1 + h(child).  Also the bookkeeping that shows, once the
    queue is empty, that the visited keys are closed under legal moves. */
module Expansion {
  import opened Boards
  import opened Heuristics
  import opened Search

  /** The keys of the queued nodes. */
  ghost function Keys(arena: seq<Node>, pq: multiset<nat>): set<Grid> {
    set j | j in pq && j < |arena| :: arena[j].board.grid
  }

  /** Key g was visited or is the key of a queued node. */
  ghost predicate Covered(arena: seq<Node>, pq: multiset<nat>, visited: map<Grid, nat>, g: Grid) {
    g in visited || g in Keys(arena, pq)
  }

  /** Every legal move among the allowed ones (those the search tries)
      from every visited node, except those whose key is in pending (the
      node being expanded), leads to a covered key. */
  ghost predicate Closed(arena: seq<Node>, pq: multiset<nat>, visited: map<Grid, nat>,
                         pending: set<Grid>, allowed: set<Move>) {
    forall k, m {:trigger Step(arena[visited[k]].board, m)} ::
      k in visited && k !in pending && visited[k] < |arena| && WellFormed(arena[visited[k]].board)
      && m in allowed && CanMove(arena[visited[k]].board.r, arena[visited[k]].board.c, m)
      ==> Covered(arena, pq, visited, Step(arena[visited[k]].board, m).grid)
  }

  lemma KeysPop(arena: seq<Node>, pq: multiset<nat>, x: nat)
    requires x in pq && x < |arena|
    ensures Keys(arena, pq) <= Keys(arena, pq - multiset{x}) + {arena[x].board.grid}
  {
    forall g | g in Keys(arena, pq) ensures g in Keys(arena, pq - multiset{x}) + {arena[x].board.grid} {
      var j :| j in pq && j < |arena| && arena[j].board.grid == g;
      if j != x {
        assert j in pq - multiset{x};
      }
    }
  }

  lemma KeysPush(arena: seq<Node>, pq: multiset<nat>, n: Node)
    requires Frontier(arena, pq)
    ensures Keys(arena + [n], pq + multiset{|arena|}) == Keys(arena, pq) + {n.board.grid}
  {
    var a := arena + [n];
    var q := pq + multiset{|arena|};
    forall g | g in Keys(a, q) ensures g in Keys(arena, pq) + {n.board.grid} {
      var j :| j in q && j < |a| && a[j].board.grid == g;
      if j != |arena| {
        assert j in pq && a[j] == arena[j];
      }
    }
    forall g | g in Keys(arena, pq) + {n.board.grid} ensures g in Keys(a, q) {
      if g in Keys(arena, pq) {
        var j :| j in pq && j < |arena| && arena[j].board.grid == g;
        assert j in q && a[j] == arena[j];
      } else {
        assert |arena| in q && a[|arena|] == n;
      }
    }
  }

  /** Appending a node and queueing it keeps obligations met. */
  lemma AfterPush(start: Board, arena: seq<Node>, pq: multiset<nat>, visited: map<Grid, nat>,
                  pending: set<Grid>, allowed: set<Move>, n: Node)
    requires Frontier(arena, pq) && Indexed(arena, visited)
    requires Closed(arena, pq, visited, pending, allowed) && Covered(arena, pq, visited, start.grid)
    ensures Closed(arena + [n], pq + multiset{|arena|}, visited, pending, allowed)
    ensures Covered(arena + [n], pq + multiset{|arena|}, visited, start.grid)
    ensures Keys(arena, pq) <= Keys(arena + [n], pq + multiset{|arena|})
    ensures n.board.grid in Keys(arena + [n], pq + multiset{|arena|})
  {
    KeysPush(arena, pq, n);
    var a := arena + [n];
    forall k | k in visited ensures a[visited[k]] == arena[visited[k]] {
    }
  }

  /** With nothing queued, the visited boards are closed under the allowed
      legal moves; from a canonical start every board a path of allowed
      moves reaches is then a visited one. */
  lemma {:induction false} ClosedReach(start: Board, rootMove: Option<Move>, h: Heuristic, allowed: set<Move>,
                                       arena: seq<Node>, visited: map<Grid, nat>, b: Board, p: seq<Move>)
    requires SearchTree(start, rootMove, h, arena) && Indexed(arena, visited)
    requires Closed(arena, multiset{}, visited, {}, allowed)
    requires forall i :: 0 <= i < |arena| ==> Canonical(arena[i].board)
    requires b.grid in visited && arena[visited[b.grid]].board == b
    requires forall j :: 0 <= j < |p| ==> p[j] in allowed
    ensures Replay(b, p).grid in visited && arena[visited[Replay(b, p).grid]].board == Replay(b, p)
    decreases |p|
  {
    if p != [] {
      var m := p[0];
      var b1 := Step(b, m);
      if CanMove(b.r, b.c, m) {
        assert Covered(arena, multiset{}, visited, b1.grid);
        assert Keys(arena, multiset{}) == {};
        StepKeepsCanonical(b, m);
        CanonicalKeyDetermines(arena[visited[b1.grid]].board, b1);
      }
      ClosedReach(start, rootMove, h, allowed, arena, visited, b1, p[1..]);
    }
  }

  /** A search whose queue ran dry, with the start's key visited and the
      goal's not, proves that no path of allowed moves from a canonical
      start reaches the goal. */
  lemma Unreachable(start: Board, rootMove: Option<Move>, h: Heuristic, allowed: set<Move>,
                    arena: seq<Node>, visited: map<Grid, nat>)
    requires SearchTree(start, rootMove, h, arena) && Indexed(arena, visited)
    requires Closed(arena, multiset{}, visited, {}, allowed)
    requires Canonical(start) && start.grid in visited && Goal !in visited
    ensures forall p :: (forall j :: 0 <= j < |p| ==> p[j] in allowed) ==> Replay(start, p).grid != Goal
  {
    forall i | 0 <= i < |arena| ensures Canonical(arena[i].board) {
      TreeCanonical(start, rootMove, h, arena, i);
    }
    CanonicalKeyDetermines(arena[visited[start.grid]].board, start);
    forall p | forall j :: 0 <= j < |p| ==> p[j] in allowed ensures Replay(start, p).grid != Goal {
      ClosedReach(start, rootMove, h, allowed, arena, visited, start, p);
    }
  }

  /** Queueing the child made by move m from node cur keeps everything the
      expansion loop relies on. */
  lemma PushKeeps(start: Board, rootMove: Option<Move>, h: Heuristic, allowed: set<Move>,
                  arena: seq<Node>, pq: multiset<nat>, visited: map<Grid, nat>, cur: nat, m: Move, n: Node)
    requires SearchTree(start, rootMove, h, arena) && Frontier(arena, pq) && Indexed(arena, visited)
    requires cur < |arena| && CanMove(arena[cur].board.r, arena[cur].board.c, m)
    requires Closed(arena, pq, visited, {arena[cur].board.grid}, allowed) && Covered(arena, pq, visited, start.grid)
    requires n.board == Step(arena[cur].board, m) && n.prevMove == Some(m) && n.parent == Some(cur)
    requires n.value == arena[cur].value - Value(h, arena[cur].board.grid) + 1 + Value(h, n.board.grid)
    ensures SearchTree(start, rootMove, h, arena + [n])
    ensures Frontier(arena + [n], pq + multiset{|arena|}) && Indexed(arena + [n], visited)
    ensures (arena + [n])[..|arena|] == arena
    ensures Closed(arena + [n], pq + multiset{|arena|}, visited, {arena[cur].board.grid}, allowed)
    ensures Covered(arena + [n], pq + multiset{|arena|}, visited, start.grid)
    ensures Keys(arena, pq) <= Keys(arena + [n], pq + multiset{|arena|})
    ensures Covered(arena + [n], pq + multiset{|arena|}, visited, n.board.grid)
  {
    AppendChild(start, rootMove, h, arena, cur, m, n.value);
    AfterPush(start, arena, pq, visited, {arena[cur].board.grid}, allowed, n);
    var a := arena + [n];
    assert Indexed(a, visited) by {
      forall k | k in visited ensures visited[k] < |a| && a[visited[k]].board.grid == k {
        assert a[visited[k]] == arena[visited[k]];
      }
    }
  }

  /** The state of the expansion of node cur (of the arena base it started
      from) after trying the first t moves: the queued children are cur's,
      were made by those moves and have keys that are not visited, every
      visited key but cur's stays closed, and each tried move leads to a
      covered key.  q is the queue together with the indices
      held elsewhere for a later visit (the beam's open list; none for A*). */
  ghost predicate Expanding(start: Board, rootMove: Option<Move>, h: Heuristic, allowed: set<Move>, base: seq<Node>,
                            arena: seq<Node>, q: multiset<nat>, visited: map<Grid, nat>,
                            cur: nat, moves: seq<Move>, t: int)
  {
    && 0 <= t <= |moves| && cur < |base| && WellFormed(base[cur].board)
    && SearchTree(start, rootMove, h, arena) && Frontier(arena, q) && Indexed(arena, visited)
    && |base| <= |arena| && arena[..|base|] == base
    && base[cur].board.grid in visited && visited[base[cur].board.grid] == cur
    && (forall i :: |base| <= i < |arena| ==> arena[i].prevMove.Some? && arena[i].prevMove.value in moves[..t])
    && (forall i :: |base| <= i < |arena| ==> arena[i].parent == Some(cur) && arena[i].board.grid !in visited)
    && Closed(arena, q, visited, {base[cur].board.grid}, allowed) && Covered(arena, q, visited, start.grid)
    && (forall u :: 0 <= u < t ==> Covered(arena, q, visited, Step(base[cur].board, moves[u]).grid))
  }

  /** Queueing the child made by move t keeps the expansion state. */
  lemma PushExpanding(start: Board, rootMove: Option<Move>, h: Heuristic, allowed: set<Move>, base: seq<Node>,
                      arena: seq<Node>, pq: multiset<nat>, held: multiset<nat>, visited: map<Grid, nat>,
                      cur: nat, moves: seq<Move>, t: int, n: Node)
    requires Expanding(start, rootMove, h, allowed, base, arena, pq + held, visited, cur, moves, t) && t < |moves|
    requires CanMove(base[cur].board.r, base[cur].board.c, moves[t])
    requires n.board == Step(base[cur].board, moves[t]) && n.prevMove == Some(moves[t]) && n.parent == Some(cur)
    requires n.value == base[cur].value - Value(h, base[cur].board.grid) + 1 + Value(h, n.board.grid)
    requires n.board.grid !in visited
    ensures Expanding(start, rootMove, h, allowed, base, arena + [n], pq + multiset{|arena|} + held, visited, cur, moves, t + 1)
  {
    var q := pq + held;
    assert arena[cur] == base[cur];
    PushKeeps(start, rootMove, h, allowed, arena, q, visited, cur, moves[t], n);
    CoveredGrows(arena, q, arena + [n], q + multiset{|arena|}, visited, base[cur].board, moves, t);
    MovesGrow(arena, arena + [n], |base|, moves, t);
    ChildrenGrow(arena, arena + [n], |base|, cur, visited);
    assert (arena + [n])[..|base|] == arena[..|base|];
    assert pq + multiset{|arena|} + held == q + multiset{|arena|};
  }

  /** A move whose child's key is visited queues nothing and keeps the state. */
  lemma SkipExpanding(start: Board, rootMove: Option<Move>, h: Heuristic, allowed: set<Move>, base: seq<Node>,
                      arena: seq<Node>, q: multiset<nat>, visited: map<Grid, nat>,
                      cur: nat, moves: seq<Move>, t: int)
    requires Expanding(start, rootMove, h, allowed, base, arena, q, visited, cur, moves, t) && t < |moves|
    requires Step(base[cur].board, moves[t]).grid in visited
    ensures Expanding(start, rootMove, h, allowed, base, arena, q, visited, cur, moves, t + 1)
  {
    assert moves[..t + 1] == moves[..t] + [moves[t]];
    forall i | |base| <= i < |arena| ensures arena[i].prevMove.value in moves[..t + 1] {
      assert arena[i].prevMove.value in moves[..t];
    }
    CoveredGrows(arena, q, arena, q, visited, base[cur].board, moves, t);
  }

  /** One pass of the loop over the moves: the child made by move t is
      queued exactly when its key is not visited, with value = parent.value -
      h(parent) + 1 + h(child).  A refused move leaves the copy equal to the
      visited node, so nothing is queued. */
  method Consider(start: Board, rootMove: Option<Move>, h: Heuristic, ghost allowed: set<Move>, ghost base: seq<Node>,
                  ghost pqBase: multiset<nat>, arena0: seq<Node>, pq0: multiset<nat>, ghost held: multiset<nat>,
                  visited: map<Grid, nat>, nodes0: int, cur: nat, moves: seq<Move>, t: int)
    returns (arena: seq<Node>, pq: multiset<nat>, nodes: int)
    requires Expanding(start, rootMove, h, allowed, base, arena0, pq0 + held, visited, cur, moves, t) && t < |moves|
    requires nodes0 == |arena0| - 1
    requires arena0 == base + Children(h, base[cur], cur, moves[..t], visited)
    requires pq0 == pqBase + Fresh(|base|, |arena0|)
    ensures Expanding(start, rootMove, h, allowed, base, arena, pq + held, visited, cur, moves, t + 1)
    ensures arena == base + Children(h, base[cur], cur, moves[..t + 1], visited)
    ensures pq == pqBase + Fresh(|base|, |arena|)
    ensures nodes == |arena| - 1 && nodes0 <= nodes <= nodes0 + 1 && |pq| == |pq0| + (nodes - nodes0)
    ensures var b := base[cur].board; var child := Step(b, moves[t]);
      if child.grid in visited then arena == arena0 && pq == pq0
      else arena == arena0 + [ChildOf(h, base[cur], moves[t], cur)]
           && pq == pq0 + multiset{|arena0|}
  {
    arena, pq, nodes := arena0, pq0, nodes0;
    assert arena0[cur] == base[cur];
    var b := arena0[cur].board;
    var child := Step(b, moves[t]);
    if child.grid !in visited {
      var n := MakeChild(h, arena0[cur], moves[t], cur);
      PushExpanding(start, rootMove, h, allowed, base, arena0, pq0, held, visited, cur, moves, t, n);
      pq := pq0 + multiset{|arena0|};
      arena := arena0 + [n];
      nodes := nodes0 + 1;
    } else {
      SkipExpanding(start, rootMove, h, allowed, base, arena0, pq0 + held, visited, cur, moves, t);
    }
    ArenaStep(h, base[cur], cur, moves, t, visited, base, arena0, arena);
    FreshStep(pqBase, |base|, arena0, pq0, arena, pq);
  }

  /** The child of node p (index cur) made by move m: its value is the
      parent's depth (value minus h of the parent) plus one, plus h of the child. */
  function ChildOf(h: Heuristic, p: Node, m: Move, cur: nat): Node
    requires WellFormed(p.board) && (h == H2 ==> InRange(p.board.grid))
  {
    var c := Step(p.board, m);
    Node(c, Some(m), p.value - Value(h, p.board.grid) + 1 + Value(h, c.grid), Some(cur))
  }

  /** Builds that child, computing both heuristics the way the source does. */
  method MakeChild(h: Heuristic, p: Node, m: Move, cur: nat) returns (n: Node)
    requires WellFormed(p.board) && (h == H2 ==> InRange(p.board.grid))
    ensures n == ChildOf(h, p, m, cur)
  {
    var child := Step(p.board, m);
    var hp := Evaluate(h, p.board.grid);
    var hc := Evaluate(h, child.grid);
    var depth := p.value - hp + 1;
    n := Node(child, Some(m), depth + hc, Some(cur));
  }

  /** The children node p (index cur) makes with the moves, one per move, in order. */
  function Candidates(h: Heuristic, p: Node, cur: nat, moves: seq<Move>): (cs: seq<Node>)
    requires WellFormed(p.board) && (h == H2 ==> InRange(p.board.grid))
    ensures |cs| == |moves|
    decreases |moves|
  {
    if moves == [] then []
    else Candidates(h, p, cur, moves[..|moves| - 1]) + [ChildOf(h, p, moves[|moves| - 1], cur)]
  }

  /** Candidate u is the child made by move u. */
  lemma {:induction false} CandidateAt(h: Heuristic, p: Node, cur: nat, moves: seq<Move>, u: int)
    requires WellFormed(p.board) && (h == H2 ==> InRange(p.board.grid)) && 0 <= u < |moves|
    ensures Candidates(h, p, cur, moves)[u] == ChildOf(h, p, moves[u], cur)
    decreases |moves|
  {
    var n := |moves| - 1;
    if u < n {
      CandidateAt(h, p, cur, moves[..n], u);
      assert moves[..n][u] == moves[u];
    }
  }

  /** The nodes of cs whose keys are not visited, in order. */
  function Unvisited(cs: seq<Node>, visited: map<Grid, nat>): (us: seq<Node>)
    ensures |us| <= |cs|
    ensures forall n :: n in us <==> n in cs && n.board.grid !in visited
    decreases |cs|
  {
    if cs == [] then []
    else
      var last := cs[|cs| - 1];
      var init := cs[..|cs| - 1];
      assert cs == init + [last];
      Unvisited(init, visited) + (if last.board.grid in visited then [] else [last])
  }

  /** The children queued for the visited node p (index cur) when it tries
      moves in order: one per move whose child's key is not visited, even
      when that key is already queued or is made by an earlier move. */
  function Children(h: Heuristic, p: Node, cur: nat, moves: seq<Move>, visited: map<Grid, nat>): seq<Node>
    requires WellFormed(p.board) && (h == H2 ==> InRange(p.board.grid))
  {
    Unvisited(Candidates(h, p, cur, moves), visited)
  }

  /** Trying one more move adds its child exactly when the child's key is not visited. */
  lemma ChildrenStep(h: Heuristic, p: Node, cur: nat, moves: seq<Move>, t: int, visited: map<Grid, nat>)
    requires WellFormed(p.board) && (h == H2 ==> InRange(p.board.grid)) && 0 <= t < |moves|
    ensures var c := ChildOf(h, p, moves[t], cur);
      Children(h, p, cur, moves[..t + 1], visited)
        == Children(h, p, cur, moves[..t], visited) + (if c.board.grid in visited then [] else [c])
  {
    assert moves[..t + 1][..t] == moves[..t];
    var init := Candidates(h, p, cur, moves[..t]);
    var cs := Candidates(h, p, cur, moves[..t + 1]);
    assert cs == init + [ChildOf(h, p, moves[t], cur)];
    assert cs[..t] == init;
  }

  /** The children are exactly the children made by the moves whose keys
      are not visited, at most one per move. */
  lemma ChildrenAre(h: Heuristic, p: Node, cur: nat, moves: seq<Move>, visited: map<Grid, nat>)
    requires WellFormed(p.board) && (h == H2 ==> InRange(p.board.grid))
    ensures |Children(h, p, cur, moves, visited)| <= |moves|
    ensures forall u :: 0 <= u < |moves| && ChildOf(h, p, moves[u], cur).board.grid !in visited ==>
      ChildOf(h, p, moves[u], cur) in Children(h, p, cur, moves, visited)
    ensures forall n :: n in Children(h, p, cur, moves, visited) ==>
      n.board.grid !in visited && exists u :: 0 <= u < |moves| && n == ChildOf(h, p, moves[u], cur)
  {
    var cs := Candidates(h, p, cur, moves);
    forall u | 0 <= u < |moves| && ChildOf(h, p, moves[u], cur).board.grid !in visited
      ensures ChildOf(h, p, moves[u], cur) in Children(h, p, cur, moves, visited)
    {
      CandidateAt(h, p, cur, moves, u);
      assert cs[u] in cs;
    }
    forall n | n in Children(h, p, cur, moves, visited)
      ensures exists u :: 0 <= u < |moves| && n == ChildOf(h, p, moves[u], cur)
    {
      var u :| 0 <= u < |cs| && cs[u] == n;
      CandidateAt(h, p, cur, moves, u);
    }
  }

  /** The arena indices lo .. hi - 1, each once. */
  function Fresh(lo: nat, hi: nat): (s: multiset<nat>)
    ensures |s| == if lo <= hi then hi - lo else 0
    ensures forall j :: j in s <==> lo <= j < hi
    decreases hi
  {
    if hi <= lo then multiset{} else Fresh(lo, hi - 1) + multiset{hi - 1}
  }

  /** Expands node cur (just visited) with the given moves: queues each
      child whose key is not visited, with the priority the source gives it. */
  method Expand(start: Board, rootMove: Option<Move>, h: Heuristic, ghost allowed: set<Move>,
                arena0: seq<Node>, pq0: multiset<nat>, ghost held: multiset<nat>,
                visited: map<Grid, nat>, nodes0: int, cur: nat, moves: seq<Move>)
    returns (arena: seq<Node>, pq: multiset<nat>, nodes: int)
    requires SearchTree(start, rootMove, h, arena0) && Frontier(arena0, pq0 + held) && Indexed(arena0, visited)
    requires cur < |arena0| && arena0[cur].board.grid in visited && visited[arena0[cur].board.grid] == cur
    requires nodes0 == |arena0| - 1
    requires Closed(arena0, pq0 + held, visited, {arena0[cur].board.grid}, allowed)
    requires Covered(arena0, pq0 + held, visited, start.grid)
    ensures Expanding(start, rootMove, h, allowed, arena0, arena, pq + held, visited, cur, moves, |moves|)
    ensures nodes == |arena| - 1 && nodes0 <= nodes <= nodes0 + |moves|
    ensures arena == arena0 + Children(h, arena0[cur], cur, moves, visited)
    ensures pq == pq0 + Fresh(|arena0|, |arena|)
  {
    arena, pq, nodes := arena0, pq0, nodes0;
    assert arena0[..|arena0|] == arena0;
    assert moves[..0] == [];
    assert Children(h, arena0[cur], cur, moves[..0], visited) == [];
    assert arena0 + [] == arena0;
    var t := 0;
    while t < |moves|
      invariant Expanding(start, rootMove, h, allowed, arena0, arena, pq + held, visited, cur, moves, t)
      invariant nodes == |arena| - 1 && nodes0 <= nodes <= nodes0 + t
      invariant arena == arena0 + Children(h, arena0[cur], cur, moves[..t], visited)
      invariant pq == pq0 + Fresh(|arena0|, |arena|)
    {
      arena, pq, nodes := Consider(start, rootMove, h, allowed, arena0, pq0, arena, pq, held, visited, nodes, cur, moves, t);
      t := t + 1;
    }
    assert moves[..|moves|] == moves;
  }

  /** Consider's outcome for move t extends the arena by that move's children. */
  lemma ArenaStep(h: Heuristic, p: Node, cur: nat, moves: seq<Move>, t: int, visited: map<Grid, nat>,
                  arena0: seq<Node>, arena1: seq<Node>, arena: seq<Node>)
    requires WellFormed(p.board) && (h == H2 ==> InRange(p.board.grid)) && 0 <= t < |moves|
    requires arena1 == arena0 + Children(h, p, cur, moves[..t], visited)
    requires if Step(p.board, moves[t]).grid in visited then arena == arena1
             else arena == arena1 + [ChildOf(h, p, moves[t], cur)]
    ensures arena == arena0 + Children(h, p, cur, moves[..t + 1], visited)
  {
    ChildrenStep(h, p, cur, moves, t, visited);
  }

  /** Appending at most one queued node keeps the queue as the old one plus
      the new indices. */
  lemma FreshStep(pq0: multiset<nat>, lo: nat, arena1: seq<Node>, pq1: multiset<nat>, arena: seq<Node>, pq: multiset<nat>)
    requires lo <= |arena1| && pq1 == pq0 + Fresh(lo, |arena1|)
    requires (arena == arena1 && pq == pq1) || (|arena| == |arena1| + 1 && pq == pq1 + multiset{|arena1|})
    ensures pq == pq0 + Fresh(lo, |arena|)
  {
  }

  /** The nodes queued so far were made by the moves tried so far. */
  lemma MovesGrow(arena0: seq<Node>, arena: seq<Node>, from: int, moves: seq<Move>, t: int)
    requires 0 <= from <= |arena0| <= |arena| <= |arena0| + 1 && arena[..|arena0|] == arena0 && 0 <= t < |moves|
    requires forall i :: from <= i < |arena0| ==> arena0[i].prevMove.Some? && arena0[i].prevMove.value in moves[..t]
    requires |arena| == |arena0| + 1 ==> arena[|arena0|].prevMove == Some(moves[t])
    ensures forall i :: from <= i < |arena| ==> arena[i].prevMove.Some? && arena[i].prevMove.value in moves[..t + 1]
  {
    assert moves[..t + 1] == moves[..t] + [moves[t]];
    forall i | from <= i < |arena| ensures arena[i].prevMove.Some? && arena[i].prevMove.value in moves[..t + 1] {
      if i < |arena0| {
        assert arena[i] == arena0[i];
      }
    }
  }

  /** The nodes queued so far are children of cur with keys that are not visited. */
  lemma ChildrenGrow(arena0: seq<Node>, arena: seq<Node>, from: int, cur: nat, visited: map<Grid, nat>)
    requires 0 <= from <= |arena0| <= |arena| <= |arena0| + 1 && arena[..|arena0|] == arena0
    requires forall i :: from <= i < |arena0| ==> arena0[i].parent == Some(cur) && arena0[i].board.grid !in visited
    requires |arena| == |arena0| + 1 ==> arena[|arena0|].parent == Some(cur) && arena[|arena0|].board.grid !in visited
    ensures forall i :: from <= i < |arena| ==> arena[i].parent == Some(cur) && arena[i].board.grid !in visited
  {
    forall i | from <= i < |arena| ensures arena[i].parent == Some(cur) && arena[i].board.grid !in visited {
      if i < |arena0| {
        assert arena[i] == arena0[i];
      }
    }
  }

  /** Keys covered before a node is queued stay covered. */
  lemma CoveredGrows(arena0: seq<Node>, pq0: multiset<nat>, arena: seq<Node>, pq: multiset<nat>,
                     visited: map<Grid, nat>, b: Board, moves: seq<Move>, t: int)
    requires WellFormed(b) && 0 <= t < |moves|
    requires Keys(arena0, pq0) <= Keys(arena, pq)
    requires forall u :: 0 <= u < t ==> Covered(arena0, pq0, visited, Step(b, moves[u]).grid)
    requires Covered(arena, pq, visited, Step(b, moves[t]).grid)
    ensures forall u :: 0 <= u < t + 1 ==> Covered(arena, pq, visited, Step(b, moves[u]).grid)
  {
  }

  /** Once every allowed legal move of the visited board b has been tried,
      nothing is pending any more. */
  lemma ExpandedCloses(arena: seq<Node>, q: multiset<nat>, visited: map<Grid, nat>, b: Board,
                       allowed: set<Move>, moves: seq<Move>)
    requires WellFormed(b) && b.grid in visited && visited[b.grid] < |arena| && arena[visited[b.grid]].board == b
    requires Closed(arena, q, visited, {b.grid}, allowed)
    requires forall m :: m in allowed && CanMove(b.r, b.c, m) ==> m in moves
    requires forall u :: 0 <= u < |moves| ==> Covered(arena, q, visited, Step(b, moves[u]).grid)
    ensures Closed(arena, q, visited, {}, allowed)
  {
    forall k, m | k in visited && visited[k] < |arena| && WellFormed(arena[visited[k]].board)
        && m in allowed && CanMove(arena[visited[k]].board.r, arena[visited[k]].board.c, m)
      ensures Covered(arena, q, visited, Step(arena[visited[k]].board, m).grid)
    {
      if k == b.grid {
        var u :| 0 <= u < |moves| && moves[u] == m;
      }
    }
  }

  /** Recording the polled node's key as visited keeps every key visited
      before it closed (the polled key is now the pending one). */
  lemma PollVisit(start: Board, allowed: set<Move>, arena: seq<Node>, pq: multiset<nat>, x: nat, visited: map<Grid, nat>)
    requires x in pq && Frontier(arena, pq)
    requires Closed(arena, pq, visited, {}, allowed) && Covered(arena, pq, visited, start.grid)
    ensures Closed(arena, pq - multiset{x}, visited[arena[x].board.grid := x], {arena[x].board.grid}, allowed)
    ensures Covered(arena, pq - multiset{x}, visited[arena[x].board.grid := x], start.grid)
  {
    KeysPop(arena, pq, x);
  }

  lemma IndexedVisit(arena: seq<Node>, visited: map<Grid, nat>, x: nat)
    requires Indexed(arena, visited) && x < |arena|
    ensures Indexed(arena, visited[arena[x].board.grid := x])
  {
  }

  /** The order of the visits: at records, for each visited key, the size
      the arena had when the key was visited.  Each key is visited once and
      keeps the node it was visited with; every node with children is the
      node its key is recorded with, visited before its children were made;
      and no node's key had been visited yet when the node was made. */
  ghost predicate Stamped(arena: seq<Node>, visited: map<Grid, nat>, at: map<Grid, nat>) {
    && at.Keys == visited.Keys
    && (forall k :: k in at ==> visited[k] < at[k] <= |arena|)
    && (forall i :: 0 <= i < |arena| && arena[i].board.grid in at ==> i < at[arena[i].board.grid])
    && (forall i :: 0 <= i < |arena| && arena[i].parent.Some? ==>
          var p := arena[i].parent.value;
          p < |arena| && arena[p].board.grid in visited && visited[arena[p].board.grid] == p
          && at[arena[p].board.grid] <= i)
  }

  /** No key is expanded twice: two nodes with children and the same key
      are the same node. */
  lemma ExpandedOnce(arena: seq<Node>, visited: map<Grid, nat>, at: map<Grid, nat>, i: nat, j: nat, a: nat, b: nat)
    requires Stamped(arena, visited, at) && a < |arena| && b < |arena|
    requires arena[a].parent == Some(i) && arena[b].parent == Some(j)
    requires arena[i].board.grid == arena[j].board.grid
    ensures i == j
  {
  }

  /** A node's key is visited, if ever, only after its parent's key: the
      node was queued while its key was not visited. */
  lemma VisitedAfterParent(arena: seq<Node>, visited: map<Grid, nat>, at: map<Grid, nat>, i: nat)
    requires Stamped(arena, visited, at) && i < |arena| && arena[i].parent.Some?
    requires arena[i].board.grid in visited
    ensures arena[arena[i].parent.value].board.grid in visited
    ensures at[arena[arena[i].parent.value].board.grid] < at[arena[i].board.grid]
  {
  }

  /** Visiting node cur, whose key is new, when the arena has |arena0|
      nodes, and then making children of cur with keys that are not
      visited, keeps the order of the visits. */
  lemma VisitStamped(arena0: seq<Node>, arena: seq<Node>, visited0: map<Grid, nat>, at0: map<Grid, nat>, cur: nat)
    requires Stamped(arena0, visited0, at0) && cur < |arena0| && arena0[cur].board.grid !in visited0
    requires |arena0| <= |arena| && arena[..|arena0|] == arena0
    requires forall i :: |arena0| <= i < |arena| ==>
      arena[i].parent == Some(cur) && arena[i].board.grid !in visited0[arena0[cur].board.grid := cur]
    ensures Stamped(arena, visited0[arena0[cur].board.grid := cur], at0[arena0[cur].board.grid := |arena0|])
  {
    var key := arena0[cur].board.grid;
    var visited, at := visited0[key := cur], at0[key := |arena0|];
    forall i | 0 <= i < |arena| && arena[i].board.grid in at ensures i < at[arena[i].board.grid] {
      if i < |arena0| {
        assert arena[i] == arena0[i];
      }
    }
    forall i | 0 <= i < |arena| && arena[i].parent.Some?
      ensures var p := arena[i].parent.value;
        p < |arena| && arena[p].board.grid in visited && visited[arena[p].board.grid] == p
        && at[arena[p].board.grid] <= i
    {
      if i < |arena0| {
        assert arena[i] == arena0[i];
        var p := arena0[i].parent.value;
        assert arena[p] == arena0[p];
      } else {
        assert arena[cur] == arena0[cur];
      }
    }
  }

  /** Recording a goal node under the goal's key, which was not visited,
      once the arena is complete, keeps the order of the visits. */
  lemma RecordStamped(arena: seq<Node>, visited: map<Grid, nat>, at: map<Grid, nat>, x: nat)
    requires Stamped(arena, visited, at) && Goal !in visited && x < |arena| && arena[x].board.grid == Goal
    ensures Stamped(arena, visited[Goal := x], at[Goal := |arena|])
  {
  }
}
