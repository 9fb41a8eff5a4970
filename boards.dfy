/** Pure view of an 8-puzzle board: the nine tiles read row-major, and the
    row and column the object believes the blank is at.  The object's move
    methods, the searches and the heuristics are all specified over it. */
module Boards {

  datatype Option<T> = None | Some(value: T)

  /** The direction the blank moves in. */
  datatype Move = Up | Down | Left | Right

  /** Row-major tiles; the canonical search key of a board. */
  type Grid = seq<int>

  datatype Board = Board(grid: Grid, r: int, c: int)

  /** The solved key "012345678". */
  const Goal: Grid := [0, 1, 2, 3, 4, 5, 6, 7, 8]

  /** The board a fresh puzzle starts in: solved, blank at (0, 0). */
  const SolvedBoard: Board := Board(Goal, 0, 0)

  predicate WellFormed(b: Board) {
    |b.grid| == 9 && 0 <= b.r < 3 && 0 <= b.c < 3
  }

  /** Position of cell (r, c) in the row-major grid. */
  function Idx(r: int, c: int): int {
    3 * r + c
  }

  /** Every tile is one of 0..8 (what the Manhattan heuristic can index). */
  predicate InRange(g: Grid) {
    |g| == 9 && forall k :: 0 <= k < 9 ==> 0 <= g[k] <= 8
  }

  /** The blank sits at (r, c). */
  predicate BlankAt(b: Board) {
    WellFormed(b) && b.grid[Idx(b.r, b.c)] == 0
  }

  /** The blank sits at (r, c) and nowhere else: the key determines the board. */
  predicate Canonical(b: Board) {
    WellFormed(b) && forall k :: 0 <= k < 9 ==> (b.grid[k] == 0 <==> k == Idx(b.r, b.c))
  }

  /** The move is refused exactly when the blank is on that edge. */
  predicate CanMove(r: int, c: int, m: Move) {
    match m
    case Up => r != 0
    case Down => r != 2
    case Left => c != 0
    case Right => c != 2
  }

  /** Where the blank goes. */
  function Target(r: int, c: int, m: Move): (int, int) {
    match m
    case Up => (r - 1, c)
    case Down => (r + 1, c)
    case Left => (r, c - 1)
    case Right => (r, c + 1)
  }

  function Inverse(m: Move): Move {
    match m
    case Up => Down
    case Down => Up
    case Left => Right
    case Right => Left
  }

  /** The four directions; the set of moves a search that tries every
      legal move draws from. */
  const AllMoves: set<Move> := {Up, Down, Left, Right}

  lemma EveryMove(m: Move)
    ensures m in AllMoves
  {
    match m
    case Up =>
    case Down =>
    case Left =>
    case Right =>
  }

  /** Order in which the moves are listed. */
  function Rank(m: Move): nat {
    match m
    case Up => 0
    case Down => 1
    case Left => 2
    case Right => 3
  }

  /** One move of the blank: a refused move changes nothing; otherwise the
      neighbour's tile is copied onto the blank's cell, 0 is written on the
      neighbour's cell and the blank coordinates follow. */
  function Step(b: Board, m: Move): (b': Board)
    requires WellFormed(b)
    ensures WellFormed(b')
    ensures InRange(b.grid) ==> InRange(b'.grid)
  {
    if !CanMove(b.r, b.c, m) then b
    else
      var (r2, c2) := Target(b.r, b.c, m);
      Board(b.grid[Idx(b.r, b.c) := b.grid[Idx(r2, c2)]][Idx(r2, c2) := 0], r2, c2)
  }

  /** The legal moves, listed up, down, left, right. */
  function ValidMoves(r: int, c: int): (ms: seq<Move>)
    ensures forall m :: m in ms <==> CanMove(r, c, m)
    ensures 2 <= |ms| <= 4
    ensures forall i, j :: 0 <= i < j < |ms| ==> Rank(ms[i]) < Rank(ms[j])
  {
    (if r != 0 then [Up] else []) + (if r != 2 then [Down] else [])
    + (if c != 0 then [Left] else []) + (if c != 2 then [Right] else [])
  }

  /** The board after the moves, first move first. */
  function Replay(b: Board, p: seq<Move>): (e: Board)
    requires WellFormed(b)
    ensures WellFormed(e)
    decreases |p|
  {
    if p == [] then b else Replay(Step(b, p[0]), p[1..])
  }

  /** Every move of the path is allowed where it is made. */
  predicate Legal(b: Board, p: seq<Move>)
    requires WellFormed(b)
    decreases |p|
  {
    p == [] || (CanMove(b.r, b.c, p[0]) && Legal(Step(b, p[0]), p[1..]))
  }

  /** The path that walks a path back: reversed, every move inverted. */
  function InversePath(p: seq<Move>): (q: seq<Move>)
    ensures |q| == |p|
    decreases |p|
  {
    if p == [] then [] else InversePath(p[1..]) + [Inverse(p[0])]
  }

  /** A refused move leaves the board as it is; an accepted move puts the
      blank on the neighbour, gives the vacated cell the neighbour's tile and
      leaves the seven other cells alone. */
  lemma StepEffect(b: Board, m: Move)
    requires WellFormed(b)
    ensures !CanMove(b.r, b.c, m) ==> Step(b, m) == b
    ensures CanMove(b.r, b.c, m) ==>
      var b' := Step(b, m);
      (b'.r, b'.c) == Target(b.r, b.c, m) && b'.grid[Idx(b'.r, b'.c)] == 0
      && b'.grid[Idx(b.r, b.c)] == b.grid[Idx(b'.r, b'.c)]
      && forall k :: 0 <= k < 9 && k != Idx(b.r, b.c) && k != Idx(b'.r, b'.c) ==> b'.grid[k] == b.grid[k]
  {
  }

  /** With the blank where the board says it is, a move only swaps two
      cells: the multiset of tiles is kept and the blank is again at (r, c). */
  lemma StepKeepsTiles(b: Board, m: Move)
    requires BlankAt(b)
    ensures BlankAt(Step(b, m))
    ensures multiset(Step(b, m).grid) == multiset(b.grid)
  {
    if CanMove(b.r, b.c, m) {
      var t := Target(b.r, b.c, m);
      var i: int, j: int := Idx(b.r, b.c), Idx(t.0, t.1);
      var s: seq<int> := b.grid;
      assert s[i := s[j]][j := 0] == s[i := s[j]][j := s[i]];
      SwapKeepsMultiset(s, i, j);
    }
  }

  lemma SwapKeepsMultiset(s: seq<int>, i: int, j: int)
    requires 0 <= i < |s| && 0 <= j < |s|
    ensures multiset(s[i := s[j]][j := s[i]]) == multiset(s)
  {
    if i != j {
      var t := s[i := s[j]];
      assert multiset(t) == multiset(s) - multiset{s[i]} + multiset{s[j]};
      assert multiset(t[j := s[i]]) == multiset(t) - multiset{t[j]} + multiset{s[i]};
    }
  }

  /** Moves keep a canonical board canonical. */
  lemma StepKeepsCanonical(b: Board, m: Move)
    requires Canonical(b)
    ensures Canonical(Step(b, m))
  {
  }

  /** Two canonical boards with the same key are the same board. */
  lemma CanonicalKeyDetermines(b1: Board, b2: Board)
    requires Canonical(b1) && Canonical(b2) && b1.grid == b2.grid
    ensures b1 == b2
  {
    var k := Idx(b1.r, b1.c);
    assert b2.grid[k] == 0;
  }

  /** An accepted move is undone by the opposite move. */
  lemma StepUndo(b: Board, m: Move)
    requires BlankAt(b) && CanMove(b.r, b.c, m)
    ensures var b' := Step(b, m); CanMove(b'.r, b'.c, Inverse(m)) && Step(b', Inverse(m)) == b
  {
    var b' := Step(b, m);
    var b'' := Step(b', Inverse(m));
    assert b''.grid == b.grid;
  }

  lemma {:induction false} ReplayAppend(b: Board, p: seq<Move>, m: Move)
    requires WellFormed(b)
    ensures Replay(b, p + [m]) == Step(Replay(b, p), m)
    ensures Legal(b, p + [m]) <==> Legal(b, p) && CanMove(Replay(b, p).r, Replay(b, p).c, m)
    decreases |p|
  {
    if p == [] {
      assert [m][1..] == [];
    } else {
      assert (p + [m])[0] == p[0];
      assert (p + [m])[1..] == p[1..] + [m];
      ReplayAppend(Step(b, p[0]), p[1..], m);
    }
  }

  lemma {:induction false} ReplayKeepsBlank(b: Board, p: seq<Move>)
    requires BlankAt(b)
    ensures BlankAt(Replay(b, p))
    decreases |p|
  {
    if p != [] {
      StepKeepsTiles(b, p[0]);
      ReplayKeepsBlank(Step(b, p[0]), p[1..]);
    }
  }

  /** Walking a legal path and then its inverse path comes back to the
      starting board (for boards whose blank is at (r, c)). */
  lemma {:induction false} UndoPath(b: Board, p: seq<Move>)
    requires BlankAt(b) && Legal(b, p)
    ensures Legal(Replay(b, p), InversePath(p))
    ensures Replay(Replay(b, p), InversePath(p)) == b
    decreases |p|
  {
    if p != [] {
      var m := p[0];
      var b1 := Step(b, m);
      StepKeepsTiles(b, m);
      UndoPath(b1, p[1..]);
      assert Replay(b, p) == Replay(b1, p[1..]);
      var e := Replay(b, p);
      var q := InversePath(p[1..]);
      assert InversePath(p) == q + [Inverse(m)];
      ReplayAppend(e, q, Inverse(m));
      StepUndo(b, m);
    }
  }
}
