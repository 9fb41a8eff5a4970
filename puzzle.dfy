/** The puzzle object: a 3x3 tile array, the row and column it keeps for
    the blank, and the last move it made.  Moves, setState and randomize
    update it in place; the searches read a snapshot of it (the root of
    their search tree) and leave it alone. */
module Puzzle {
  import opened Boards
  import opened Heuristics
  import opened Search
  import opened Expansion
  import AStar
  import Beam

  /** How solveAStar ends: a search ran, or the heuristic name was neither
      "h1" nor "h2" (the source throws IllegalArgumentException). */
  datatype Answer = Ran(outcome: Outcome) | InvalidHeuristic

  /** setState's argument has three rows of three characters. */
  predicate Shaped(rows: seq<string>) {
    |rows| == 3 && forall i :: 0 <= i < 3 ==> |rows[i]| == 3
  }

  /** The tiles setState reads, row-major: each character less '0'. */
  function Tiles(rows: seq<string>): (t: seq<int>)
    requires Shaped(rows)
    ensures |t| == 9
    ensures forall i, j :: 0 <= i < 3 && 0 <= j < 3 ==> t[Idx(i, j)] == (rows[i][j] as int) - ('0' as int)
  {
    var d := (ch: char) => (ch as int) - ('0' as int);
    [d(rows[0][0]), d(rows[0][1]), d(rows[0][2]), d(rows[1][0]), d(rows[1][1]), d(rows[1][2]),
     d(rows[2][0]), d(rows[2][1]), d(rows[2][2])]
  }

  /** Tile q is refused: it is 9 or repeats an earlier tile. */
  predicate Bad(t: seq<int>, q: int)
    requires 0 <= q < |t|
  {
    t[q] == 9 || t[q] in t[..q]
  }

  /** The index of the first refused tile at or after k, or |t| if none. */
  function FirstBadFrom(t: seq<int>, k: nat): (f: nat)
    requires k <= |t|
    ensures k <= f <= |t|
    ensures f < |t| ==> Bad(t, f)
    ensures forall q :: k <= q < f ==> !Bad(t, q)
    decreases |t| - k
  {
    if k == |t| then |t| else if Bad(t, k) then k else FirstBadFrom(t, k + 1)
  }

  function FirstBad(t: seq<int>): (f: nat)
    ensures f <= |t| && (f < |t| ==> Bad(t, f)) && forall q :: 0 <= q < f ==> !Bad(t, q)
  {
    FirstBadFrom(t, 0)
  }

  /** The last index below n holding tile 0. */
  function LastZero(t: seq<int>, n: nat): (z: Option<nat>)
    requires n <= |t|
    ensures z.Some? ==> z.value < n && t[z.value] == 0 && forall q :: z.value < q < n ==> t[q] != 0
    ensures z.None? ==> forall q :: 0 <= q < n ==> t[q] != 0
  {
    if n == 0 then None else if t[n - 1] == 0 then Some(n - 1) else LastZero(t, n - 1)
  }

  /** No two tiles are equal. */
  predicate Distinct(t: seq<int>) {
    forall p, q :: 0 <= p < q < |t| ==> t[p] != t[q]
  }

  /** The index randomize picks from a list of size n with a draw u of
      Math.random(): the integer part of u * n. */
  function PickIndex(u: real, n: int): (i: int)
    requires 0.0 <= u < 1.0 && 2 <= n <= 4
    ensures 0 <= i < n
  {
    if n == 2 then (u * 2.0).Floor else if n == 3 then (u * 3.0).Floor else (u * 4.0).Floor
  }

  /** Draws of Math.random(), each in [0, 1). */
  predicate Draws(us: seq<real>) {
    forall i :: 0 <= i < |us| ==> 0.0 <= us[i] < 1.0
  }

  /** The legal move randomize picks on board b with the draw u. */
  function Choose(b: Board, u: real): (m: Move)
    requires WellFormed(b) && 0.0 <= u < 1.0
    ensures CanMove(b.r, b.c, m)
  {
    var ms := ValidMoves(b.r, b.c);
    ms[PickIndex(u, |ms|)]
  }

  /** The moves randomize makes from board b with the given draws. */
  function Walk(b: Board, us: seq<real>): (w: seq<Move>)
    requires WellFormed(b) && Draws(us)
    ensures |w| == |us|
    decreases |us|
  {
    if us == [] then [] else [Choose(b, us[0])] + Walk(Step(b, Choose(b, us[0])), us[1..])
  }

  /** The walk from draw i on. */
  lemma WalkFrom(b: Board, us: seq<real>, i: nat)
    requires WellFormed(b) && Draws(us) && i < |us|
    ensures Walk(b, us[i..]) == [Choose(b, us[i])] + Walk(Step(b, Choose(b, us[i])), us[i + 1..])
  {
    assert us[i..][0] == us[i] && us[i..][1..] == us[i + 1..];
  }

  /** One move passes from the rest of a walk to what is done. */
  lemma WalkShift(whole: seq<Move>, done: seq<Move>, m: Move, rest: seq<Move>)
    requires whole == done + ([m] + rest)
    ensures whole == (done + [m]) + rest
  {
  }

  /** Where setState leaves the blank coordinates after writing the first
      n tiles: on the last 0 written, or where they were (r0, c0). */
  predicate BlankAfter(t: seq<int>, n: nat, r: int, c: int, r0: int, c0: int)
    requires n <= |t|
  {
    match LastZero(t, n)
    case Some(p) => Idx(r, c) == p
    case None => r == r0 && c == c0
  }

  /** The tiles among the first k. */
  function Seen(t: seq<int>, k: nat): (s: set<int>)
    requires k <= |t|
    ensures forall v :: v in s <==> v in t[..k]
  {
    set v | v in t[..k]
  }

  lemma SeenStep(t: seq<int>, k: nat)
    requires k < |t|
    ensures Seen(t, k + 1) == Seen(t, k) + {t[k]}
    ensures t[k] in Seen(t, k) <==> t[k] in t[..k]
  {
    assert t[..k + 1] == t[..k] + [t[k]];
  }

  /** Writing tile k extends the written prefix by one. */
  lemma PrefixStep(cells: seq<int>, t: seq<int>, k: nat)
    requires |cells| == |t| && k < |t| && cells[..k] == t[..k]
    ensures cells[k := t[k]][..k + 1] == t[..k + 1]
  {
    assert forall p :: 0 <= p < k ==> cells[p] == t[..k][p];
  }

  class EightPuzzle {
    var grid: array2<int>
    var r: int
    var c: int
    var prevMove: Option<Move>

    ghost predicate Valid()
      reads this
    {
      grid.Length0 == 3 && grid.Length1 == 3 && 0 <= r < 3 && 0 <= c < 3
    }

    /** The tiles row-major: the search key gridToString builds. */
    function Cells(): (s: seq<int>)
      reads this, grid
      requires grid.Length0 == 3 && grid.Length1 == 3
      ensures |s| == 9 && forall i, j :: 0 <= i < 3 && 0 <= j < 3 ==> s[Idx(i, j)] == grid[i, j]
    {
      [grid[0, 0], grid[0, 1], grid[0, 2], grid[1, 0], grid[1, 1], grid[1, 2], grid[2, 0], grid[2, 1], grid[2, 2]]
    }

    /** The object as a board value. */
    function ToBoard(): (b: Board)
      reads this, grid
      requires Valid()
      ensures WellFormed(b) && b.grid == Cells() && b.r == r && b.c == c
    {
      Board(Cells(), r, c)
    }

    /** Writes one cell. */
    method Put(i: int, j: int, v: int)
      requires Valid() && 0 <= i < 3 && 0 <= j < 3
      modifies grid
      ensures Valid() && Cells() == old(Cells())[Idx(i, j) := v]
    {
      grid[i, j] := v;
    }

    /** A new puzzle is solved, with the blank at (0, 0) and no last move. */
    constructor()
      ensures Valid() && fresh(grid)
      ensures ToBoard() == SolvedBoard && prevMove == None
    {
      var g := SolvedGrid();
      grid := g;
      r, c := 0, 0;
      prevMove := None;
    }

    /** The grid {{0, 1, 2}, {3, 4, 5}, {6, 7, 8}}. */
    static method SolvedGrid() returns (g: array2<int>)
      ensures fresh(g) && g.Length0 == 3 && g.Length1 == 3
      ensures [g[0, 0], g[0, 1], g[0, 2], g[1, 0], g[1, 1], g[1, 2], g[2, 0], g[2, 1], g[2, 2]] == Goal
    {
      g := new int[3, 3];
      g[0, 0], g[0, 1], g[0, 2] := 0, 1, 2;
      g[1, 0], g[1, 1], g[1, 2] := 3, 4, 5;
      g[2, 0], g[2, 1], g[2, 2] := 6, 7, 8;
    }

    /** up, down, left and right: a move the blank's edge forbids returns
        false and changes nothing; otherwise the neighbour's tile is copied
        onto (r, c), the blank coordinates move onto the neighbour, 0 is
        written there and the move is recorded. */
    method MoveUp() returns (ok: bool)
      requires Valid()
      modifies this, grid
      ensures Valid() && grid == old(grid)
      ensures ok == CanMove(old(r), old(c), Up)
      ensures ToBoard() == Step(old(ToBoard()), Up)
      ensures prevMove == if ok then Some(Up) else old(prevMove)
    {
      if r == 0 {
        return false;
      }
      Put(r, c, grid[r - 1, c]);
      r := r - 1;
      Put(r, c, 0);
      prevMove := Some(Up);
      ok := true;
    }

    method MoveDown() returns (ok: bool)
      requires Valid()
      modifies this, grid
      ensures Valid() && grid == old(grid)
      ensures ok == CanMove(old(r), old(c), Down)
      ensures ToBoard() == Step(old(ToBoard()), Down)
      ensures prevMove == if ok then Some(Down) else old(prevMove)
    {
      if r == 2 {
        return false;
      }
      Put(r, c, grid[r + 1, c]);
      r := r + 1;
      Put(r, c, 0);
      prevMove := Some(Down);
      ok := true;
    }

    method MoveLeft() returns (ok: bool)
      requires Valid()
      modifies this, grid
      ensures Valid() && grid == old(grid)
      ensures ok == CanMove(old(r), old(c), Left)
      ensures ToBoard() == Step(old(ToBoard()), Left)
      ensures prevMove == if ok then Some(Left) else old(prevMove)
    {
      if c == 0 {
        return false;
      }
      Put(r, c, grid[r, c - 1]);
      c := c - 1;
      Put(r, c, 0);
      prevMove := Some(Left);
      ok := true;
    }

    method MoveRight() returns (ok: bool)
      requires Valid()
      modifies this, grid
      ensures Valid() && grid == old(grid)
      ensures ok == CanMove(old(r), old(c), Right)
      ensures ToBoard() == Step(old(ToBoard()), Right)
      ensures prevMove == if ok then Some(Right) else old(prevMove)
    {
      if c == 2 {
        return false;
      }
      Put(r, c, grid[r, c + 1]);
      c := c + 1;
      Put(r, c, 0);
      prevMove := Some(Right);
      ok := true;
    }

    /** The dispatch randomize makes on the chosen move's name. */
    method Apply(m: Move) returns (ok: bool)
      requires Valid()
      modifies this, grid
      ensures Valid() && grid == old(grid)
      ensures ok == CanMove(old(r), old(c), m)
      ensures ToBoard() == Step(old(ToBoard()), m)
      ensures prevMove == if ok then Some(m) else old(prevMove)
    {
      match m
      case Up => ok := MoveUp();
      case Down => ok := MoveDown();
      case Left => ok := MoveLeft();
      case Right => ok := MoveRight();
    }

    /** The copy loop of duplicate and setState. */
    static method CopyGrid(src: array2<int>) returns (dst: array2<int>)
      requires src.Length0 == 3 && src.Length1 == 3
      ensures fresh(dst) && dst.Length0 == 3 && dst.Length1 == 3
      ensures forall i, j :: 0 <= i < 3 && 0 <= j < 3 ==> dst[i, j] == src[i, j]
    {
      dst := new int[3, 3];
      for i := 0 to 3
        invariant forall i', j :: 0 <= i' < i && 0 <= j < 3 ==> dst[i', j] == src[i', j]
      {
        for j := 0 to 3
          invariant forall i', j' :: 0 <= i' < i && 0 <= j' < 3 ==> dst[i', j'] == src[i', j']
          invariant forall j' :: 0 <= j' < j ==> dst[i, j'] == src[i, j']
        {
          dst[i, j] := src[i, j];
        }
      }
    }

    /** duplicate: a new puzzle with a copy of the tiles and the blank
        coordinates, and (being made by the constructor) no last move. */
    method Duplicate() returns (copy: EightPuzzle)
      requires Valid()
      ensures fresh(copy) && fresh(copy.grid) && copy.Valid()
      ensures copy.ToBoard() == ToBoard() && copy.prevMove == None
    {
      copy := new EightPuzzle();
      var g := CopyGrid(grid);
      copy.grid := g;
      copy.c := c;
      copy.r := r;
    }

    /** checkFormat: three rows, each of three characters. */
    static method CheckFormat(rows: seq<string>) returns (ok: bool)
      ensures ok <==> Shaped(rows)
    {
      if |rows| != 3 {
        return false;
      }
      for i := 0 to 3
        invariant forall i' :: 0 <= i' < i ==> |rows[i']| == 3
      {
        if |rows[i]| != 3 {
          return false;
        }
      }
      return true;
    }

    /** setState: a badly shaped argument changes nothing.  Otherwise the
        tiles are written into the grid one by one, row-major, (r, c)
        following every 0 written; at the first tile that is 9 or repeats
        an earlier one the grid is replaced by a copy of its old contents,
        but (r, c) keep what they were given. */
    method SetState(rows: seq<string>) returns (ok: bool)
      requires Valid()
      modifies this, grid
      ensures Valid() && prevMove == old(prevMove)
      ensures !Shaped(rows) ==> !ok && grid == old(grid) && Cells() == old(Cells()) && r == old(r) && c == old(c)
      ensures Shaped(rows) ==>
        var t := Tiles(rows);
        var f := FirstBad(t);
        && (ok <==> f == 9)
        && (ok ==> grid == old(grid) && Cells() == t)
        && (!ok ==> fresh(grid) && Cells() == old(Cells()))
        && BlankAfter(t, if f == 9 then 9 else f + 1, r, c, old(r), old(c))
    {
      ok := CheckFormat(rows);
      if !ok {
        return;
      }
      var oldGrid := CopyGrid(grid);
      ok := Fill(rows);
      if !ok {
        grid := oldGrid;
      }
    }

    /** What setState has done after writing the first k tiles of t,
        having found none of them refused: they are in the grid, valueSet
        holds them and (r, c) follow the last 0 among them. */
    ghost predicate Filled(t: seq<int>, k: nat, valueSet: set<int>, r0: int, c0: int)
      reads this, grid
    {
      && Valid() && |t| == 9 && k <= 9
      && Cells()[..k] == t[..k]
      && valueSet == Seen(t, k) && k <= FirstBad(t)
      && BlankAfter(t, k, r, c, r0, c0)
    }

    /** setState's loop: writes the tiles row-major and stops after
        writing the first refused tile. */
    method Fill(rows: seq<string>) returns (ok: bool)
      requires Valid() && Shaped(rows)
      modifies this, grid
      ensures Valid() && grid == old(grid) && prevMove == old(prevMove)
      ensures var t := Tiles(rows);
        var f := FirstBad(t);
        && (ok <==> f == 9)
        && (ok ==> Cells() == t)
        && BlankAfter(t, if f == 9 then 9 else f + 1, r, c, old(r), old(c))
    {
      ghost var t := Tiles(rows);
      var valueSet: set<int> := {};
      for i := 0 to 3
        invariant grid == old(grid) && prevMove == old(prevMove)
        invariant Filled(t, 3 * i, valueSet, old(r), old(c))
      {
        for j := 0 to 3
          invariant grid == old(grid) && prevMove == old(prevMove)
          invariant Filled(t, 3 * i + j, valueSet, old(r), old(c))
        {
          var refused;
          refused, valueSet := Place(rows, i, j, valueSet, old(r), old(c));
          if refused {
            return false;
          }
        }
      }
      assert Cells() == Cells()[..9];
      return true;
    }

    /** One cell of setState's loop: the tile is written, (r, c) move onto
        it if it is 0, and it is refused if it is 9 or already seen. */
    method Place(rows: seq<string>, i: int, j: int, valueSet: set<int>, ghost r0: int, ghost c0: int)
      returns (refused: bool, seen: set<int>)
      requires Shaped(rows) && 0 <= i < 3 && 0 <= j < 3
      requires Filled(Tiles(rows), Idx(i, j), valueSet, r0, c0)
      modifies this, grid
      ensures grid == old(grid) && prevMove == old(prevMove) && Valid()
      ensures refused <==> Bad(Tiles(rows), Idx(i, j))
      ensures refused ==> FirstBad(Tiles(rows)) == Idx(i, j) && BlankAfter(Tiles(rows), Idx(i, j) + 1, r, c, r0, c0)
      ensures !refused ==> Filled(Tiles(rows), Idx(i, j) + 1, seen, r0, c0)
    {
      ghost var t, k := Tiles(rows), Idx(i, j);
      var tile := (rows[i][j] as int) - ('0' as int);
      ghost var before := Cells();
      Put(i, j, tile);
      PrefixStep(before, t, k);
      if tile == 0 {
        r, c := i, j;
      }
      assert BlankAfter(t, k + 1, r, c, r0, c0);
      SeenStep(t, k);
      refused := tile in valueSet || tile == 9;
      seen := valueSet + {tile};
    }

    /** equals: the tiles agree cell by cell (the blank coordinates are not compared). */
    method Equals(p: EightPuzzle) returns (eq: bool)
      requires Valid() && p.Valid()
      ensures eq <==> Cells() == p.Cells()
    {
      for i := 0 to 3
        invariant forall i', j :: 0 <= i' < i && 0 <= j < 3 ==> grid[i', j] == p.grid[i', j]
      {
        for j := 0 to 3
          invariant forall i', j' :: 0 <= i' < i && 0 <= j' < 3 ==> grid[i', j'] == p.grid[i', j']
          invariant forall j' :: 0 <= j' < j ==> grid[i, j'] == p.grid[i, j']
        {
          if grid[i, j] != p.grid[i, j] {
            assert Cells()[3 * i + j] != p.Cells()[3 * i + j];
            return false;
          }
        }
      }
      assert forall q :: 0 <= q < 9 ==> Cells()[q] == p.Cells()[q];
      return true;
    }

    /** randomize: the grid is replaced by a fresh solved one with the
        blank at (0, 0), then one legal move per draw is made, picked by
        the draw; the last move made is recorded (none made: the old one
        stays). */
    method Randomize(us: seq<real>)
      requires Valid() && Draws(us)
      modifies this
      ensures Valid() && fresh(grid)
      ensures ToBoard() == Replay(SolvedBoard, Walk(SolvedBoard, us))
      ensures |us| == 0 ==> prevMove == old(prevMove)
      ensures |us| > 0 ==> prevMove == Some(Walk(SolvedBoard, us)[|us| - 1])
    {
      Reset();
      ghost var done: seq<Move> := [];
      ghost var cur := SolvedBoard;
      assert us[0..] == us;
      for i := 0 to |us|
        invariant Valid() && fresh(grid) && ToBoard() == cur
        invariant |done| == i && cur == Replay(SolvedBoard, done)
        invariant Walk(SolvedBoard, us) == done + Walk(cur, us[i..])
        invariant i == 0 ==> prevMove == old(prevMove)
        invariant i > 0 ==> prevMove == Some(done[i - 1])
      {
        ghost var move := Choose(cur, us[i]);
        WalkFrom(cur, us, i);
        WalkShift(Walk(SolvedBoard, us), done, move, Walk(Step(cur, move), us[i + 1..]));
        ReplayAppend(SolvedBoard, done, move);
        RandomMove(us[i]);
        done, cur := done + [move], Step(cur, move);
      }
      assert us[|us|..] == [] && Walk(cur, []) == [];
      assert done == Walk(SolvedBoard, us);
    }

    /** randomize's first step: a fresh solved grid, the blank at (0, 0). */
    method Reset()
      modifies this
      ensures Valid() && fresh(grid) && ToBoard() == SolvedBoard && prevMove == old(prevMove)
    {
      grid := SolvedGrid();
      r, c := 0, 0;
    }

    /** One turn of randomize: the legal move the draw u picks is made. */
    method RandomMove(u: real)
      requires Valid() && 0.0 <= u < 1.0
      modifies this, grid
      ensures Valid() && grid == old(grid)
      ensures ToBoard() == Step(old(ToBoard()), Choose(old(ToBoard()), u))
      ensures prevMove == Some(Choose(old(ToBoard()), u))
    {
      var moves := ValidMoves(r, c);
      var move := moves[PickIndex(u, |moves|)];
      var _ := Apply(move);
    }

    /** solveAStar: "h1" or "h2" runs A* with that heuristic from this
        puzzle, any other name is refused before any search.  tree, seen
        and at are the search's nodes, visited map and order of visits. */
    method SolveAStar(heuristic: string, maxNodes: int)
      returns (res: Answer, ghost tree: seq<Node>, ghost seen: map<Grid, nat>, ghost at: map<Grid, nat>)
      requires Valid() && (heuristic == "h2" ==> InRange(Cells()))
      ensures heuristic != "h1" && heuristic != "h2" ==> res == InvalidHeuristic
      ensures heuristic == "h1" || heuristic == "h2" ==> res.Ran?
      ensures res.Ran? ==>
        SearchTree(ToBoard(), prevMove, if heuristic == "h1" then H1 else H2, tree)
        && Indexed(tree, seen) && Stamped(tree, seen, at)
      ensures res.Ran? ==> res.outcome.nodes == |tree| - 1 && res.outcome.nodes <= 4 * |seen|
      ensures res.Ran? ==> res.outcome.nodes <= (if maxNodes < 0 then 0 else maxNodes + 4)
      ensures res.Ran? ==> (res.outcome.BudgetExceeded? <==> res.outcome.nodes > maxNodes)
      ensures res.Ran? && res.outcome.Solved? ==>
        Legal(ToBoard(), res.outcome.path) && Replay(ToBoard(), res.outcome.path).grid == Goal
      ensures res.Ran? && res.outcome.NoPath? && Canonical(ToBoard()) ==>
        forall p :: Replay(ToBoard(), p).grid != Goal
      ensures res.Ran? && Cells() == Goal && maxNodes >= 4 ==> res.outcome.Solved? && res.outcome.path == []
    {
      var o;
      if heuristic == "h1" {
        o, tree, seen, at := AStar.Solve(ToBoard(), prevMove, H1, maxNodes);
        res := Ran(o);
      } else if heuristic == "h2" {
        o, tree, seen, at := AStar.Solve(ToBoard(), prevMove, H2, maxNodes);
        res := Ran(o);
      } else {
        res, tree, seen, at := InvalidHeuristic, [], map[], map[];
      }
    }

    /** solveBeam with beam width k from this puzzle, each node expanded
        with its own legal moves (see Beam.MoveSource).  tree, seen and at
        are the search's nodes, visited map and order of visits. */
    method SolveBeam(k: int, maxNodes: int)
      returns (res: Outcome, ghost tree: seq<Node>, ghost seen: map<Grid, nat>, ghost at: map<Grid, nat>)
      requires Valid() && InRange(Cells())
      ensures SearchTree(ToBoard(), prevMove, H2, tree) && Indexed(tree, seen) && Stamped(tree, seen, at)
      ensures res.nodes == |tree| - 1 && res.nodes <= 4 * |seen|
      ensures res.nodes <= (if maxNodes < 0 then 0 else maxNodes) + 4 * (if k < 1 then 1 else k)
      ensures Cells() == Goal ==> res == Solved([], 0)
      ensures Cells() != Goal ==> (res.BudgetExceeded? <==> res.nodes > maxNodes)
      ensures res.Solved? ==> Legal(ToBoard(), res.path) && Replay(ToBoard(), res.path).grid == Goal
      ensures res.NoPath? && k >= 1 && Canonical(ToBoard()) ==> forall p :: Replay(ToBoard(), p).grid != Goal
    {
      res, tree, seen, at := Beam.Solve(ToBoard(), prevMove, Beam.NodeMoves, k, maxNodes);
    }
  }

  /** setState accepts exactly the tile lists with no 9 and no repeat. */
  lemma AcceptedIff(t: seq<int>)
    ensures FirstBad(t) == |t| <==> Distinct(t) && 9 !in t
  {
    if FirstBad(t) == |t| {
      forall p, q | 0 <= p < q < |t| ensures t[p] != t[q] {
        assert !Bad(t, q) && t[..q][p] == t[p];
      }
      forall q | 0 <= q < |t| ensures t[q] != 9 {
        assert !Bad(t, q);
      }
    } else {
      var f := FirstBad(t);
      if t[f] != 9 {
        var p :| 0 <= p < f && t[..f][p] == t[f];
        assert t[p] == t[f];
      }
    }
  }

  /** Distinct values drawn from lo..hi-1 number at most hi - lo. */
  lemma {:induction false} DistinctBound(t: seq<int>, lo: int, hi: int)
    requires Distinct(t) && forall q :: 0 <= q < |t| ==> lo <= t[q] < hi
    ensures |t| <= if hi < lo then 0 else hi - lo
    decreases hi - lo
  {
    if |t| > 0 {
      assert lo <= t[0] < hi;
      if q :| 0 <= q < |t| && t[q] == hi - 1 {
        var u := t[..q] + t[q + 1..];
        assert forall p :: 0 <= p < |u| ==> u[p] == if p < q then t[p] else t[p + 1];
        assert Distinct(u);
        DistinctBound(u, lo, hi - 1);
      } else {
        DistinctBound(t, lo, hi - 1);
      }
    }
  }

  /** Nine distinct tiles from 0..8 include a 0. */
  lemma ZeroPresent(t: seq<int>)
    requires |t| == 9 && Distinct(t) && forall q :: 0 <= q < 9 ==> 0 <= t[q] <= 8
    ensures LastZero(t, 9).Some?
  {
    if LastZero(t, 9).None? {
      DistinctBound(t, 1, 9);
    }
  }

  /** Nine distinct digits '0'..'8' are accepted, and the blank lands on
      the 0, which is then the only 0: the object is a canonical board with
      tiles 0..8. */
  lemma DigitsAccepted(rows: seq<string>)
    requires Shaped(rows)
    requires forall i, j :: 0 <= i < 3 && 0 <= j < 3 ==> '0' <= rows[i][j] <= '8'
    requires Distinct(Tiles(rows))
    ensures var t := Tiles(rows); FirstBad(t) == 9 && InRange(t) && LastZero(t, 9).Some?
    ensures var t := Tiles(rows); var p := LastZero(t, 9).value; Canonical(Board(t, p / 3, p % 3))
  {
    var t := Tiles(rows);
    assert forall q :: 0 <= q < 9 ==> 0 <= t[q] <= 8;
    AcceptedIff(t);
    ZeroPresent(t);
    var p := LastZero(t, 9).value;
    assert p == 3 * (p / 3) + p % 3;
  }

  /** randomize only makes legal moves, and the board it leaves is one the
      reversed walk brings back to the solved board. */
  lemma {:induction false} WalkLegal(b: Board, us: seq<real>)
    requires BlankAt(b) && Draws(us)
    ensures Legal(b, Walk(b, us))
    decreases |us|
  {
    if us != [] {
      var m := Choose(b, us[0]);
      StepKeepsTiles(b, m);
      WalkLegal(Step(b, m), us[1..]);
      assert Walk(b, us)[1..] == Walk(Step(b, m), us[1..]);
    }
  }

  lemma RandomizedSolvable(us: seq<real>)
    requires Draws(us)
    ensures var w := Walk(SolvedBoard, us);
      Legal(SolvedBoard, w) && Canonical(Replay(SolvedBoard, w))
      && Legal(Replay(SolvedBoard, w), InversePath(w)) && Replay(Replay(SolvedBoard, w), InversePath(w)).grid == Goal
  {
    var w := Walk(SolvedBoard, us);
    WalkLegal(SolvedBoard, us);
    UndoPath(SolvedBoard, w);
    ReplayCanonical(SolvedBoard, w);
  }

  lemma {:induction false} ReplayCanonical(b: Board, p: seq<Move>)
    requires Canonical(b)
    ensures Canonical(Replay(b, p))
    decreases |p|
  {
    if p != [] {
      StepKeepsCanonical(b, p[0]);
      ReplayCanonical(Step(b, p[0]), p[1..]);
    }
  }

  /** From a new puzzle up and left are refused, and right then down give
      the key "142305678". */
  lemma RightDownFromSolved()
    ensures !CanMove(0, 0, Up) && !CanMove(0, 0, Left)
    ensures Legal(SolvedBoard, [Right, Down])
    ensures Replay(SolvedBoard, [Right, Down]).grid == [1, 4, 2, 3, 0, 5, 6, 7, 8]
  {
    var b1 := Step(SolvedBoard, Right);
    assert b1 == Board([1, 0, 2, 3, 4, 5, 6, 7, 8], 0, 1);
    assert Step(b1, Down) == Board([1, 4, 2, 3, 0, 5, 6, 7, 8], 1, 1);
    assert [Right, Down][1..] == [Down];
    assert [Down][1..] == [];
  }

  /** setState {"123", "456", "780"} reads the tiles 1..8 then 0 ... */
  lemma CornerBlankTiles()
    ensures Shaped(["123", "456", "780"]) && Tiles(["123", "456", "780"]) == [1, 2, 3, 4, 5, 6, 7, 8, 0]
  {
  }

  /** ... accepts them and puts the blank on the last cell. */
  lemma CornerBlankAccepted()
    ensures FirstBad([1, 2, 3, 4, 5, 6, 7, 8, 0]) == 9 && LastZero([1, 2, 3, 4, 5, 6, 7, 8, 0], 9) == Some(8)
  {
    var t := [1, 2, 3, 4, 5, 6, 7, 8, 0];
    forall p, q | 0 <= p < q < 9 ensures t[p] != t[q] {
      assert (t[p] == 0 <==> p == 8) && (t[p] != 0 ==> t[p] == p + 1);
    }
    AcceptedIff(t);
  }

  /** From there right and down are refused, and up then left give the
      key "123405786". */
  lemma CornerBlankMoves()
    ensures !CanMove(2, 2, Right) && !CanMove(2, 2, Down)
    ensures var b := Board([1, 2, 3, 4, 5, 6, 7, 8, 0], 2, 2);
      Legal(b, [Up, Left]) && Replay(b, [Up, Left]).grid == [1, 2, 3, 4, 0, 5, 7, 8, 6]
  {
    var b := Board([1, 2, 3, 4, 5, 6, 7, 8, 0], 2, 2);
    var b1 := Step(b, Up);
    assert b1 == Board([1, 2, 3, 4, 5, 0, 7, 8, 6], 1, 2);
    assert Step(b1, Left) == Board([1, 2, 3, 4, 0, 5, 7, 8, 6], 1, 1);
    assert [Up, Left][1..] == [Left];
    assert [Left][1..] == [];
  }

  /** setState {"112", "456", "780"} is refused at the repeated 1. */
  lemma RepeatRefused()
    ensures Shaped(["112", "456", "780"]) && FirstBad(Tiles(["112", "456", "780"])) == 1
  {
    var t := Tiles(["112", "456", "780"]);
    assert t[0] == 1 && t[1] == 1;
    assert !Bad(t, 0);
    assert t[..1] == [1];
  }
}
