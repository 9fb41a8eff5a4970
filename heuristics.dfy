/** The two estimates of the distance to the solved board: h1 counts the
    misplaced tiles, h2 sums the Manhattan distances of the tiles (the blank
    included) to their solved cells. */
module Heuristics {
  import opened Boards

  /** Which estimate a search orders its nodes by. */
  datatype Heuristic = H1 | H2

  /** h1: the number of cells whose tile is not the solved one, blank included. */
  function Misplaced(g: Grid): (n: int)
    requires |g| == 9
    ensures 0 <= n <= 9
    ensures n == 0 <==> g == Goal
  {
    var n := (if g[0] != 0 then 1 else 0) + (if g[1] != 1 then 1 else 0) + (if g[2] != 2 then 1 else 0)
      + (if g[3] != 3 then 1 else 0) + (if g[4] != 4 then 1 else 0) + (if g[5] != 5 then 1 else 0)
      + (if g[6] != 6 then 1 else 0) + (if g[7] != 7 then 1 else 0) + (if g[8] != 8 then 1 else 0);
    assert n == 0 ==> g == Goal by {
      if n == 0 {
        assert forall k :: 0 <= k < 9 ==> g[k] == Goal[k];
      }
    }
    n
  }

  /** The solved cell (row, column) of each tile value. */
  const Spots: seq<(int, int)> :=
    [(0, 0), (0, 1), (0, 2), (1, 0), (1, 1), (1, 2), (2, 0), (2, 1), (2, 2)]

  function Abs(x: int): int {
    if x < 0 then -x else x
  }

  /** Manhattan distance of tile v standing in cell (i, j) to its solved cell. */
  function CellCost(v: int, i: int, j: int): int
    requires 0 <= v <= 8
  {
    Abs(Spots[v].0 - i) + Abs(Spots[v].1 - j)
  }

  /** Sum of the cell costs of cells k..8, row-major. */
  function ManhattanFrom(g: Grid, k: int): int
    requires InRange(g) && 0 <= k <= 9
    decreases 9 - k
  {
    if k == 9 then 0 else CellCost(g[k], k / 3, k % 3) + ManhattanFrom(g, k + 1)
  }

  /** h2, as a value: it lies in 0..36 and is 0 exactly on the solved board. */
  function Manhattan(g: Grid): (r: int)
    requires InRange(g)
    ensures 0 <= r <= 36
    ensures r == 0 <==> g == Goal
  {
    ManhattanFromFacts(g, 0);
    assert ManhattanFrom(g, 0) == 0 ==> forall t :: 0 <= t < 9 ==> g[t] == Goal[t];
    ManhattanFrom(g, 0)
  }

  /** h2 as the source computes it: a double loop over rows and columns,
      looking each tile's solved cell up in the table of spots. */
  method SumManhattan(g: Grid) returns (sum: int)
    requires InRange(g)
    ensures sum == Manhattan(g)
  {
    sum := 0;
    for i := 0 to 3
      invariant sum + ManhattanFrom(g, 3 * i) == Manhattan(g)
    {
      for j := 0 to 3
        invariant sum + ManhattanFrom(g, 3 * i + j) == Manhattan(g)
      {
        var spot := Spots[g[3 * i + j]];
        assert (3 * i + j) / 3 == i && (3 * i + j) % 3 == j;
        sum := sum + Abs(spot.0 - i) + Abs(spot.1 - j);
      }
    }
  }

  /** A tile costs nothing exactly in its solved cell, and at most 4 anywhere. */
  lemma CellCostFacts(v: int, k: int)
    requires 0 <= v <= 8 && 0 <= k < 9
    ensures 0 <= CellCost(v, k / 3, k % 3) <= 4
    ensures CellCost(v, k / 3, k % 3) == 0 <==> v == k
  {
    assert Spots[v] == (v / 3, v % 3);
    assert k == 3 * (k / 3) + k % 3;
    assert v == 3 * (v / 3) + v % 3;
  }

  lemma {:induction false} ManhattanFromFacts(g: Grid, k: int)
    requires InRange(g) && 0 <= k <= 9
    ensures 0 <= ManhattanFrom(g, k) <= 4 * (9 - k)
    ensures ManhattanFrom(g, k) == 0 <==> forall t :: k <= t < 9 ==> g[t] == t
    decreases 9 - k
  {
    if k < 9 {
      CellCostFacts(g[k], k);
      ManhattanFromFacts(g, k + 1);
      assert (forall t :: k <= t < 9 ==> g[t] == t)
        <==> g[k] == k && (forall t :: k + 1 <= t < 9 ==> g[t] == t);
    }
  }

  /** The heuristic a search was asked for. */
  function Value(h: Heuristic, g: Grid): int
    requires |g| == 9 && (h == H2 ==> InRange(g))
  {
    match h
    case H1 => Misplaced(g)
    case H2 => Manhattan(g)
  }

  /** Computes the heuristic the way the source does (h2 by its loop). */
  method Evaluate(h: Heuristic, g: Grid) returns (v: int)
    requires |g| == 9 && (h == H2 ==> InRange(g))
    ensures v == Value(h, g)
  {
    match h
    case H1 => v := Misplaced(g);
    case H2 => v := SumManhattan(g);
  }
}
