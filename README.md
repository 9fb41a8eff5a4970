# 8-puzzle solver, modelled in Dafny

This project models the 8-puzzle solver `EightPuzzle.java`.

**The puzzle object**
- A 3×3 grid of tiles, with 0 for the blank.
- The row `r` and column `c` it keeps for the blank.
- The last move it made (`prevMove`).
- `up`, `down`, `left` and `right` slide the blank.
- `setState` loads nine characters.
- `randomize` scrambles the solved board with random legal moves.

**The heuristics**
- `h1` counts misplaced cells.
- `h2` sums Manhattan distances.

**A\* search** (`solveAStar`, with `solveH1` and `solveH2`)
- It polls the priority queue for a node of least value.
- A node whose key was already visited is skipped.
- Otherwise the node is visited, and each child whose key is not visited is queued with value `parent.value - h(parent) + 1 + h(child)`.
- The loop stops when the goal key is visited, the queue is empty, or more nodes were generated than allowed.
- The path is read back along the parent links.

**Beam search** (`solveBeam`)
- It expands every node of the current generation into one pool of candidates, which is never cleared.
- It then moves the `k` best candidates into the next generation.

The model has seven modules, one per file:

| file | module | what it holds |
|---|---|---|
| `boards.dfy` | `Boards` | The board as a value, the four moves, the legal-move list and replaying a path. |
| `heuristics.dfy` | `Heuristics` | `h1` and `h2`; `h2` also as the source's double loop. |
| `search.dfy` | `Search` | Search nodes and the search-node invariant, polling a node of least value, and path extraction. |
| `expansion.dfy` | `Expansion` | The child-generation loop that A\* and beam share, and the bookkeeping behind the completeness results. |
| `astar.dfy` | `AStar` | `solveH1` and `solveH2` as one method, parameterised by the heuristic. |
| `beam.dfy` | `Beam` | `solveBeam`, in two versions: as written, and corrected (see Findings). |
| `puzzle.dfy` | `Puzzle` | The class `EightPuzzle`. |

**Representation**
- Search nodes are values in an append-only arena (a sequence); index 0 is the root, i.e. the puzzle object itself.
- The priority queue is a multiset of arena indices.
- `visited` is a map from the row-major tile sequence to an arena index.
- **The order of the visits** (`Expansion.Stamped`) is what the searches also return: a map giving, for each visited key, the arena's size when the key was visited. The map says:
  - every node with children is the node its key is recorded with (so no key is expanded twice);
  - that node was visited before its children were made;
  - no node's key had been visited when the node was made (so a node is queued only while its key is unvisited).
- **What an expansion queues** (`Expansion.Children`): for a visited node, the children its moves make, in move order, keeping those whose keys are not visited. A child whose key is already queued is queued again, as in the source.
- **What a beam generation does** (`Beam.Passed`, `Beam.Visits`): the open nodes are taken in list order; one whose key is new at its turn is visited and expanded, the others are passed over.
- The class keeps the source's state as a 3×3 `array2<int>` plus the fields `r`, `c` and `prevMove`.
- Its move, `setState` and `randomize` methods update that state in place.
- Its solvers read a snapshot of the object, and do not change it.

**Outcomes**
- `Outcome` records how a search ends:
  - `Solved` with the moves and the node count;
  - `NoPath` (the source prints "No path found.");
  - `BudgetExceeded` (the source throws `OutOfMemoryError`).
- `Answer.InvalidHeuristic` stands for the `IllegalArgumentException` of `solveAStar`.

## Model

| member | source | states |
|---|---|---|
| Boards.ValidMoves | EightPuzzle.java:197-212 | A move is listed exactly when the blank is not on that edge. The list has 2 to 4 entries, in the order up, down, left, right. |
| Boards.Step | EightPuzzle.java:111-164 | The value form of `up`, `down`, `left` and `right` that the searches apply to copies. A move keeps nine cells and the blank coordinates on the board, and keeps tiles within 0..8. |
| Boards.StepEffect | EightPuzzle.java:111-164 | A refused move (up in row 0, down in row 2, left in column 0, right in column 2) changes nothing. An accepted move puts the blank coordinates on the neighbour and writes 0 there. It gives the vacated cell the neighbour's tile and leaves the other seven cells alone. |
| Boards.StepKeepsTiles | EightPuzzle.java:111-164 | If the blank is at (r, c), a move keeps the multiset of tiles, and afterwards the blank is again at (r, c). |
| Boards.StepKeepsCanonical | EightPuzzle.java:111-164 | A board whose only 0 is at (r, c) stays that way after any move. |
| Boards.CanonicalKeyDetermines | EightPuzzle.java:553-561 | For such boards, the row-major key alone determines the whole board, blank coordinates included. So keying `visited` by the grid loses nothing. |
| Boards.StepUndo | EightPuzzle.java:111-164 | An accepted move is legal to undo with the opposite move, and undoing restores the board. |
| Boards.ReplayAppend | EightPuzzle.java:111-164 | Replaying `p + [m]` is applying `m` after replaying `p`. The path is legal iff `p` is legal and `m` is allowed where `p` ends. |
| Boards.ReplayKeepsBlank | EightPuzzle.java:111-164 | Any sequence of moves keeps the blank where the coordinates say it is. |
| Boards.UndoPath | EightPuzzle.java:111-164 | A legal path followed by its inverse path (reversed, each move inverted) is legal and comes back to the starting board. |
| Heuristics.Misplaced | EightPuzzle.java:332-363 | h1 lies in 0..9 and is 0 exactly on the key 012345678. |
| Heuristics.SumManhattan | EightPuzzle.java:444-454 | The source's double loop over rows and columns, using the `spots` table, computes the sum of the tiles' Manhattan distances. |
| Heuristics.CellCostFacts | EightPuzzle.java:445-450 | A tile's distance to its solved cell lies in 0..4, and is 0 exactly in its solved cell. |
| Heuristics.ManhattanFromFacts | EightPuzzle.java:447-452 | The sum over cells k..8 lies in 0..4·(9-k), and is 0 exactly when those cells hold their solved tiles. |
| Heuristics.Manhattan | EightPuzzle.java:444-454 | For a grid of tiles 0..8, h2 lies in 0..36 and is 0 exactly on the solved key. |
| Heuristics.Evaluate | EightPuzzle.java:269-271 | h1 or h2 is computed as requested, h2 by its loop. |
| Search.MinExists | EightPuzzle.java:577-579 | A non-empty queue has an element of least value. |
| Search.Poll | EightPuzzle.java:250 | `poll` removes exactly one element of least value; ties are left open. |
| Search.AppendChild | EightPuzzle.java:268-273 | A child is one legal move from its parent and is given value `parent.value - h(parent) + 1 + h(child)`. Appending it keeps the search-node invariant, under which every node's value is its depth plus h minus h(root). |
| Search.PathReplays | EightPuzzle.java:284-298 | The moves along the parent links, from the root down to a node, form a legal path. Replaying it on the start board gives that node's board. |
| Search.TreeCanonical | EightPuzzle.java:252-274 | From a start whose only 0 is at (r, c), every node generated has the same property. |
| Search.ChainIsReversedPath | EightPuzzle.java:289-293 | Walking up the parent links from a node collects its path reversed, then the root's `prevMove`. There is one entry per node met. |
| Search.ChainGivesPath | EightPuzzle.java:294-295 | Dropping the last entry collected (the root's) and reversing gives the path to the node. |
| Search.WalkUp | EightPuzzle.java:289-293 | The `while (trav != null)` loop collects exactly that chain and counts the nodes met. |
| Search.ExtractPath | EightPuzzle.java:284-298 | A\*'s extraction returns the path to the goal node. Its `moveCount - 1` equals the path's length, which is the number of parent links. |
| Search.ExtractPathReversedFirst | EightPuzzle.java:529-540 | The beam's extraction (reverse, then `remove(0)`) returns the same path, and `path.size()` is the number of parent links. |
| Search.DropRootEitherOrder | EightPuzzle.java:536-537 | Reversing then dropping the first element equals dropping the last element then reversing. |
| Expansion.PushKeeps | EightPuzzle.java:268-273 | Queueing the child made by a legal move, with its value, keeps:<br>- the search-node invariant;<br>- every queued index naming a node;<br>- every visited key mapping to a node with that key;<br>- the closure bookkeeping. |
| Expansion.MakeChild | EightPuzzle.java:268-271 | The child node the loop builds equals `ChildOf`: the board after the move, that move as `prevMove`, cur as its parent, and value `depth + h(child)` where `depth = parent.value - h(parent) + 1`. Both heuristics are computed as the source does. |
| Expansion.Consider | EightPuzzle.java:258-274 | One move's turn. If the child's key is visited, nothing is queued and nothing changes. Otherwise exactly one node is appended and queued: the child (`ChildOf`), with that move as its `prevMove`, cur as its parent, and value `parent.value - h(parent) + 1 + h(child)`. So a node is queued iff its key is not visited. Afterwards the child's key is covered (visited or queued). |
| Expansion.Candidates | EightPuzzle.java:255-271 | One child per move tried, in the order tried. |
| Expansion.CandidateAt | EightPuzzle.java:258-271 | Candidate u is the child (`ChildOf`) made by move u. |
| Expansion.Unvisited | EightPuzzle.java:268 | The candidates that survive the `containsKey` test are exactly those whose keys are not visited, in order. There are no more of them than candidates. |
| Expansion.ChildrenStep | EightPuzzle.java:258-274 | Trying one more move appends its child to the queued children exactly when the child's key is not visited. |
| Expansion.ChildrenAre | EightPuzzle.java:255-275 | The queued children are all the children, made by the moves tried, whose keys are not visited, and nothing else, at most one per move. A child whose key is already queued but not visited is queued again. |
| Expansion.Fresh | EightPuzzle.java:272-273 | The indices of the appended nodes, each once: exactly lo..hi-1. |
| Expansion.ArenaStep | EightPuzzle.java:258-274 | Consider's outcome for move t extends "arena = old arena + children of the moves before t" to the moves up to t. |
| Expansion.Expand | EightPuzzle.java:255-275 | The arena becomes the old arena followed by exactly the children of cur whose keys are not visited (`Children`), in move order. The queue gains exactly the new nodes' indices. Every move tried then leads to a covered key. |
| Expansion.ExpandedCloses | EightPuzzle.java:252-276 | Once every legal move of a visited board has been tried, every visited board's legal moves lead to covered keys. |
| Expansion.PollVisit | EightPuzzle.java:250-253 | Marking the polled node's key visited keeps every earlier visited key closed. |
| Expansion.ClosedReach | EightPuzzle.java:249 | Suppose the queue is empty and every node's only 0 is at its (r, c). Then every board reachable from a visited board by allowed moves is a visited board. |
| Expansion.Unreachable | EightPuzzle.java:249 | Suppose the queue is empty, the start key is visited and the goal key is not. Then, from a start whose only 0 is at (r, c), no sequence of allowed moves reaches the goal. |
| Expansion.ExpandedOnce | EightPuzzle.java:252-253 | Under the order of the visits, two nodes with children and the same key are the same node, so no key is expanded twice. |
| Expansion.VisitedAfterParent | EightPuzzle.java:268 | Under the order of the visits, a node's key is visited, if ever, strictly after its parent's key: the node was queued while its key was not visited. |
| Expansion.VisitStamped | EightPuzzle.java:252-274 | Visiting a node whose key is new, then appending children of it whose keys are not visited, keeps the order of the visits. The key is stamped with the arena's size at that moment. |
| Expansion.RecordStamped | EightPuzzle.java:518-520 | Recording a polled goal node under the goal key, which was not visited, keeps the order of the visits. |
| AStar.VisitKeeps | EightPuzzle.java:252-276 | Visiting a polled node with a new key, then expanding it, keeps the loop invariant. |
| AStar.SkipKeeps | EightPuzzle.java:252 | Dropping a polled node whose key was visited keeps the loop invariant. |
| AStar.Visit | EightPuzzle.java:252-276 | The polled node's key is recorded with it in `visited`. The arena gains exactly the children of its legal moves whose keys are not visited (`Children`), and the queue is what was left after the poll plus their indices. The loop invariant and the order of the visits are kept; the node count grows by the number of children, at most 4. |
| AStar.Iterate | EightPuzzle.java:250-276 | One turn polls a node of least value (`IsMin`). If its key was visited, only the queue changes: that one element leaves it. Otherwise the key is recorded with it, its unvisited children are appended (`Children`) and their indices replace it in the queue. The invariant is kept, at most 4 nodes are added, and either nodes were generated or the queue shrank. |
| AStar.Loop | EightPuzzle.java:249-277 | The loop ends with the goal key visited, the queue empty, or more than maxNodes nodes. It keeps the invariant, and the count never exceeds maxNodes + 4 when maxNodes >= 0, and is 0 when maxNodes < 0, since the guard is tested before each turn. |
| AStar.Solve | EightPuzzle.java:236-302 | Solved exactly when the goal key was visited and at most maxNodes nodes were generated; the path is the goal node's path, legal, and replays to 012345678. BudgetExceeded exactly when nodes > maxNodes, even if the goal was visited (budget checked first at line 279). NoPath means the goal was never visited and, for a start whose only 0 is at (r, c), that no path reaches it. A solved start with maxNodes >= 4 gives the empty path. The count is the number of nodes generated, at most 4 per visited key and at most maxNodes + 4 when maxNodes >= 0 and 0 when maxNodes < 0. The order of the visits holds: no key is expanded twice, and a node is queued only while its key is unvisited. |
| Beam.TriedMoves | EightPuzzle.java:490 | The moves tried are the start's legal moves (as written), or the expanded node's own legal moves (corrected). |
| Beam.Allowed | EightPuzzle.java:490 | The moves a beam search can ever make: the start's legal moves as written, or all four corrected. |
| Beam.SkipOpen | EightPuzzle.java:488 | Skipping an open node whose key was visited keeps the beam's invariant. |
| Beam.Visit | EightPuzzle.java:488-511 | The open node's key is recorded with it in `visited`. The arena gains exactly the children of its tried moves whose keys are not visited (`Children`), and the pool gains exactly their indices. The beam's invariant and the order of the visits are kept, with at most 4 new nodes. |
| Beam.PassedStep | EightPuzzle.java:486-512 | The first loop's specification, extended by one open node: skipped if its key is visited by then, otherwise visited with its unvisited children added to arena and pool. |
| Beam.PassedGrows | EightPuzzle.java:486-512 | The first loop only appends to the arena. |
| Beam.PassedQueues | EightPuzzle.java:486-512 | The first loop puts into the pool one index per node it appends. |
| Beam.OpenKeysSnoc | EightPuzzle.java:486-488 | The keys of the open list are those of all but its last node, plus the last node's. |
| Beam.PassedVisits | EightPuzzle.java:486-512 | The visited map the first loop leaves is `Visits`: each open node in list order is recorded under its key unless the key is recorded already. |
| Beam.VisitsKeys | EightPuzzle.java:486-512 | After the first loop the visited keys are the earlier ones plus the open nodes' keys, and earlier records are unchanged. |
| Beam.PassStep | EightPuzzle.java:486-512 | One open node. If its key is visited by then (the test at line 488), nothing changes. Otherwise its key is recorded with it, its unvisited children are appended (`Children`) and their indices join the pool. So the state stays the specification (`Passed`) of the nodes taken so far. |
| Beam.PassVisited | EightPuzzle.java:488-511 | A visited open node keeps the loop state, with at most 4 more nodes and one more visited key. |
| Beam.Pass | EightPuzzle.java:486-512 | The loop over `open` ends in the state `Passed` specifies, so an open node is visited exactly when its key is new at its turn, and the visited map is `Visits`. It keeps the invariant and the order of the visits, and adds to `best` exactly the nodes it generates, at most 4 per open node and at most 4 per visited key. |
| Beam.Extract | EightPuzzle.java:513-522 | The loop takes out of the pool at most k candidates (none if k <= 0), each one of least value among those left. Fewer than k only when the pool ran dry. What leaves the pool is exactly what enters `open`. `solved` holds iff a goal node was taken. Then `visited` maps the goal key to the last goal node taken; otherwise `visited` is unchanged. |
| Beam.TakeOrder | EightPuzzle.java:517 | Appending a polled node keeps `open` listed in polling order, each entry a least element of what was left. |
| Beam.TakeRecord | EightPuzzle.java:518-520 | After each extraction, `solved` tells whether a goal node was taken, and `visited` holds the last one. |
| Beam.Round | EightPuzzle.java:486-522 | One generation: first the state `Passed` specifies (the pool and visited map left by the loop over `open`, the latter equal to `Visits`). Then the new `open` and `best` split that pool, `open` has at most k entries (none if k <= 0) and fewer only when `best` ran dry, and each entry is of least value among what was left when it was taken. `solved` holds iff a goal node was taken; then `visited` adds the goal key with the last one, else it is the pool's visited map. The beam's invariant and the order of the visits are kept, with at most 4 nodes per open node; either nodes were generated or pool plus open shrank. |
| Beam.Rounds | EightPuzzle.java:483-523 | The generation loop ends with the open list empty, the goal found, or the budget exceeded, and it keeps the beam's invariant. The budget is tested once per generation, so the count stays at most max(maxNodes, 0) + 4·max(k, 1). |
| Beam.DriedUp | EightPuzzle.java:485 | Suppose the generation loop stops on an empty open list without a goal, and k >= 1. Then, from a start whose only 0 is at (r, c), no path made of allowed moves reaches the goal. |
| Beam.Run | EightPuzzle.java:483-545 | From an unsolved start: the rounds, then the budget test, then the path extraction. The outcomes are as for Beam.Solve. |
| Beam.CornerDepth | EightPuzzle.java:490 | As written, from a start with the blank at (0, 0), every node's r + c equals its depth. |
| Beam.CornerStartNeverSolved | EightPuzzle.java:490 | As written, from such a start that is not already solved, the goal key is never visited. |
| Beam.CornerStartCanonical | EightPuzzle.java:490 | The board 042/135/678 has the blank at (0, 0) only and is not solved. |
| Beam.CornerStartSolvable | EightPuzzle.java:490 | The board 042/135/678 is solved by down, right, up, left. |
| Beam.AsWrittenMissesCornerStart | EightPuzzle.java:490 | As written, the search from 042/135/678 never visits the goal, though four legal moves reach it. |
| Beam.Solve | EightPuzzle.java:462-545 | An already solved start returns 0 moves at once. Otherwise BudgetExceeded iff nodes > maxNodes. Solved gives the goal node's path, legal and reaching 012345678. NoPath means the goal was never visited. With k >= 1 and a start whose only 0 is at (r, c), no path of allowed moves reaches the goal (for the corrected version: no path at all). As written, a corner start is never Solved. The count is the number of nodes generated, at most 4 per visited key and at most max(maxNodes, 0) + 4·max(k, 1). The order of the visits holds. |
| Puzzle.FirstBadFrom | EightPuzzle.java:79 | The index of the first tile, from k on, that is 9 or repeats an earlier tile; 9 if there is none. |
| Puzzle.Tiles | EightPuzzle.java:69-73 | setState gives cell (i, j) the tile `rows[i][j] - '0'`: character j of row i, less the code of '0'. |
| Puzzle.FirstBad | EightPuzzle.java:79 | The index of the first tile that setState refuses; 9 if there is none. |
| Puzzle.LastZero | EightPuzzle.java:74-76 | The last index below n holding tile 0, or none. |
| Puzzle.AcceptedIff | EightPuzzle.java:79 | No tile is refused iff the tiles are pairwise distinct and none is 9. |
| Puzzle.DistinctBound | EightPuzzle.java:67-79 | Pairwise distinct values from lo..hi-1 number at most hi - lo. |
| Puzzle.ZeroPresent | EightPuzzle.java:67-79 | Nine distinct tiles from 0..8 include a 0. |
| Puzzle.DigitsAccepted | EightPuzzle.java:53-89 | Nine distinct digits '0'..'8' are accepted. The tiles are then 0..8 and the blank coordinates land on the only 0. |
| Puzzle.PickIndex | EightPuzzle.java:179 | `(int)(Math.random() * size)` with a draw in [0, 1) is an index of the list. |
| Puzzle.Choose | EightPuzzle.java:178-179 | The move a draw picks is legal where it is made. |
| Puzzle.Walk | EightPuzzle.java:177-189 | randomize makes one move per draw. |
| Puzzle.WalkLegal | EightPuzzle.java:177-189 | Every move randomize makes is legal. |
| Puzzle.RandomizedSolvable | EightPuzzle.java:172-190 | A randomized board is reached from the solved board by a legal path, and its only 0 is at (r, c). The inverse path is legal from it and leads back to 012345678. |
| Puzzle.ReplayCanonical | EightPuzzle.java:111-164 | Any moves keep a board whose only 0 is at (r, c) that way. |
| Puzzle.RightDownFromSolved | EightPuzzleTester.java:11-25 | On a new puzzle up and left are refused, and right then down give the key 142305678. |
| Puzzle.RepeatRefused | EightPuzzleTester.java:28 | setState {"112", "456", "780"} is refused at the repeated 1. |
| Puzzle.CornerBlankTiles | EightPuzzleTester.java:29 | setState {"123", "456", "780"} reads the tiles 1..8 then 0. |
| Puzzle.CornerBlankAccepted | EightPuzzleTester.java:29 | setState accepts those tiles and puts the blank on the last cell. |
| Puzzle.CornerBlankMoves | EightPuzzleTester.java:31-38 | From there right and down are refused, and up then left give the key 123405786. |
| Puzzle.EightPuzzle.Cells | EightPuzzle.java:553-561 | The key lists cell (i, j) at position 3i + j: the grid row-major. |
| Puzzle.EightPuzzle.ToBoard | EightPuzzle.java:553-561 | The object seen as a board value: its key and its blank coordinates. |
| Puzzle.EightPuzzle.constructor | EightPuzzle.java:28-35 | A new puzzle is solved, has its blank at (0, 0) and has no last move. |
| Puzzle.EightPuzzle.SolvedGrid | EightPuzzle.java:29 | A fresh grid holding 012/345/678. |
| Puzzle.EightPuzzle.MoveUp | EightPuzzle.java:111-119 | `up`: in row 0 it returns false and changes nothing. Otherwise the board becomes the move's result, `r` decreases and `prevMove` is up. |
| Puzzle.EightPuzzle.MoveDown | EightPuzzle.java:126-134 | `down`: refused in row 2, otherwise as for up. |
| Puzzle.EightPuzzle.MoveLeft | EightPuzzle.java:141-149 | `left`: refused in column 0, otherwise as for up. |
| Puzzle.EightPuzzle.MoveRight | EightPuzzle.java:156-164 | `right`: refused in column 2, otherwise as for up. |
| Puzzle.EightPuzzle.Apply | EightPuzzle.java:180-188 | The dispatch on the move's name makes that move. |
| Puzzle.EightPuzzle.CopyGrid | EightPuzzle.java:311-319 | The copy loop yields a fresh 3×3 array with the same cells. |
| Puzzle.EightPuzzle.Duplicate | EightPuzzle.java:309-324 | `duplicate` returns a new object in a fresh grid, with the same board and no last move. |
| Puzzle.EightPuzzle.CheckFormat | EightPuzzle.java:97-105 | True exactly for three rows of three characters. |
| Puzzle.EightPuzzle.SetState | EightPuzzle.java:53-89 | Badly shaped rows return false and change nothing. Otherwise it returns true iff no tile is refused, and then the grid holds the tiles row-major. On refusal the grid is a fresh copy of the old contents. Either way the blank coordinates end on the last 0 written, up to and including the refused tile, or stay where they were if none was written. `prevMove` is unchanged. |
| Puzzle.EightPuzzle.Fill | EightPuzzle.java:67-88 | The loop writes the tiles row-major and stops at the first refused one. It reports whether there was one; on success the grid holds all the tiles. |
| Puzzle.EightPuzzle.Place | EightPuzzle.java:72-84 | One tile: it is written, the coordinates follow a 0, and it is refused iff it is 9 or was seen before. |
| Puzzle.EightPuzzle.Equals | EightPuzzle.java:582-595 | True exactly when the two grids agree cell by cell; the blank coordinates are not compared. |
| Puzzle.EightPuzzle.Reset | EightPuzzle.java:174-176 | randomize starts from a fresh solved grid with the blank at (0, 0), keeping `prevMove`. |
| Puzzle.EightPuzzle.RandomMove | EightPuzzle.java:178-188 | One turn makes the legal move the draw picks and records it. |
| Puzzle.EightPuzzle.Randomize | EightPuzzle.java:172-190 | The board becomes the replay of the walk from the solved board. `prevMove` is the last move made, or unchanged if no move was made. |
| Puzzle.EightPuzzle.SolveAStar | EightPuzzle.java:220-228 | A name other than "h1" or "h2" is refused before any search. The other two run A\* with that heuristic, from a tree rooted at the object. The results: BudgetExceeded iff nodes > maxNodes; the count is the number of nodes generated, at most 4 per visited key and at most maxNodes + 4 when maxNodes >= 0 and 0 when maxNodes < 0; the order of the visits holds; a Solved path is legal and reaches 012345678; NoPath from a board whose only 0 is at (r, c) means the goal is unreachable. |
| Puzzle.EightPuzzle.SolveBeam | EightPuzzle.java:462-545 | Beam search from the object, with the corrected move source. A solved board gives 0 moves; otherwise BudgetExceeded iff nodes > maxNodes. The count is the number of nodes generated, at most 4 per visited key and at most max(maxNodes, 0) + 4·max(k, 1), and the order of the visits holds. A Solved path is legal and reaches the goal. With k >= 1 and a board whose only 0 is at (r, c), NoPath means the goal is unreachable. |

## Left out

- **Printing.** `toString`, `main`, and the printing in `solveAStar`, `solveH1`, `solveH2` and `solveBeam` are left out. The searches return the path and the node count instead. The A\* result is the path's length, where the source returns it, or 0 when there is no path.
- **The node limit.** The static field `maxNodes` and `setMaxNodes` are not modelled as state. `maxNodes` is a parameter of every solver.
- **Exceptions.** `OutOfMemoryError` becomes `BudgetExceeded`, and `IllegalArgumentException` becomes `InvalidHeuristic`.
- **Math.random.** randomize takes its draws (reals in [0, 1)) as a parameter. The number of draws stands for `n`; a negative `n` is no draws.
- **Tie-breaking.** The priority queue's tie-breaking is left open. Poll returns any element of least value, so no particular path among equal-cost ones is claimed.
- **Search nodes.** Nodes are values in an arena, not objects holding `parent` and `value` fields. The object's own `parent` (null) and `value` (0) appear as the root node. The solvers do not change the object.
- **Java `int` arithmetic.** Overflow near `Integer.MAX_VALUE` is not modelled: in the node counter, in the values, and in `compareTo`'s subtraction. Integers are unbounded.
- **String keys.** Keys are the tile sequences, not `gridToString` strings in a `HashMap`. The two differ only for tiles outside 0..9, which `setState` lets in through non-digit characters. Two such grids can share a string key in the source (tiles 1 and 23 versus 12 and 3) but not in the model. Recognising the goal is the same either way.
- **Characters.** A Java `String` is a sequence of UTF-16 code units, and `length()` and `toCharArray()` count those. Here a row is a sequence of Unicode scalar values. So a row holding a character outside the Basic Multilingual Plane has a different length, and different tiles, in the two. Such rows are not modelled faithfully.
- **h2 needs tiles 0..8.** With other tiles the `spots[grid[i][j]]` lookup fails. So SolveAStar with "h2", and SolveBeam, require tiles in 0..8.
- **equals(Object).** The branch for an object that is not an `EightPuzzle` is left out; Equals takes a puzzle.
- **Optimality.** Shortest paths are not claimed, since neither search promises one.
- **Termination.** Termination is shown through the node budget.
- **Experiments.java.** The timing driver is left out. It uses `System.nanoTime` and averages of doubles, and it assigns the result of the `void` method `solveBeam`.
- **Test expectations the code does not meet.** EightPuzzleTester.java expects `solveBeam(0)` and `setMaxNodes(0)` to throw. The code does neither: `k` is never checked, and `setMaxNodes` only assigns. Neither expectation is modelled.
- Puzzle.EightPuzzle.SolveBeam: it uses the corrected move source, as recorded under Findings. The behaviour as written is Beam.Solve with `StartMoves`.
- AStar.Solve: for a NoPath result, it states that the goal is unreachable only for starts whose only 0 is at (r, c). Other boards can be set up through `setState` (no 0, or coordinates left stale by a refused state). For those it states only that the goal key was never visited.
- Beam.Solve: for a NoPath result with the move source as written, it states only that no path made of the start's legal moves reaches the goal.
- Puzzle.EightPuzzle.Fill: on a refused tile it does not say which cells were overwritten; SetState replaces the grid with the saved copy anyway.

## Findings

| source | as written | input that shows it | evidently intended | confidence | as-written member | corrected member |
|---|---|---|---|---|---|---|
| EightPuzzle.java:490 | `solveBeam` expands every node with `this.getValidMoves()`, i.e. the legal moves of the start board. An illegal move leaves the child equal to its parent, and the parent's key is already visited. | The start 042/135/678, blank at (0, 0), is solved by down, right, up, left. As written only down and right are ever tried, so every node's r + c is its depth. The goal has its blank at (0, 0), so it is never generated, and beam search never reports a path. | Expand each node with its own legal moves, `currState.getValidMoves()`, as A\* does at lines 255 and 389. | high; not executed | Beam.AsWrittenMissesCornerStart | Puzzle.EightPuzzle.SolveBeam |
