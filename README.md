# AI_Projects: N-Queens conflict tests, game-tree evaluation and checkers boards

This project is a Dafny model of the core of a small Python repository with
two parts.

**N-Queens helpers** (`csp/helpers.py`, `csp/nqueens.py`):
- the diagonal and column conflict tests used to decide whether a queen's
  value is supported by another row's domain;
- a board of per-row domains whose coordinate objects carry an `occupied`
  flag, which the board operations toggle in place.

**Adversarial search scaffolding** (`adversarial/checkers/graph.py`,
`adversarial/checkers/checkers.py`, and the older `adversarial/checkers.py`):
- a game-tree node evaluated by MIN, MAX, floor-average EXPECTIMAX and
  TERMINAL rules;
- a checkers board of square objects holding piece objects, with set-up,
  cloning, turn changes, a per-piece heuristic, the counting scans behind
  the state heuristic, move generation, and the one-player-left goal test.

The repository has no arc-consistency worklist and no backtracking solver.
Only the predicates such a solver would call are present, so only those are
modelled.

## Modules

| file | module | contents |
|---|---|---|
| `outcomes.dfy` | `Outcomes` | `Option`, `Result`, `Abs`, `Max` |
| `queens_helpers.dfy` | `QueensHelpers` | neighbouring squares, the diagonal walk, the support tests |
| `queens_board.dfy` | `QueensBoard` | `BoardCoordinate`, `BoardDomain` and `Board` as classes whose only mutable state is the `occupied` flags |
| `game_tree.dfy` | `GameTree` | `GraphNode` as a class with a `Repr` footprint; its value as a recursive function |
| `checkers_grid.dfy` | `CheckersGrid` | the board seen as a value grid; Python list indexing and swallowed exceptions spelled out; the per-piece scans, move generation, heuristic terms and initial placement as functions |
| `checkers_board.dfy` | `CheckersBoard` | `CheckersPiece` and `BoardPiece` as classes shared by both game versions; board generation, set-up and the goal-test scan as methods |
| `checkers.dfy` | `Checkers` | the newer `CheckersState` and `CheckersGraphNode` |
| `checkers_legacy.dfy` | `CheckersLegacy` | the older `CheckersState` and `CheckersGraphNode` |

### How Python's behaviour is encoded

- **Exceptions.** An operation that can raise returns a `Result`. Its error
  names the exception: `CannotFindDomain`, `KeyError(col)`, `EmptyArgument`,
  `DivisionByZero`, `MissingBoardAttribute` (an `AttributeError`) or
  `IndexError`.
- **Swallowed exceptions in the checkers scans.** Inside a `try`/`except:
  pass` block, an expression that raises evaluates to `None`.
- **List indexing.** `PyIndex` gives Python's meaning: negative indices count
  from the end, and any other out-of-range index raises.
- **Floor division.** Python's `//` by a positive divisor is Dafny's `/`.
- **Set iteration.** `check_is_value_valid` may visit the set in any order,
  and its result does not depend on the order.

### Where the code and its description differ (the model follows the code)

- **Diagonal test off the board.** `check_diagonal` is
  `|r - sr| == |c - sc|` only when both rows are positive. For a
  non-positive row the walk stops immediately, and the test becomes column
  equality.
- **`update_horizontal`** compares each column key with the *row* number.
  It toggles every square of the row except the one in column `queen_x`,
  and toggles instead of only setting.
- **`update_vertical`** first looks up row 0, which never exists. It
  therefore raises on every board that has a row, and its remaining lines
  are never reached.
- **`update_diagonals`:**
  - walking up (`down=False`), the range of rows is empty for every
    `queen_x >= 1`;
  - its `col == 0 and not right` exit can never be reached, because the
    column 0 lookup raises `KeyError` first.
- **`init_board` never overwrites a piece.** The TOP pass continues the
  parity alternation of the BOTTOM pass. On any row both passes visit, they
  use columns of opposite parity.
- **Vulnerable and safe points.** A piece's vulnerable points are 0 or 1,
  not up to 4. Its safe positions are at most 6 while there are no kings,
  and at most 8 in general. The extra blocks test a square object against
  `None`, which is never true, and nothing ever crowns a piece.
- **Moves.** Move generation only ever produces the up-left capture, for the
  same reason.
- **Copying a state.** The `CheckersState` constructor reads `self.board`
  before assigning it when given a non-empty board to copy. So `clone`
  raises on every board with a row, and `process_move` raises on every
  state:
  - on a board with a row, through `clone`;
  - on a board without rows, by indexing the empty board copy.

## Model

| member | source | states |
|---|---|---|
| QueensHelpers.GenerateDiag | csp/helpers.py:6-7 | both coordinates move by exactly one; the row increases iff `down`, the column decreases iff `left` |
| QueensHelpers.GenerateCol | csp/helpers.py:10-11 | the row moves by exactly one (up iff not `down`), the column is unchanged |
| QueensHelpers.DoesDiagonalHit | csp/helpers.py:14-24 | the loop terminates (measure `|row - source_row|`) and its result is the closed form `DiagonalHit`: column equality when no step is taken, otherwise the right direction and the column shifted by the number of steps |
| QueensHelpers.DiagWalkStaysOnDiagonal | csp/helpers.py:6-7 | `k` diagonal steps move both coordinates by `k`, and every on-board square reached lies on a diagonal of the start according to `CheckDiagonal` |
| QueensHelpers.ColWalkStaysInColumn | csp/helpers.py:10-11 | `k` column steps move the row by `k`, keep the column, and every square reached is a column hit of the start |
| QueensHelpers.ColHitIsColumnWalk | csp/helpers.py:27-28 | the column test holds iff walking the source's column towards the other row reaches the other square |
| QueensHelpers.CheckDiagonal | csp/helpers.py:31-32 | for rows >= 1 the four walks together hold iff `|r - sr| == |c - sc|`; in general, the exact condition including non-positive rows |
| QueensHelpers.CheckIsValueValidV2 | csp/helpers.py:42-45 | valid implies different columns; on the board, valid iff different column and not on a common diagonal |
| QueensHelpers.ValueValidV2IsSingleton | csp/helpers.py:42-45 | the single-value test equals the set test on the one-element domain |
| QueensHelpers.CheckIsValueValid | csp/helpers.py:35-39 | true iff some column of the domain passes the single-value test; an empty domain gives false |
| QueensHelpers.SupportedOnBoard | csp/helpers.py:35-39 | on the board, the set test holds iff some domain column differs from the value's column and is off its diagonals |
| QueensBoard.BoardCoordinate.constructor | csp/nqueens.py:5-8 | stores the coordinates; a new coordinate is unoccupied |
| QueensBoard.BoardCoordinate.Occupy | csp/nqueens.py:10-11 | negates the flag, so two calls restore it |
| QueensBoard.BoardDomain.constructor | csp/nqueens.py:14-18 | key is the row; keys are exactly `1..cols`, each a new unoccupied coordinate `(row, col)` |
| QueensBoard.Board.constructor | csp/nqueens.py:22-27 | `m` rows, `n` columns (5 by 5 by default), domain `i` has key `i + 1`, all squares free |
| QueensBoard.Board.FindDomain | csp/nqueens.py:30-34 | succeeds iff `1 <= row <= rows`, with the domain of that key; otherwise raises "Cannot find domain" |
| QueensBoard.Board.PlaceQueen | csp/nqueens.py:37-41 | raises iff the row is missing; occupies the target if it exists and is free; no other square changes |
| QueensBoard.Board.UpdateDiagonals | csp/nqueens.py:44-55 | empty range: true, unchanged; missing row: raises, unchanged; missing column: `KeyError`, unchanged; right edge: returns whether the first square was free, unchanged; otherwise occupies the free run of the fixed column from the start row and returns false at the first occupied square, true if none |
| QueensBoard.Board.OccupyRun | csp/nqueens.py:46-54 | once the first row and the column are known to exist: occupies the squares of the column from the start row that were free, stops at the first that was occupied (or at the end of the range) and reports which row it reached; nothing else changes |
| QueensBoard.Board.UpdateHorizontal | csp/nqueens.py:57-61 | raises iff the row is missing (and changes nothing); otherwise toggles every square of the row except column `queen_x` |
| QueensBoard.Board.ToggleRowExcept | csp/nqueens.py:59-61 | every square of the row whose column differs from `queen_x` has its flag flipped; all other squares keep theirs |
| QueensBoard.Board.UpdateVertical | csp/nqueens.py:63-70 | raises on every board with a row, returns true on a board without rows, never changes anything |
| GameTree.GraphNode.constructor | adversarial/checkers/graph.py:15-19 | value `-1` by default, no spec, no children, level 1 |
| GameTree.GraphNode.AddChild | adversarial/checkers/graph.py:21-24 | child appended last, earlier children kept, `child.level == level + 1`, returns the node |
| GameTree.GraphNode.AddChildren | adversarial/checkers/graph.py:26-30 | children appended in order, each one level below the node; the footprint grows by exactly the children's footprints, so the node can later be added under any node outside them; returns the node |
| GameTree.GraphNode.SetSpec | adversarial/checkers/graph.py:32-34 | stores the spec, returns the node |
| GameTree.MinOf | adversarial/checkers/graph.py:40 | the minimum is an element and bounds all elements |
| GameTree.MaxOf | adversarial/checkers/graph.py:42 | the maximum is an element and bounds all elements |
| GameTree.GraphNode.ChildValues | adversarial/checkers/graph.py:39-44 | child values in order; succeeds iff every child evaluates |
| GameTree.GraphNode.GetValue | adversarial/checkers/graph.py:36-45 | TERMINAL gives the stored value; no spec gives 0; MIN/MAX without children raise (empty argument); EXPECTIMAX without children raises (division by zero) |
| GameTree.MinNodeIsLeastChild | adversarial/checkers/graph.py:39-40 | a MIN node's value is some child's value and at most every child's value |
| GameTree.MaxNodeIsGreatestChild | adversarial/checkers/graph.py:41-42 | a MAX node's value is some child's value and at least every child's value |
| GameTree.FloorAverageBetween | adversarial/checkers/graph.py:43-44 | the floor of the average lies between the minimum and the maximum |
| GameTree.ExpectimaxNodeBetweenChildren | adversarial/checkers/graph.py:43-44 | an EXPECTIMAX node's value lies between two of its children's values |
| GameTree.ChildValuesFailure | adversarial/checkers/graph.py:39-44 | a failed evaluation of the children is the failure of one of them |
| GameTree.FailureComesFromChild | adversarial/checkers/graph.py:39-44 | a node with children fails only with the error of one of its children |
| CheckersGrid.VulnerablePoints | adversarial/checkers/checkers.py:43-89 | the four blocks add up to 1 exactly when an opponent sits at `[y+1][x-1]` and `[y-1][x+1]` is an empty square, else 0 |
| CheckersGrid.SafePositions | adversarial/checkers/checkers.py:92-171 | the eight blocks add up to one indicator per neighbouring opponent, the diagonal ones also needing the square across to exist (or to hold a piece), the two king blocks needing an opposing king |
| CheckersGrid.SafePositionsBound | adversarial/checkers/checkers.py:92-171 | at most 8, and at most 6 on a board without kings |
| CheckersGrid.IsForcedJump | adversarial/checkers/checkers.py:174-175 | forced iff the piece has a vulnerable point |
| CheckersGrid.RowOwnedBy | adversarial/checkers/checkers.py:456-460 | the pieces of a player in a row are exactly the row's pieces with that owner |
| CheckersGrid.OwnedBy | adversarial/checkers/checkers.py:455-460 | the pieces collected by the scans are exactly the board's pieces of that player |
| CheckersGrid.ForcedJumpsAreVulnerablePoints | adversarial/checkers/checkers.py:485-498 | the forced-jump total equals the vulnerable-points total and lies in `[0, number of pieces]` |
| CheckersGrid.SafeTotalBound | adversarial/checkers/checkers.py:470-483 | the safe-positions total is at most 8 per piece, 6 per piece without kings |
| CheckersGrid.PieceMoves | adversarial/checkers/checkers.py:396-450 | a piece yields exactly the up-left capture to `(x-2, y+2)` when it is not a king, an opponent is at `[x-1][y+1]` and `[x-2][y+2]` is empty; nothing otherwise |
| CheckersGrid.LandingPieceBlock | adversarial/checkers/checkers.py:426-437 | the up-left block yields its capture exactly when an opponent's piece is jumped onto an empty square |
| CheckersGrid.LandingCellBlock | adversarial/checkers/checkers.py:439-450 | a block that compares the landing square object with None never yields a move (the same holds for the two king blocks, lines 400-423) |
| CheckersGrid.MovesAreUpLeftCaptures | adversarial/checkers/checkers.py:396-450 | at most one move per piece, each an up-left capture from one of the pieces |
| CheckersGrid.PotentialMovesAreOwnCaptures | adversarial/checkers/checkers.py:386-452 | all generated moves are up-left captures from pieces of the player on turn, no more than that player's pieces |
| CheckersGrid.HeuristicIncrement | adversarial/checkers/checkers.py:220-262 | one evaluation adds at least the material count (1, or 2 for a king) |
| CheckersGrid.InitialCellFacts | adversarial/checkers/checkers.py:21-40 | a board of at most two rows stays empty; a placed piece is not a king, records its column, and belongs to BOTTOM on squares whose column and row have the same parity and to TOP on the others |
| CheckersGrid.InitialGrid | adversarial/checkers/checkers.py:21-40 | the set-up board's shape and every square's content |
| CheckersGrid.InitialGridHasBothPlayers | adversarial/checkers/checkers.py:575-589 | a set-up board of at least 3 rows and 2 columns has pieces of both players, so it is not a goal state |
| CheckersBoard.CheckersPiece.constructor | adversarial/checkers/checkers.py:211-218 | owner, coordinates and board size stored, not a king, value 0 |
| CheckersBoard.CheckersPiece.ComputeHeuristicValue | adversarial/checkers/checkers.py:220-262 | the value grows by the heuristic increment, hence by at least 1 per call, and the new value is returned |
| CheckersBoard.CheckersPiece.KingPosition | adversarial/checkers/checkers.py:224-237 | the king's-position term is 0 for a piece that is not a king and 0 for a piece outside the rows `kingsRowStart..kingsRowEnd`; it is the term `ComputeHeuristicValue` adds |
| CheckersBoard.CheckersPiece.Clone | adversarial/checkers/checkers.py:264-266 | a new piece with the same owner and coordinates, not a king, board size 0, value 0 |
| CheckersBoard.BoardPiece.constructor | adversarial/checkers/checkers.py:282-285 | coordinates stored, no piece |
| CheckersBoard.BoardPiece.PlacePiece | adversarial/checkers/checkers.py:287-288 | the square holds the given piece |
| CheckersBoard.BoardPiece.Clone | adversarial/checkers/checkers.py:290-293 | a new square with the same coordinates, holding a new uncrowned copy of the piece if there was one; the copy is built with the constructor's defaults, so it sits on a 0-by-0 board with value 0 |
| CheckersBoard.GenerateCheckersBoard | adversarial/checkers/checkers.py:10-18 | `rows` rows of `cols` new empty squares, square `[i-1][j-1]` at `(i, j)`; the older file's copy (adversarial/checkers.py:8-16) is the same |
| CheckersBoard.PlaceRow | adversarial/checkers/checkers.py:28-30 | a new piece on every second square from the start column, nothing else changes |
| CheckersBoard.PlaceBottom | adversarial/checkers/checkers.py:27-31 | BOTTOM pieces on rows `0..rows-3` at the columns of the row's parity; returns the alternation flag |
| CheckersBoard.PlaceTop | adversarial/checkers/checkers.py:34-38 | TOP pieces on rows `rows-1..2` at the columns of the other parity, with `y` the loop counter; so the pass never lands on a square `PlaceBottom` filled |
| CheckersBoard.SetUpPieces | adversarial/checkers/checkers.py:21-40 | every square of the initial placement gets a new piece, the others are untouched, no king appears, and an empty board ends up showing `InitialGrid` |
| CheckersBoard.CountPlayers | adversarial/checkers/checkers.py:580-587 | the dictionary has a key for a player iff the player has pieces, with their number as value |
| CheckersBoard.CountRow | adversarial/checkers/checkers.py:581-587 | one row's pieces added to the counts: a player gets a key once it has a piece, and its count grows by its pieces on the row |
| CheckersBoard.OneKeyMeansOnePlayer | adversarial/checkers/checkers.py:589 | one key iff exactly one of the two players is present |
| CheckersBoard.OnePlayerLeftOn | adversarial/checkers/checkers.py:579-589 | true iff exactly one player has pieces on the board (an empty board gives false) |
| Checkers.CollectOwned | adversarial/checkers/checkers.py:455-460 | the collected pieces show exactly the pieces of the player, in row order |
| Checkers.CollectOwnedInRow | adversarial/checkers/checkers.py:457-460 | the pieces of the player on one row, in column order |
| Checkers.Partition | adversarial/checkers/checkers.py:501-509 | the number of pieces of the player and of the other player |
| Checkers.PartitionRow | adversarial/checkers/checkers.py:504-509 | one row's pieces counted on the right side |
| Checkers.MovesOfPieces | adversarial/checkers/checkers.py:395-450 | the captures of the pieces, in order |
| Checkers.CapturesOn | adversarial/checkers/checkers.py:387-450 | collecting the player's pieces and trying their blocks yields `PotentialMoves` of the grid the board shows |
| Checkers.SumVulnerable | adversarial/checkers/checkers.py:463-467 | the sum of the vulnerable points of the collected pieces |
| Checkers.SumSafe | adversarial/checkers/checkers.py:478-481 | the sum of the safe positions of the collected pieces |
| Checkers.CountForcedJumps | adversarial/checkers/checkers.py:493-496 | the number of collected pieces that are forced to jump |
| Checkers.VulnerableOn | adversarial/checkers/checkers.py:455-467 | the vulnerable-points total over exactly the player's pieces on the board |
| Checkers.SafeOn | adversarial/checkers/checkers.py:471-481 | the safe-positions total over exactly the player's pieces on the board |
| Checkers.ForcedJumpsOn | adversarial/checkers/checkers.py:486-496 | the forced-jump count over exactly the player's pieces on the board |
| Checkers.CheckersState.New | adversarial/checkers/checkers.py:334-345 | raises iff given a non-empty board and `rows >= 1`; otherwise a new state with the given turn (else the coin), an empty board of the right shape (empty when copying), value 0, no moves, unexplored, no parent, depth 1 |
| Checkers.CheckersState.NextTurn | adversarial/checkers/checkers.py:347-348 | the turn passes to the other player, and the other player of the new turn is the old turn, so two calls restore it |
| Checkers.CheckersState.Clone | adversarial/checkers/checkers.py:350-356 | raises iff the board has a row; otherwise a new state with the same turn, size, value and explored flag and an empty board |
| Checkers.CheckersState.CloneBoard | adversarial/checkers/checkers.py:358-366 | new squares and pieces that show the same grid; every copied piece has value 0 and a 0-by-0 board size |
| Checkers.CheckersState.ProcessMove | adversarial/checkers/checkers.py:368-378 | always raises: the missing attribute on a board with a row, an index error otherwise |
| Checkers.CheckersState.ProcessMoves | adversarial/checkers/checkers.py:380-384 | succeeds, with no successors, iff there are no stored moves |
| Checkers.CheckersState.GeneratePotentialMoves | adversarial/checkers/checkers.py:386-452 | stores and returns `PotentialMoves` of the board for the player on turn |
| Checkers.CheckersState.TotalVulnerablePositions | adversarial/checkers/checkers.py:454-468 | the sum of the vulnerable points of the player's pieces, between 0 and their number |
| Checkers.CheckersState.TotalSafePositions | adversarial/checkers/checkers.py:470-483 | the sum of the safe positions of the player's pieces, between 0 and 6 per piece |
| Checkers.CheckersState.TotalForcedJumps | adversarial/checkers/checkers.py:485-498 | the number of forced jumps, equal to the vulnerable-positions total, between 0 and the number of pieces |
| Checkers.CheckersState.CalculateBoardControl | adversarial/checkers/checkers.py:500-510 | the player's pieces minus the other player's pieces |
| Checkers.InitBoard | adversarial/checkers/checkers.py:21-40 | sets up the pieces on any valid state's board and returns the same state: every square `InitialCell` names gets a new piece with that view and the board's size, every other square keeps its contents; a fresh state then shows `InitialGrid` |
| Checkers.CheckersGraphNode.constructor | adversarial/checkers/checkers.py:568-570 | no state |
| Checkers.CheckersGraphNode.SetState | adversarial/checkers/checkers.py:572-573 | stores the state |
| Checkers.CheckersGraphNode.IsGoalState | adversarial/checkers/checkers.py:575-589 | false without a state; otherwise true iff exactly one player has pieces |
| CheckersLegacy.CheckersState.New | adversarial/checkers.py:96-103 | raises iff given a non-empty board and `rows >= 1`; otherwise the given turn (else the coin) and an empty board of the right shape |
| CheckersLegacy.InitBoard | adversarial/checkers.py:106-125 | the same set-up as the newer file on any valid state: the `InitialCell` squares get new pieces, the rest keep their contents, and a fresh state shows `InitialGrid` |
| CheckersLegacy.CheckersGraphNode.constructor | adversarial/checkers.py:129-131 | no state |
| CheckersLegacy.CheckersGraphNode.SetState | adversarial/checkers.py:133-134 | stores the state |
| CheckersLegacy.CheckersGraphNode.IsGoalState | adversarial/checkers.py:136-150 | false without a state; otherwise true iff exactly one player has pieces |
| CheckersLegacy.CheckersGraphNode.RunAlgorithm | adversarial/checkers.py:152-161 | pops the seeded state once and stops; nothing without a state |

## Left out

- **The random first turn** (`randint`) is the `coin` parameter of `New`.
- **A missing `curr_board` (`None`) and an empty one are both falsy.** Both
  are modelled as the empty sequence.
- **`run_iterative_deepening_dfs`, the `__main__` blocks and the `print`
  calls** are driver code and output. The search would also stop at once,
  because `process_moves` raises.
- **`sort_states_by_heuristic`, `generate_heuristic` and
  `calculate_total_pieces_heuristic`** are not modelled. The sort key changes
  `value` while sorting, so the order depends on the library's sort. The
  total calls the modelled per-piece `ComputeHeuristicValue` once for each
  square holding one of the player's pieces. One piece object could sit on
  two squares, so its total is not stated.
- **The board copy stored in each `CheckersMove`** is not modelled. A move is
  a value with its coordinates and capture flag.
- **`process_move` lines 373-377** (deleting and placing the piece, the turn
  change, the depth) are never reached, so they are not modelled.
- **`CheckersGraphNode` inheriting from `GraphNode`**: the checkers nodes
  model only their `state` field. The inherited value, spec and children
  are modelled once, in `GameTree.GraphNode`.
- **The older `CheckersPiece` and `BoardPiece`** are the same classes as the
  newer ones, so both files share `CheckersBoard`. The older
  `compute_heuristic_value` makes the same update but returns `None`, and
  callers of the shared method may ignore its result.
- **GameTree.GraphNode.AddChild:** the child's nodes must not include the
  node it is added to, so the structure stays acyclic; children shared
  between parents are allowed. Adding a child below a node that already has
  a parent does not update the ancestors' footprints in the model.
- **GameTree.GraphNode.AddChildren:** the same acyclicity requirement as
  `AddChild`, for each child. The list of children to add is taken as a
  value, so the model does not capture aliasing. In Python,
  `n.add_children(n.children)` appends to the list it is iterating over and
  never ends. In the model, the same call ends with the old children
  appended once more.
- **`adversarial/checkers/helpers.py`** is not part of this model. It
  raises `NameError` on import, and its one function duplicates
  `generate_diag`.
- **Checkers.Partition** counts the two players' pieces instead of building
  the two lists that `calculate_board_control` (lines 500-510) only
  measures. The result is the same.
