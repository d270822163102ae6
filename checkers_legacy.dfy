/** The older checkers game: the same board, pieces and set-up as the newer
    one, a game state holding only the turn and the board, and a graph node
    whose search loop only pops its seeded state. */
module CheckersLegacy {
  import opened Outcomes
  import opened CheckersGrid
  import opened CheckersBoard

  class CheckersState {
    const turn: Player
    const board: seq<seq<BoardPiece>>
    const rows: int
    const cols: int

    ghost predicate Valid()
      reads Cells(board)
    {
      WellFormed(board, rows, cols) && NoKings(board)
    }

    constructor Make(rows: int, cols: int, turn: Player, board: seq<seq<BoardPiece>>)
      ensures this.rows == rows && this.cols == cols && this.turn == turn && this.board == board
    {
      this.turn := turn;
      this.board := board;
      this.rows := rows;
      this.cols := cols;
    }

    /** The state's constructor: the given turn or else `coin` (the random
        choice); a non-empty board to copy raises when there is a row to
        copy, because the copy reads the state's own, not yet assigned,
        board; otherwise a fresh empty board. */
    static method New(rows: int, cols: int, currTurn: Option<Player>, currBoard: seq<seq<BoardPiece>>, coin: Player)
      returns (r: Result<CheckersState, StateError>)
      ensures r.Err? <==> |currBoard| > 0 && rows >= 1
      ensures r.Err? ==> r.error == MissingBoardAttribute
      ensures r.Ok? ==> fresh(r.value) && r.value.rows == rows && r.value.cols == cols && r.value.Valid()
      ensures r.Ok? ==> r.value.turn == (if currTurn.Some? then currTurn.value else coin)
      ensures r.Ok? ==> Blank(r.value.board) && fresh(Cells(r.value.board))
      ensures r.Ok? && |currBoard| > 0 ==> r.value.board == []
    {
      var turn := if currTurn.Some? then currTurn.value else coin;
      var board: seq<seq<BoardPiece>>;
      if |currBoard| > 0 {
        if rows >= 1 {
          return Err(MissingBoardAttribute);
        }
        board := [];
      } else {
        board := GenerateCheckersBoard(rows, cols);
      }
      var state := new CheckersState.Make(rows, cols, turn, board);
      return Ok(state);
    }
  }

  /** init_board on a state: the same set-up as the newer game. */
  method InitBoard(state: CheckersState) returns (s: CheckersState)
    requires state.Valid()
    modifies Cells(state.board)
    ensures s == state && state.Valid()
    ensures forall r, c :: 0 <= r < |state.board| && 0 <= c < |state.board[r]| ==>
      if InitialCell(state.rows, state.cols, r, c).Some? then
        Holds(state.board[r][c].piece, InitialCell(state.rows, state.cols, r, c).value, state.rows, state.cols) &&
        fresh(state.board[r][c].piece)
      else state.board[r][c].piece == old(state.board[r][c].piece)
    ensures old(Blank(state.board)) ==> GridOf(state.board) == InitialGrid(Max(state.rows, 0), Max(state.cols, 0))
  {
    SetUpPieces(state.board, state.rows, state.cols);
    return state;
  }

  class CheckersGraphNode {
    var state: CheckersState?

    constructor ()
      ensures state == null
    {
      state := null;
    }

    method SetState(state: CheckersState)
      modifies this`state
      ensures this.state == state
    {
      this.state := state;
    }

    /** The game is over when the state's board has pieces of exactly one
        player; without a state it is not. */
    method IsGoalState() returns (goal: bool)
      ensures goal <==> state != null && OnePlayerLeft(GridOf(state.board))
    {
      if state == null {
        return false;
      }
      goal := OnePlayerLeftOn(state.board);
    }

    /** The search loop: seeded with the state, it pops states until the
        stack is empty and pushes nothing, so it visits the state once (and
        nothing without a state). Returns the states in the order popped. */
    method RunAlgorithm() returns (popped: seq<CheckersState>)
      ensures popped == (if state == null then [] else [state])
    {
      popped := [];
      if state == null {
        return;
      }
      var turn := state.turn;
      var moveQueue := [state];
      while |moveQueue| > 0
        invariant |moveQueue| + |popped| == 1
        invariant moveQueue == [state] || popped == [state]
      {
        var currMove := moveQueue[|moveQueue| - 1];
        moveQueue := moveQueue[..|moveQueue| - 1];
        popped := popped + [currMove];
      }
    }
  }
}
