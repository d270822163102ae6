/** The newer checkers game: a game state holding a board and the player on
    turn, with the board scans behind its heuristic, and the graph node that
    holds a state and tests it for the end of the game. */
module Checkers {
  import opened Outcomes
  import opened CheckersGrid
  import opened CheckersBoard

  /** What the pieces show, in order. */
  function Views(ps: seq<CheckersPiece>): (vs: seq<PieceView>)
    ensures |vs| == |ps| && forall k :: 0 <= k < |ps| ==> vs[k] == ps[k].View()
  {
    seq(|ps|, k requires 0 <= k < |ps| => ps[k].View())
  }

  lemma ViewsAppend(ps: seq<CheckersPiece>, p: CheckersPiece)
    ensures Views(ps + [p]) == Views(ps) + [p.View()]
  {
  }

  lemma ViewsConcat(ps: seq<CheckersPiece>, qs: seq<CheckersPiece>)
    ensures Views(ps + qs) == Views(ps) + Views(qs)
  {
  }

  /** The scan that opens every counter: the pieces of `who`, row by row,
      on a board whose squares show `g`. */
  method CollectOwned(board: seq<seq<BoardPiece>>, who: Player, ghost g: Grid) returns (yours: seq<CheckersPiece>)
    requires g == GridOf(board)
    ensures Views(yours) == OwnedBy(g, who)
  {
    yours := [];
    for i := 0 to |board|
      invariant Views(yours) == OwnedBy(g[..i], who)
    {
      OwnedByStep(g, i, who);
      var found := CollectOwnedInRow(board[i], who, g[i]);
      ViewsConcat(yours, found);
      yours := yours + found;
    }
    assert g[..|board|] == g;
  }

  /** The inner loop of CollectOwned: the pieces of `who` on one row, whose
      squares show `cells`, in order. */
  method CollectOwnedInRow(row: seq<BoardPiece>, who: Player, ghost cells: seq<Cell>)
    returns (found: seq<CheckersPiece>)
    requires |cells| == |row| && forall j :: 0 <= j < |row| ==> cells[j] == ViewOf(row[j].piece)
    ensures Views(found) == RowOwnedBy(cells, who)
  {
    found := [];
    for j := 0 to |row|
      invariant Views(found) == RowOwnedBy(cells[..j], who)
    {
      RowOwnedByStep(cells, j, who);
      var cell := row[j];
      if cell.piece != null && cell.piece.owner == who {
        assert cells[j] == Some(cell.piece.View());
        ViewsAppend(found, cell.piece);
        found := found + [cell.piece];
      }
    }
    assert cells[..|row|] == cells;
  }

  /** The board-control scan: how many pieces belong to `who` and how
      many to the other player (the lists the scan builds are only
      measured). */
  method Partition(board: seq<seq<BoardPiece>>, who: Player, ghost g: Grid)
    returns (yours: nat, enemies: nat)
    requires g == GridOf(board)
    ensures yours == |OwnedBy(g, who)|
    ensures enemies == |OwnedBy(g, Other(who))|
  {
    yours, enemies := 0, 0;
    for i := 0 to |board|
      invariant yours == |OwnedBy(g[..i], who)|
      invariant enemies == |OwnedBy(g[..i], Other(who))|
    {
      OwnedByStep(g, i, who);
      OwnedByStep(g, i, Other(who));
      yours, enemies := PartitionRow(board[i], who, g[i], yours, enemies);
    }
    assert g[..|board|] == g;
  }

  /** The inner loop of Partition, over one row whose squares show `cells`. */
  method PartitionRow(row: seq<BoardPiece>, who: Player, ghost cells: seq<Cell>, yours: nat, enemies: nat)
    returns (yours': nat, enemies': nat)
    requires |cells| == |row| && forall j :: 0 <= j < |row| ==> cells[j] == ViewOf(row[j].piece)
    ensures yours' == yours + |RowOwnedBy(cells, who)|
    ensures enemies' == enemies + |RowOwnedBy(cells, Other(who))|
  {
    yours', enemies' := yours, enemies;
    for j := 0 to |row|
      invariant yours' == yours + |RowOwnedBy(cells[..j], who)|
      invariant enemies' == enemies + |RowOwnedBy(cells[..j], Other(who))|
    {
      RowOwnedByStep(cells, j, who);
      RowOwnedByStep(cells, j, Other(who));
      var cell := row[j];
      assert cells[j] == ViewOf(cell.piece);
      if cell.piece != null && cell.piece.owner == who {
        yours' := yours' + 1;
      } else if cell.piece != null {
        assert cell.piece.owner == Other(who);
        enemies' := enemies' + 1;
      }
    }
    assert cells[..|row|] == cells;
  }

  /** The second loop of generate_potential_moves: the try-blocks of each
      piece in turn, appending the captures they find. */
  method MovesOfPieces(grid: Grid, pieces: seq<CheckersPiece>, turn: Player) returns (potential: seq<Move>)
    ensures potential == MovesOf(grid, Views(pieces), turn)
  {
    potential := [];
    for k := 0 to |pieces|
      invariant potential == MovesOf(grid, Views(pieces)[..k], turn)
    {
      assert Views(pieces)[..k + 1][..k] == Views(pieces)[..k];
      potential := potential + PieceMoves(grid, pieces[k].View(), turn);
    }
    assert Views(pieces)[..|pieces|] == Views(pieces);
  }

  /** The first loop of generate_potential_moves and the second, on a board
      left unchanged by both. */
  method CapturesOn(board: seq<seq<BoardPiece>>, turn: Player, ghost g: Grid) returns (potential: seq<Move>)
    requires g == GridOf(board)
    ensures potential == PotentialMoves(g, turn)
  {
    var grid := GridOf(board);
    var pieces := CollectOwned(board, turn, grid);
    potential := MovesOfPieces(grid, pieces, turn);
  }

  /** total_vulnerable_positions on a board whose squares show `g`. */
  method VulnerableOn(board: seq<seq<BoardPiece>>, turn: Player, ghost g: Grid) returns (n: int)
    requires g == GridOf(board)
    ensures n == VulnerableTotal(g, OwnedBy(g, turn))
  {
    var grid := GridOf(board);
    var pieces := CollectOwned(board, turn, grid);
    n := SumVulnerable(grid, pieces);
  }

  /** total_safe_positions on a board whose squares show `g`. */
  method SafeOn(board: seq<seq<BoardPiece>>, turn: Player, ghost g: Grid) returns (n: int)
    requires g == GridOf(board)
    ensures n == SafeTotal(g, OwnedBy(g, turn))
  {
    var grid := GridOf(board);
    var pieces := CollectOwned(board, turn, grid);
    n := SumSafe(grid, pieces);
  }

  /** total_forced_jumps on a board whose squares show `g`. */
  method ForcedJumpsOn(board: seq<seq<BoardPiece>>, turn: Player, ghost g: Grid) returns (n: int)
    requires g == GridOf(board)
    ensures n == JumpTotal(g, OwnedBy(g, turn))
  {
    var grid := GridOf(board);
    var pieces := CollectOwned(board, turn, grid);
    n := CountForcedJumps(grid, pieces);
  }

  /** The loop of total_vulnerable_positions over the collected pieces. */
  method SumVulnerable(grid: Grid, pieces: seq<CheckersPiece>) returns (n: int)
    ensures n == VulnerableTotal(grid, Views(pieces))
  {
    n := 0;
    for k := 0 to |pieces|
      invariant n == VulnerableTotal(grid, Views(pieces)[..k])
    {
      assert Views(pieces)[..k + 1][..k] == Views(pieces)[..k];
      n := n + VulnerablePoints(grid, pieces[k].View());
    }
    assert Views(pieces)[..|pieces|] == Views(pieces);
  }

  /** The loop of total_safe_positions over the collected pieces. */
  method SumSafe(grid: Grid, pieces: seq<CheckersPiece>) returns (n: int)
    ensures n == SafeTotal(grid, Views(pieces))
  {
    n := 0;
    for k := 0 to |pieces|
      invariant n == SafeTotal(grid, Views(pieces)[..k])
    {
      assert Views(pieces)[..k + 1][..k] == Views(pieces)[..k];
      n := n + SafePositions(grid, pieces[k].View());
    }
    assert Views(pieces)[..|pieces|] == Views(pieces);
  }

  /** The loop of total_forced_jumps over the collected pieces. */
  method CountForcedJumps(grid: Grid, pieces: seq<CheckersPiece>) returns (n: int)
    ensures n == JumpTotal(grid, Views(pieces))
  {
    n := 0;
    for k := 0 to |pieces|
      invariant n == JumpTotal(grid, Views(pieces)[..k])
    {
      assert Views(pieces)[..k + 1][..k] == Views(pieces)[..k];
      n := n + Bit(IsForcedJump(grid, pieces[k].View()));
    }
    assert Views(pieces)[..|pieces|] == Views(pieces);
  }

  class CheckersState {
    var turn: Player
    /** The list of rows is never reassigned; its squares change. */
    const board: seq<seq<BoardPiece>>
    const rows: int
    const cols: int
    var value: int
    var moves: seq<Move>
    var explored: bool
    var parent: CheckersState?
    var depth: int

    /** A rows-by-cols board without kings. */
    ghost predicate Valid()
      reads Cells(board)
    {
      WellFormed(board, rows, cols) && NoKings(board)
    }

    /** The board as a value. */
    function Squares(): Grid
      reads Cells(board)
    {
      GridOf(board)
    }

    /** The pieces of the player on turn. */
    function Own(): seq<PieceView>
      reads this, Cells(board)
    {
      OwnedBy(Squares(), turn)
    }

    constructor Make(rows: int, cols: int, turn: Player, board: seq<seq<BoardPiece>>)
      ensures this.rows == rows && this.cols == cols && this.turn == turn && this.board == board
      ensures value == 0 && moves == [] && !explored && parent == null && depth == 1
    {
      this.turn := turn;
      this.board := board;
      this.rows := rows;
      this.cols := cols;
      value := 0;
      moves := [];
      explored := false;
      parent := null;
      depth := 1;
    }

    /** The state's constructor. The turn is the given one or else `coin`
        (the random choice). A non-empty board to copy makes it read its own
        board before assigning it, which raises as soon as there is a row to
        copy; without one it makes a fresh empty board. */
    static method New(rows: int, cols: int, currTurn: Option<Player>, currBoard: seq<seq<BoardPiece>>, coin: Player)
      returns (r: Result<CheckersState, StateError>)
      ensures r.Err? <==> |currBoard| > 0 && rows >= 1
      ensures r.Err? ==> r.error == MissingBoardAttribute
      ensures r.Ok? ==> fresh(r.value) && r.value.rows == rows && r.value.cols == cols && r.value.Valid()
      ensures r.Ok? ==> r.value.turn == (if currTurn.Some? then currTurn.value else coin)
      ensures r.Ok? ==> r.value.value == 0 && r.value.moves == [] && !r.value.explored
      ensures r.Ok? ==> r.value.parent == null && r.value.depth == 1
      ensures r.Ok? ==> Blank(r.value.board) && fresh(Cells(r.value.board))
      ensures r.Ok? && |currBoard| > 0 ==> r.value.board == []
    {
      var turn := if currTurn.Some? then currTurn.value else coin;
      var board: seq<seq<BoardPiece>>;
      if |currBoard| > 0 {
        // one copied row per index in range(rows), read from the missing attribute
        if rows >= 1 {
          return Err(MissingBoardAttribute);
        }
        board := [];
      } else {
        board := GenerateCheckersBoard(rows, cols);
      }
      var state := new CheckersState.Make(rows, cols, turn, board);
      return Ok(state);
    }

    /** Hands the turn to the other player. */
    method NextTurn()
      modifies this`turn
      ensures turn == Other(old(turn)) && Other(turn) == old(turn)
    {
      turn := if turn == Top then Bottom else Top;
    }

    /** A copy through the constructor, passing this state's board, with the
        value and the explored flag carried over. A board with a row makes
        the constructor raise; a state without rows copies to one whose board
        is empty as well. */
    method Clone() returns (r: Result<CheckersState, StateError>)
      requires Valid()
      ensures r.Err? <==> rows >= 1
      ensures r.Err? ==> r.error == MissingBoardAttribute
      ensures r.Ok? ==> fresh(r.value) && r.value.board == [] && r.value.Valid()
      ensures r.Ok? ==> r.value.rows == rows && r.value.cols == cols && r.value.turn == turn
      ensures r.Ok? ==> r.value.value == value && r.value.explored == explored
      ensures r.Ok? ==> r.value.moves == [] && r.value.parent == null && r.value.depth == 1
    {
      r := New(rows, cols, Some(turn), board, turn);
      if r.Ok? {
        r.value.value := value;
        r.value.explored := explored;
      }
    }

    /** A square-by-square copy of the board: new squares with the same
        coordinates holding new pieces that show the same, each rebuilt with
        the constructor's defaults (a 0-by-0 board and no value). */
    method CloneBoard() returns (cloned: seq<seq<BoardPiece>>)
      requires Valid()
      ensures WellFormed(cloned, rows, cols) && NoKings(cloned)
      ensures GridOf(cloned) == Squares()
      ensures forall r, c :: 0 <= r < |cloned| && 0 <= c < |cloned[r]| ==>
        fresh(cloned[r][c]) && (cloned[r][c].piece != null ==> fresh(cloned[r][c].piece) && Defaults(cloned[r][c].piece))
    {
      cloned := [];
      for i := 0 to |board|
        invariant |cloned| == i
        invariant forall r :: 0 <= r < i ==> |cloned[r]| == |board[r]|
        invariant forall r, c :: 0 <= r < i && 0 <= c < |cloned[r]| ==>
          cloned[r][c].x == board[r][c].x && cloned[r][c].y == board[r][c].y &&
          ViewOf(cloned[r][c].piece) == ViewOf(board[r][c].piece) &&
          fresh(cloned[r][c]) && (cloned[r][c].piece != null ==> fresh(cloned[r][c].piece) && Defaults(cloned[r][c].piece))
      {
        var subRow: seq<BoardPiece> := [];
        for j := 0 to |board[i]|
          invariant |cloned| == i
          invariant forall r :: 0 <= r < i ==> |cloned[r]| == |board[r]|
          invariant forall r, c :: 0 <= r < i && 0 <= c < |cloned[r]| ==>
            cloned[r][c].x == board[r][c].x && cloned[r][c].y == board[r][c].y &&
            ViewOf(cloned[r][c].piece) == ViewOf(board[r][c].piece) &&
            fresh(cloned[r][c]) && (cloned[r][c].piece != null ==> fresh(cloned[r][c].piece) && Defaults(cloned[r][c].piece))
          invariant |subRow| == j
          invariant forall c :: 0 <= c < j ==>
            subRow[c].x == board[i][c].x && subRow[c].y == board[i][c].y &&
            ViewOf(subRow[c].piece) == ViewOf(board[i][c].piece) &&
            fresh(subRow[c]) && (subRow[c].piece != null ==> fresh(subRow[c].piece) && Defaults(subRow[c].piece))
        {
          var tile := board[i][j].Clone();
          subRow := subRow + [tile];
        }
        cloned := cloned + [subRow];
      }
      var g, h := GridOf(cloned), Squares();
      assert forall r :: 0 <= r < |g| ==> g[r] == h[r];
    }

    /** Applying a move starts from a clone, which raises for a board with a
        row; a board without rows clones to an empty board, and looking up
        the moving piece's row in it raises. So every move raises. */
    method ProcessMove(move: Move) returns (r: Result<CheckersState, StateError>)
      requires Valid()
      ensures r.Err?
      ensures r.error == (if rows >= 1 then MissingBoardAttribute else IndexError)
    {
      var c := Clone();
      if c.Err? {
        return Err(c.error);
      }
      var cloned := c.value;
      cloned.explored := false;
      match PyIndex(|cloned.board|, move.fromY)
      case None => return Err(IndexError);
    }

    /** Applies every stored move, raising with the first; only a state
        without moves yields its (empty) list of successors. */
    method ProcessMoves() returns (r: Result<seq<CheckersState>, StateError>)
      requires Valid()
      ensures r.Ok? <==> moves == []
      ensures r.Ok? ==> r.value == []
      ensures r.Err? ==> r.error == (if rows >= 1 then MissingBoardAttribute else IndexError)
    {
      for k := 0 to |moves|
        invariant k == 0
      {
        var next := ProcessMove(moves[k]);
        match next
        case Err(e) => return Err(e);
      }
      return Ok([]);
    }

    /** The captures open to the player on turn, read off a copy of the
        board and stored as the state's moves (what they can be is stated by
        PotentialMovesAreOwnCaptures). */
    method GeneratePotentialMoves() returns (ms: seq<Move>)
      requires Valid()
      modifies this`moves
      ensures moves == ms && ms == PotentialMoves(Squares(), turn)
    {
      ghost var g := Squares();
      var clonedBoard := CloneBoard();
      assert unchanged(Cells(board));
      var potential := CapturesOn(clonedBoard, turn, g);
      moves := potential;
      assert Squares() == g;
      return potential;
    }

    /** The threats to the pieces of the player on turn: as many as those
        pieces that an opposing piece can jump, so at most one per piece. */
    method TotalVulnerablePositions() returns (n: int)
      requires Valid()
      ensures n == VulnerableTotal(Squares(), Own())
      ensures 0 <= n <= |Own()|
    {
      ghost var g := Squares();
      n := VulnerableOn(board, turn, g);
      assert unchanged(Cells(board));
      ForcedJumpsAreVulnerablePoints(g, OwnedBy(g, turn));
    }

    /** The safe positions of the pieces of the player on turn: at most six
        per piece, since no piece is a king. */
    method TotalSafePositions() returns (n: int)
      requires Valid()
      ensures n == SafeTotal(Squares(), Own())
      ensures 0 <= n <= 6 * |Own()|
    {
      ghost var g := Squares();
      n := SafeOn(board, turn, g);
      assert unchanged(Cells(board));
      NoKingsKingFree(board);
      SafeTotalBound(g, OwnedBy(g, turn));
    }

    /** The pieces of the player on turn that are forced to jump; the count
        equals the vulnerable positions and is at most the number of pieces. */
    method TotalForcedJumps() returns (n: int)
      requires Valid()
      ensures n == JumpTotal(Squares(), Own())
      ensures n == VulnerableTotal(Squares(), Own())
      ensures 0 <= n <= |Own()|
    {
      ghost var g := Squares();
      n := ForcedJumpsOn(board, turn, g);
      assert unchanged(Cells(board));
      ForcedJumpsAreVulnerablePoints(g, OwnedBy(g, turn));
    }

    /** The pieces of the player on turn less the other player's pieces. */
    method CalculateBoardControl() returns (n: int)
      ensures n == |Own()| - |OwnedBy(Squares(), Other(turn))|
    {
      var yours, enemies := Partition(board, turn, GridOf(board));
      assert unchanged(Cells(board));
      n := yours as int - enemies as int;
    }
  }

  /** init_board on a state: the pieces are set up on the state's board and
      the same state is returned. Every square of the initial placement gets
      a new piece and every other square keeps what it held; on a fresh
      state the board then shows the initial grid. */
  method InitBoard(state: CheckersState) returns (s: CheckersState)
    requires state.Valid()
    modifies Cells(state.board)
    ensures s == state && state.Valid()
    ensures forall r, c :: 0 <= r < |state.board| && 0 <= c < |state.board[r]| ==>
      if InitialCell(state.rows, state.cols, r, c).Some? then
        Holds(state.board[r][c].piece, InitialCell(state.rows, state.cols, r, c).value, state.rows, state.cols) &&
        fresh(state.board[r][c].piece)
      else state.board[r][c].piece == old(state.board[r][c].piece)
    ensures old(Blank(state.board)) ==> state.Squares() == InitialGrid(Max(state.rows, 0), Max(state.cols, 0))
  {
    SetUpPieces(state.board, state.rows, state.cols);
    return state;
  }

  /** A node of the game tree holding a game state. */
  class CheckersGraphNode {
    var state: CheckersState?

    constructor ()
      ensures state == null
    {
      state := null;
    }

    method SetState(state: CheckersState)
      modifies this`state
      ensures this.state == state
    {
      this.state := state;
    }

    /** The game is over when the state's board has pieces of exactly one
        player; without a state it is not. */
    method IsGoalState() returns (goal: bool)
      ensures goal <==> state != null && OnePlayerLeft(GridOf(state.board))
    {
      if state == null {
        return false;
      }
      goal := OnePlayerLeftOn(state.board);
    }
  }
}
