/** The checkers board as objects, shared by both versions of the game: the
    squares are BoardPiece objects laid out in rows, each holding at most
    one CheckersPiece. A square's coordinates and a piece's owner,
    coordinates and board size are never reassigned, so they are constants;
    what changes is which piece a square holds and a piece's accumulated
    heuristic value. */
module CheckersBoard {
  import opened Outcomes
  import opened CheckersGrid

  /** What building a game state can raise: the AttributeError of reading
      the state's board before it is assigned, and the IndexError of
      indexing an empty board. */
  datatype StateError = MissingBoardAttribute | IndexError

  class CheckersPiece {
    const owner: Player
    const x: int
    const y: int
    /** Nothing ever crowns a piece: the flag is false from construction on. */
    const isKing: bool
    const rows: int
    const cols: int
    /** Only ever increased, from 0. */
    var value: nat

    constructor (owner: Player, x: int, y: int, rows: int := 0, cols: int := 0)
      ensures this.owner == owner && this.x == x && this.y == y
      ensures this.rows == rows && this.cols == cols && value == 0 && !isKing
    {
      this.owner := owner;
      isKing := false;
      this.x := x;
      this.y := y;
      this.rows := rows;
      this.cols := cols;
      value := 0;
    }

    function View(): PieceView
    {
      PieceView(owner, x, y, isKing)
    }

    /** Adds the piece's heuristic terms to its value and returns the new
        value; every call adds at least one. */
    method ComputeHeuristicValue() returns (v: nat)
      modifies this`value
      ensures value == old(value) + HeuristicIncrement(View(), rows, cols)
      ensures v == value && value > old(value)
    {
      // material
      value := value + if isKing then 2 else 1;
      var kingsRowStart := if owner == Top then 0 else 5;
      var kingsRowEnd := if owner == Top then 2 else rows - 1;
      // the king's position inside the opponent's rows
      var kingPosition := KingPosition(kingsRowStart, kingsRowEnd);
      value := value + kingPosition;
      // control of the centre
      var centerBoardRow, centerBoardCol := rows / 2, cols / 2;
      var center := Abs(y - centerBoardCol) + Abs(x - centerBoardRow);
      assert center == CenterTerm(View(), rows, cols);
      value := value + center;
      // distance to the king's row
      var kingsRow := 0;
      if !isKing && !(y <= kingsRowEnd && y >= kingsRowStart) {
        kingsRow := Abs(y - kingsRowStart);
      }
      assert kingsRow == KingsRowTerm(View(), rows);
      value := value + kingsRow;
      // advancement
      var advancement := 0;
      if y <= kingsRowStart + 1 {
        advancement := Abs(y - (kingsRowEnd + 1));
      }
      assert advancement == AdvancementTerm(View(), rows);
      value := value + advancement;
      return value;
    }

    /** The king's-position term of the piece heuristic, given the bounds of
        the king's rows. */
    method KingPosition(kingsRowStart: int, kingsRowEnd: int) returns (kingPosition: nat)
      requires kingsRowStart == KingsRowStart(owner) && kingsRowEnd == KingsRowEnd(owner, rows)
      ensures !isKing ==> kingPosition == 0
      ensures !(kingsRowStart <= y <= kingsRowEnd) ==> kingPosition == 0
      ensures kingPosition == KingPositionTerm(View(), rows, cols)
    {
      kingPosition := 0;
      if isKing && y <= kingsRowEnd && y >= kingsRowStart {
        var colBoundLeft, colBoundRight := 0, cols - 1;
        var centerOpponentX := (kingsRowEnd + kingsRowStart) / 2;
        var centerOpponentY := (colBoundLeft + colBoundRight) / 2;
        kingPosition := Abs(Abs(x - centerOpponentX) + Abs(y - centerOpponentY) - 10);
      }
    }

    /** A new piece with the same owner and coordinates, on a board of size
        0 by 0 and with no accumulated value. */
    method Clone() returns (cloned: CheckersPiece)
      ensures fresh(cloned) && cloned.View() == View().(isKing := false)
      ensures cloned.rows == 0 && cloned.cols == 0 && cloned.value == 0
    {
      cloned := new CheckersPiece(owner, x, y);
    }
  }

  class BoardPiece {
    const x: int
    const y: int
    var piece: CheckersPiece?

    constructor (x: int, y: int)
      ensures this.x == x && this.y == y && piece == null
    {
      this.x := x;
      this.y := y;
      piece := null;
    }

    /** Puts `p` on the square, replacing whatever was there. */
    method PlacePiece(p: CheckersPiece)
      modifies this`piece
      ensures piece == p
    {
      piece := p;
    }

    /** A new square with the same coordinates holding a clone of the piece,
        if there is one. */
    method Clone() returns (cloned: BoardPiece)
      ensures fresh(cloned) && cloned.x == x && cloned.y == y
      ensures piece == null ==> cloned.piece == null
      ensures piece != null ==> ViewOf(cloned.piece) == Some(piece.View().(isKing := false))
      ensures cloned.piece != null ==> fresh(cloned.piece) && cloned.piece.value == 0
      ensures cloned.piece != null ==> cloned.piece.rows == 0 && cloned.piece.cols == 0
    {
      cloned := new BoardPiece(x, y);
      if piece != null {
        var p := piece.Clone();
        cloned.piece := p;
      }
    }
  }

  /** What a square shows of the piece it holds. */
  function ViewOf(p: CheckersPiece?): Cell
  {
    if p == null then None else Some(p.View())
  }

  /** The squares of a board. */
  ghost function Cells(board: seq<seq<BoardPiece>>): set<BoardPiece>
  {
    set r, c | 0 <= r < |board| && 0 <= c < |board[r]| :: board[r][c]
  }

  /** A rows-by-cols board (empty for a non-positive size) whose square
      [r][c] has coordinates (r + 1, c + 1); the coordinates also make the
      squares distinct. */
  predicate WellFormed(board: seq<seq<BoardPiece>>, rows: int, cols: int)
  {
    |board| == Max(rows, 0) &&
    forall r :: 0 <= r < |board| ==>
      |board[r]| == Max(cols, 0) &&
      forall c :: 0 <= c < |board[r]| ==> board[r][c].x == r + 1 && board[r][c].y == c + 1
  }

  /** The board as a value. */
  function GridOf(board: seq<seq<BoardPiece>>): (g: Grid)
    reads Cells(board)
    ensures |g| == |board|
    ensures forall r :: 0 <= r < |board| ==> |g[r]| == |board[r]|
    ensures forall r, c :: 0 <= r < |board| && 0 <= c < |board[r]| ==> g[r][c] == ViewOf(board[r][c].piece)
  {
    seq(|board|, r requires 0 <= r < |board| reads Cells(board) =>
      seq(|board[r]|, c requires 0 <= c < |board[r]| reads Cells(board) => ViewOf(board[r][c].piece)))
  }

  /** Every square of the board is empty. */
  ghost predicate Blank(board: seq<seq<BoardPiece>>)
    reads Cells(board)
  {
    forall r, c :: 0 <= r < |board| && 0 <= c < |board[r]| ==> board[r][c].piece == null
  }

  /** No piece on the board is a king: pieces are made uncrowned and nothing
      crowns them. */
  ghost predicate NoKings(board: seq<seq<BoardPiece>>)
    reads Cells(board)
  {
    forall r, c :: 0 <= r < |board| && 0 <= c < |board[r]| && board[r][c].piece != null ==> !board[r][c].piece.isKing
  }

  lemma NoKingsKingFree(board: seq<seq<BoardPiece>>)
    requires NoKings(board)
    ensures KingFree(GridOf(board))
  {
  }

  /** A new rows-by-cols board of empty squares, with 1-based coordinates. */
  method GenerateCheckersBoard(rows: int, cols: int) returns (board: seq<seq<BoardPiece>>)
    ensures WellFormed(board, rows, cols)
    ensures forall r, c :: 0 <= r < |board| && 0 <= c < |board[r]| ==> fresh(board[r][c]) && board[r][c].piece == null
  {
    board := [];
    for i := 1 to Max(rows, 0) + 1
      invariant WellFormed(board, i - 1, cols)
      invariant forall r, c :: 0 <= r < |board| && 0 <= c < |board[r]| ==> fresh(board[r][c]) && board[r][c].piece == null
    {
      var boardRow: seq<BoardPiece> := [];
      for j := 1 to Max(cols, 0) + 1
        invariant |boardRow| == j - 1
        invariant forall r, c :: 0 <= r < |board| && 0 <= c < |board[r]| ==> fresh(board[r][c]) && board[r][c].piece == null
        invariant forall c :: 0 <= c < |boardRow| ==>
          boardRow[c].x == i && boardRow[c].y == c + 1 && fresh(boardRow[c]) && boardRow[c].piece == null
      {
        var square := new BoardPiece(i, j);
        boardRow := boardRow + [square];
      }
      board := board + [boardRow];
    }
  }

  /** `p` is a new piece showing `v`, made for a rows-by-cols board. */
  ghost predicate Holds(p: CheckersPiece?, v: PieceView, rows: int, cols: int)
    reads p
  {
    p != null && p.View() == v && p.rows == rows && p.cols == cols && p.value == 0
  }

  /** A piece as the constructor leaves it when given no board size: on a
      0-by-0 board and with no accumulated value. */
  ghost predicate Defaults(p: CheckersPiece)
    reads p
  {
    p.rows == 0 && p.cols == 0 && p.value == 0
  }

  /** One pass of init_board over one row: a new piece of `owner` on every
      second square from column `start`, recording the column as its x and
      `pieceY` as its y. */
  method PlaceRow(row: seq<BoardPiece>, start: nat, owner: Player, pieceY: int, rows: int, cols: int)
    requires forall c :: 0 <= c < |row| ==> row[c].y == c + 1
    requires cols <= |row|
    modifies row
    ensures forall c :: 0 <= c < |row| ==>
      if start <= c < cols && (c - start) % 2 == 0 then
        Holds(row[c].piece, PieceView(owner, c, pieceY, false), rows, cols) && fresh(row[c].piece)
      else row[c].piece == old(row[c].piece)
  {
    var j := start;
    while j < cols
      invariant start <= j && (j - start) % 2 == 0
      invariant forall c :: 0 <= c < |row| ==>
        if start <= c < j && c < cols && (c - start) % 2 == 0 then
          Holds(row[c].piece, PieceView(owner, c, pieceY, false), rows, cols) && fresh(row[c].piece)
        else row[c].piece == old(row[c].piece)
      decreases cols - j
    {
      var p := new CheckersPiece(owner, j, pieceY, rows, cols);
      row[j].PlacePiece(p);
      j := j + 2;
    }
  }

  /** The initial placement: BOTTOM on the lower rows, then TOP from the last
      row upwards, each on alternate squares; every square InitialCell names
      receives a new piece and every other square keeps what it held. */
  method SetUpPieces(board: seq<seq<BoardPiece>>, rows: int, cols: int)
    requires WellFormed(board, rows, cols)
    modifies Cells(board)
    ensures forall r, c :: 0 <= r < |board| && 0 <= c < |board[r]| ==>
      if InitialCell(rows, cols, r, c).Some? then
        Holds(board[r][c].piece, InitialCell(rows, cols, r, c).value, rows, cols) && fresh(board[r][c].piece)
      else board[r][c].piece == old(board[r][c].piece)
    ensures old(NoKings(board)) ==> NoKings(board)
    ensures old(Blank(board)) ==> GridOf(board) == InitialGrid(Max(rows, 0), Max(cols, 0))
  {
    var odds := PlaceBottom(board, rows, cols);
    PlaceTop(board, rows, cols, odds);
    forall r, c | 0 <= r < |board| && 0 <= c < |board[r]|
      ensures ViewOf(board[r][c].piece) == if InitialCell(rows, cols, r, c).Some? then InitialCell(rows, cols, r, c)
        else ViewOf(old(board[r][c].piece))
    {
      InitialCellFacts(rows, cols, r, c);
    }
    if old(Blank(board)) {
      var g := GridOf(board);
      var h := InitialGrid(Max(rows, 0), Max(cols, 0));
      assert forall r, c :: 0 <= r < |g| && 0 <= c < |g[r]| ==> g[r][c] == h[r][c];
      assert forall r :: 0 <= r < |g| ==> g[r] == h[r];
    }
  }

  /** The first pass of init_board: rows 0 .. rows-3, starting at column 0
      and alternating the starting column from row to row. Returns the
      alternation flag as the pass leaves it. */
  method PlaceBottom(board: seq<seq<BoardPiece>>, rows: int, cols: int) returns (odds: bool)
    requires WellFormed(board, rows, cols)
    modifies Cells(board)
    ensures odds == (Max(rows - 2, 0) % 2 == 0)
    ensures forall r, c :: 0 <= r < |board| && 0 <= c < |board[r]| ==>
      if r < rows - 2 && c % 2 == r % 2 then
        Holds(board[r][c].piece, PieceView(Bottom, c, r, false), rows, cols) && fresh(board[r][c].piece)
      else board[r][c].piece == old(board[r][c].piece)
  {
    var bothSideSize := rows - 2;
    odds := true;
    for i := 0 to Max(bothSideSize, 0)
      invariant odds == (i % 2 == 0)
      invariant forall r, c :: 0 <= r < |board| && 0 <= c < |board[r]| ==>
        if r < i && c % 2 == r % 2 then
          Holds(board[r][c].piece, PieceView(Bottom, c, r, false), rows, cols) && fresh(board[r][c].piece)
        else board[r][c].piece == old(board[r][c].piece)
    {
      ParityStart(i, odds);
      OtherRowsApart(board, rows, cols, i);
      PlaceRow(board[i], if odds then 0 else 1, Bottom, i, rows, cols);
      odds := !odds;
    }
  }

  /** The second pass of init_board: for i = 0 .. rows-3, row rows-1-i (the
      row board[-(i + 1)]), continuing the alternation of the first pass;
      the pieces record i as their y. */
  method PlaceTop(board: seq<seq<BoardPiece>>, rows: int, cols: int, odds0: bool)
    requires WellFormed(board, rows, cols)
    requires odds0 == (Max(rows - 2, 0) % 2 == 0)
    modifies Cells(board)
    ensures forall r, c :: 0 <= r < |board| && 0 <= c < |board[r]| ==>
      if 2 <= r && c % 2 != r % 2 then
        Holds(board[r][c].piece, PieceView(Top, c, rows - 1 - r, false), rows, cols) && fresh(board[r][c].piece)
      else board[r][c].piece == old(board[r][c].piece)
  {
    var bothSideSize := rows - 2;
    var odds := odds0;
    for i := 0 to Max(bothSideSize, 0)
      invariant odds == ((Max(bothSideSize, 0) + i) % 2 == 0)
      invariant forall r, c :: 0 <= r < |board| && 0 <= c < |board[r]| ==>
        if rows - i <= r && c % 2 != r % 2 then
          Holds(board[r][c].piece, PieceView(Top, c, rows - 1 - r, false), rows, cols) && fresh(board[r][c].piece)
        else board[r][c].piece == old(board[r][c].piece)
    {
      // board[-(i + 1)] is the (i + 1)-th row from the end
      var r := |board| - (i + 1);
      TopParity(rows, i, odds);
      OtherRowsApart(board, rows, cols, r);
      PlaceRow(board[r], if odds then 0 else 1, Top, i, rows, cols);
      odds := !odds;
    }
  }

  /** No square of another row is a square of row r: the squares record
      their row. */
  lemma OtherRowsApart(board: seq<seq<BoardPiece>>, rows: int, cols: int, r: int)
    requires WellFormed(board, rows, cols) && 0 <= r < |board|
    ensures forall r2, c :: 0 <= r2 < |board| && r2 != r && 0 <= c < |board[r2]| ==> board[r2][c] !in board[r]
  {
    forall r2, c | 0 <= r2 < |board| && r2 != r && 0 <= c < |board[r2]|
      ensures board[r2][c] !in board[r]
    {
      assert forall j :: 0 <= j < |board[r]| ==> board[r][j].x != board[r2][c].x;
    }
  }

  /** Starting at column 0 when the flag is set and at 1 otherwise picks the
      columns of the row's parity when the flag tracks the row's parity. */
  lemma ParityStart(i: int, odds: bool)
    requires odds == (i % 2 == 0)
    ensures forall c :: (c - (if odds then 0 else 1)) % 2 == 0 <==> c % 2 == i % 2
  {
  }

  /** In the second pass the flag picks the columns whose parity differs
      from that of the row rows-1-i being filled. */
  lemma TopParity(rows: int, i: int, odds: bool)
    requires rows - 2 > 0 && 0 <= i
    requires odds == ((rows - 2 + i) % 2 == 0)
    ensures forall c :: (c - (if odds then 0 else 1)) % 2 == 0 <==> c % 2 != (rows - 1 - i) % 2
  {
  }

  /** The goal test's scan: counts the pieces per owner in a dictionary and
      reports whether it ended up with exactly one key. */
  method OnePlayerLeftOn(board: seq<seq<BoardPiece>>) returns (goal: bool)
    ensures goal == OnePlayerLeft(GridOf(board))
  {
    ghost var g := GridOf(board);
    var playerCount := CountPlayers(board, g);
    assert unchanged(Cells(board));
    assert g == GridOf(board);
    goal := |playerCount.Keys| == 1;
    OneKeyMeansOnePlayer(playerCount.Keys);
  }

  /** The two loops of the goal test: the pieces of the board, whose squares
      show `g`, counted per owner in a dictionary. */
  method CountPlayers(board: seq<seq<BoardPiece>>, ghost g: Grid) returns (playerCount: map<Player, nat>)
    requires g == GridOf(board)
    ensures Tallied(playerCount, map[], OwnedBy(g, Bottom), Bottom)
    ensures Tallied(playerCount, map[], OwnedBy(g, Top), Top)
  {
    playerCount := map[];
    for i := 0 to |board|
      invariant Tallied(playerCount, map[], OwnedBy(g[..i], Bottom), Bottom)
      invariant Tallied(playerCount, map[], OwnedBy(g[..i], Top), Top)
    {
      OwnedByStep(g, i, Bottom);
      OwnedByStep(g, i, Top);
      ghost var before := playerCount;
      playerCount := CountRow(board[i], g[i], playerCount);
      TalliedInSteps(playerCount, before, map[], OwnedBy(g[..i], Bottom), RowOwnedBy(g[i], Bottom), Bottom);
      TalliedInSteps(playerCount, before, map[], OwnedBy(g[..i], Top), RowOwnedBy(g[i], Top), Top);
    }
    assert g[..|board|] == g;
  }

  /** The inner loop of the goal test: the pieces of one row, whose squares
      show `cells`, added to the counts per owner. */
  method CountRow(tiles: seq<BoardPiece>, ghost cells: seq<Cell>, counts: map<Player, nat>)
    returns (playerCount: map<Player, nat>)
    requires |cells| == |tiles|
    requires forall j :: 0 <= j < |tiles| ==> cells[j] == ViewOf(tiles[j].piece)
    ensures Tallied(playerCount, counts, RowOwnedBy(cells, Bottom), Bottom)
    ensures Tallied(playerCount, counts, RowOwnedBy(cells, Top), Top)
  {
    playerCount := counts;
    for j := 0 to |tiles|
      invariant Tallied(playerCount, counts, RowOwnedBy(cells[..j], Bottom), Bottom)
      invariant Tallied(playerCount, counts, RowOwnedBy(cells[..j], Top), Top)
    {
      RowOwnedByStep(cells, j, Bottom);
      RowOwnedByStep(cells, j, Top);
      var tile := tiles[j];
      if tile.piece != null {
        if tile.piece.owner in playerCount {
          playerCount := playerCount[tile.piece.owner := playerCount[tile.piece.owner] + 1];
        } else {
          playerCount := playerCount[tile.piece.owner := 1];
        }
      }
    }
    assert cells[..|tiles|] == cells;
  }

  /** Counting two runs of pieces one after the other counts them together. */
  lemma TalliedInSteps(after: map<Player, nat>, middle: map<Player, nat>, before: map<Player, nat>,
                       first: seq<PieceView>, second: seq<PieceView>, p: Player)
    requires Tallied(middle, before, first, p)
    requires Tallied(after, middle, second, p)
    ensures Tallied(after, before, first + second, p)
  {
  }

  /** `after` is `before` with the pieces `owned` of `p` added to p's count,
      p getting a key as soon as it has a piece. */
  predicate Tallied(after: map<Player, nat>, before: map<Player, nat>, owned: seq<PieceView>, p: Player)
  {
    (p in after <==> p in before || |owned| > 0) &&
    (p in after ==> after[p] == (if p in before then before[p] else 0) + |owned|)
  }

  /** A set of players has one element exactly when it holds one of the two
      players but not the other. */
  lemma OneKeyMeansOnePlayer(s: set<Player>)
    ensures |s| == 1 <==> (Bottom in s) != (Top in s)
  {
    if Bottom in s && Top in s {
      assert {Bottom, Top} <= s;
      assert |{Bottom, Top}| == 2;
      SubsetCardinality({Bottom, Top}, s);
    } else if Bottom in s {
      assert s == {Bottom} by {
        forall p ensures p in s <==> p == Bottom {
          if p.Top? { }
        }
      }
    } else if Top in s {
      assert s == {Top} by {
        forall p ensures p in s <==> p == Top {
          if p.Top? { }
        }
      }
    } else {
      assert s == {} by {
        forall p ensures p !in s {
          if p.Top? { }
        }
      }
    }
  }

  lemma SubsetCardinality(a: set<Player>, b: set<Player>)
    requires a <= b
    ensures |a| <= |b|
  {
    assert b == a + (b - a);
  }
}
