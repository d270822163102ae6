/** The checkers board seen as a value: a grid of rows of cells, each empty or
    holding a piece with an owner, its own recorded (x, y) and a king flag.
    The board scans of the game read the grid with Python's list indexing (a
    negative index counts from the back, an index out of range raises) inside
    try-blocks that swallow every exception, and the functions here spell
    that out: an expression that raises evaluates to `None`. */
module CheckersGrid {
  import opened Outcomes

  datatype Player = Bottom | Top

  /** The opponent. */
  function Other(p: Player): (q: Player)
    ensures q != p
  {
    if p == Top then Bottom else Top
  }

  datatype PieceView = PieceView(owner: Player, x: int, y: int, isKing: bool)

  type Cell = Option<PieceView>

  type Grid = seq<seq<Cell>>

  /** A capture move: where the piece starts and where it lands. */
  datatype Move = Move(fromX: int, fromY: int, toX: int, toY: int, capture: bool)

  /** Python's list index: non-negative indices count from the front,
      negative ones from the back, anything else raises IndexError. */
  function PyIndex(len: nat, i: int): (k: Option<nat>)
    ensures k.Some? <==> 0 <= len + i && i < len
    ensures k.Some? ==> k.value < len && (k.value == i || k.value == len + i)
  {
    if 0 <= i < len then Some(i)
    else if 0 <= len + i && i < 0 then Some(len + i)
    else None
  }

  /** grid[r][c]; None when either index raises. */
  function Lookup(g: Grid, r: int, c: int): Option<Cell>
  {
    match PyIndex(|g|, r)
    case None => None
    case Some(ri) =>
      match PyIndex(|g[ri]|, c)
      case None => None
      case Some(ci) => Some(g[ri][ci])
  }

  /** The value of a Python boolean expression that may raise. */
  type Eval = Option<bool>

  /** grid[r][c].piece.owner != who: raises on a bad index and, through the
      attribute access on None, on an empty cell. */
  function OwnerDiffers(g: Grid, r: int, c: int, who: Player): (e: Eval)
    ensures e.Some? <==> Occupied(g, r, c)
    ensures e == Some(true) <==> Opponent(g, r, c, who)
  {
    match Lookup(g, r, c)
    case Some(Some(p)) => Some(p.owner != who)
    case _ => None
  }

  /** grid[r][c].piece.is_king */
  function KingAt(g: Grid, r: int, c: int): (e: Eval)
    ensures e.Some? <==> Occupied(g, r, c)
    ensures e == Some(true) <==> Occupied(g, r, c) && Lookup(g, r, c).value.value.isKing
  {
    match Lookup(g, r, c)
    case Some(Some(p)) => Some(p.isKing)
    case _ => None
  }

  /** grid[r][c].piece is None */
  function PieceIsNone(g: Grid, r: int, c: int): (e: Eval)
    ensures e.Some? <==> Indexable(g, r, c)
    ensures e == Some(true) <==> Empty(g, r, c)
  {
    match Lookup(g, r, c)
    case Some(cell) => Some(cell.None?)
    case None => None
  }

  /** grid[r][c].piece is not None */
  function PieceIsNotNone(g: Grid, r: int, c: int): (e: Eval)
    ensures e.Some? <==> Indexable(g, r, c)
    ensures e == Some(true) <==> Occupied(g, r, c)
  {
    match Lookup(g, r, c)
    case Some(cell) => Some(cell.Some?)
    case None => None
  }

  /** grid[r][c] is None: a cell object is never None, so this is false
      whenever the indexing does not raise. */
  function CellIsNone(g: Grid, r: int, c: int): (e: Eval)
    ensures e != Some(true)
    ensures e.Some? <==> Indexable(g, r, c)
  {
    if Lookup(g, r, c).Some? then Some(false) else None
  }

  /** grid[r][c] is not None */
  function CellIsNotNone(g: Grid, r: int, c: int): (e: Eval)
    ensures e == Some(true) <==> Indexable(g, r, c)
  {
    if Lookup(g, r, c).Some? then Some(true) else None
  }

  /** Python's short-circuit `and`: the right operand is evaluated (and may
      raise) only when the left one is true. */
  function PyAnd(a: Eval, b: Eval): (e: Eval)
    ensures e == Some(true) <==> a == Some(true) && b == Some(true)
    ensures a.None? ==> e.None?
  {
    if a == Some(true) then b else a
  }

  /** `n += 1 if e else 0` inside a try-block whose exception is swallowed. */
  function Score(e: Eval): (n: nat)
    ensures n <= 1 && (n == 1 <==> e == Some(true))
  {
    if e == Some(true) then 1 else 0
  }

  /** An opponent's piece (of someone other than `who`) sits at grid[r][c]. */
  predicate Opponent(g: Grid, r: int, c: int, who: Player)
  {
    Lookup(g, r, c).Some? && Lookup(g, r, c).value.Some? && Lookup(g, r, c).value.value.owner != who
  }

  /** grid[r][c] exists and is empty. */
  predicate Empty(g: Grid, r: int, c: int)
  {
    Lookup(g, r, c) == Some(None)
  }

  /** grid[r][c] exists and holds a piece. */
  predicate Occupied(g: Grid, r: int, c: int)
  {
    Lookup(g, r, c).Some? && Lookup(g, r, c).value.Some?
  }

  /** grid[r][c] exists. */
  predicate Indexable(g: Grid, r: int, c: int)
  {
    Lookup(g, r, c).Some?
  }

  /** An opposing king sits at grid[r][c]. */
  predicate OpposingKing(g: Grid, r: int, c: int, who: Player)
  {
    Opponent(g, r, c, who) && Lookup(g, r, c).value.value.isKing
  }

  /** No piece of the grid is a king. */
  predicate KingFree(g: Grid)
  {
    forall r, c :: 0 <= r < |g| && 0 <= c < |g[r]| && g[r][c].Some? ==> !g[r][c].value.isKing
  }

  function Bit(b: bool): nat
  {
    if b then 1 else 0
  }

  /** The threats to a piece, as its four guarded blocks compute them
      (the grid is indexed [y][x] by the piece's own coordinates). Only the
      first block can count: the other three end in a test of a cell object
      against None. */
  function VulnerablePoints(g: Grid, p: PieceView): (n: nat)
    ensures n == Bit(Opponent(g, p.y + 1, p.x - 1, p.owner) && Empty(g, p.y - 1, p.x + 1))
  {
    var x, y, o := p.x, p.y, p.owner;
    Score(PyAnd(OwnerDiffers(g, y + 1, x - 1, o), PieceIsNone(g, y - 1, x + 1)))
    + Score(PyAnd(OwnerDiffers(g, y + 1, x + 1, o), CellIsNone(g, y - 1, x - 1)))
    + Score(PyAnd(PyAnd(OwnerDiffers(g, y - 1, x - 1, o), KingAt(g, y - 1, x - 1)), CellIsNone(g, y + 1, x + 1)))
    + Score(PyAnd(PyAnd(OwnerDiffers(g, y - 1, x + 1, o), KingAt(g, y - 1, x + 1)), CellIsNone(g, y + 1, x - 1)))
  }

  /** A diagonal safe-position block: an opposing piece on one side and a
      piece on the square across. */
  function OccupiedAcrossBlock(g: Grid, r: int, c: int, r2: int, c2: int, o: Player): (n: nat)
    ensures n == Bit(Opponent(g, r, c, o) && Occupied(g, r2, c2))
  {
    Score(PyAnd(OwnerDiffers(g, r, c, o), PieceIsNotNone(g, r2, c2)))
  }

  /** A diagonal safe-position block whose second test is on the cell object:
      it counts whenever the square across exists. */
  function IndexableAcrossBlock(g: Grid, r: int, c: int, r2: int, c2: int, o: Player): (n: nat)
    ensures n == Bit(Opponent(g, r, c, o) && Indexable(g, r2, c2))
  {
    Score(PyAnd(OwnerDiffers(g, r, c, o), CellIsNotNone(g, r2, c2)))
  }

  /** A king safe-position block: an opposing king on one side and an
      existing square across. */
  function KingAcrossBlock(g: Grid, r: int, c: int, r2: int, c2: int, o: Player): (n: nat)
    ensures n == Bit(OpposingKing(g, r, c, o) && Indexable(g, r2, c2))
  {
    Score(PyAnd(PyAnd(OwnerDiffers(g, r, c, o), KingAt(g, r, c)), CellIsNotNone(g, r2, c2)))
  }

  /** A straight safe-position block: an opposing piece next to the piece. */
  function OpponentBlock(g: Grid, r: int, c: int, o: Player): (n: nat)
    ensures n == Bit(Opponent(g, r, c, o))
  {
    Score(OwnerDiffers(g, r, c, o))
  }

  /** The four diagonal blocks of calculate_safe_positions. */
  function DiagonalSafe(g: Grid, p: PieceView): (n: nat)
    ensures n ==
      Bit(Opponent(g, p.y + 1, p.x - 1, p.owner) && Occupied(g, p.y - 1, p.x + 1))
      + Bit(Opponent(g, p.y + 1, p.x + 1, p.owner) && Indexable(g, p.y - 1, p.x - 1))
      + Bit(OpposingKing(g, p.y - 1, p.x - 1, p.owner) && Indexable(g, p.y + 1, p.x + 1))
      + Bit(OpposingKing(g, p.y - 1, p.x + 1, p.owner) && Indexable(g, p.y + 1, p.x - 1))
  {
    OccupiedAcrossBlock(g, p.y + 1, p.x - 1, p.y - 1, p.x + 1, p.owner)
    + IndexableAcrossBlock(g, p.y + 1, p.x + 1, p.y - 1, p.x - 1, p.owner)
    + KingAcrossBlock(g, p.y - 1, p.x - 1, p.y + 1, p.x + 1, p.owner)
    + KingAcrossBlock(g, p.y - 1, p.x + 1, p.y + 1, p.x - 1, p.owner)
  }

  /** The four straight blocks of calculate_safe_positions. */
  function StraightSafe(g: Grid, p: PieceView): (n: nat)
    ensures n ==
      Bit(Opponent(g, p.y - 1, p.x, p.owner)) + Bit(Opponent(g, p.y + 1, p.x, p.owner))
      + Bit(Opponent(g, p.y, p.x + 1, p.owner)) + Bit(Opponent(g, p.y, p.x - 1, p.owner))
  {
    OpponentBlock(g, p.y - 1, p.x, p.owner)
    + OpponentBlock(g, p.y + 1, p.x, p.owner)
    + OpponentBlock(g, p.y, p.x + 1, p.owner)
    + OpponentBlock(g, p.y, p.x - 1, p.owner)
  }

  /** The safe positions of a piece, as its eight guarded blocks compute them:
      each counts one for an opposing piece next to the piece, with a
      condition on the square across for the diagonal ones; the two king
      blocks need an opposing king. */
  function SafePositions(g: Grid, p: PieceView): (n: nat)
    ensures n ==
      Bit(Opponent(g, p.y + 1, p.x - 1, p.owner) && Occupied(g, p.y - 1, p.x + 1))
      + Bit(Opponent(g, p.y + 1, p.x + 1, p.owner) && Indexable(g, p.y - 1, p.x - 1))
      + Bit(OpposingKing(g, p.y - 1, p.x - 1, p.owner) && Indexable(g, p.y + 1, p.x + 1))
      + Bit(OpposingKing(g, p.y - 1, p.x + 1, p.owner) && Indexable(g, p.y + 1, p.x - 1))
      + Bit(Opponent(g, p.y - 1, p.x, p.owner)) + Bit(Opponent(g, p.y + 1, p.x, p.owner))
      + Bit(Opponent(g, p.y, p.x + 1, p.owner)) + Bit(Opponent(g, p.y, p.x - 1, p.owner))
  {
    DiagonalSafe(g, p) + StraightSafe(g, p)
  }

  /** A piece has at most eight safe positions, and at most six on a board
      without kings, where the two king blocks never count. */
  lemma SafePositionsBound(g: Grid, p: PieceView)
    ensures SafePositions(g, p) <= 8
    ensures KingFree(g) ==> SafePositions(g, p) <= 6
  {
    if KingFree(g) {
      KingFreeHasNoOpposingKing(g, p.y - 1, p.x - 1, p.owner);
      KingFreeHasNoOpposingKing(g, p.y - 1, p.x + 1, p.owner);
    }
  }

  lemma KingFreeHasNoOpposingKing(g: Grid, r: int, c: int, who: Player)
    requires KingFree(g)
    ensures !OpposingKing(g, r, c, who)
  {
    if Lookup(g, r, c).Some? {
      var ri := PyIndex(|g|, r).value;
      var ci := PyIndex(|g[ri]|, c).value;
      assert Lookup(g, r, c).value == g[ri][ci];
    }
  }

  /** A piece is forced to jump when it is vulnerable at all. */
  function IsForcedJump(g: Grid, p: PieceView): (jump: bool)
    ensures jump <==> Opponent(g, p.y + 1, p.x - 1, p.owner) && Empty(g, p.y - 1, p.x + 1)
  {
    VulnerablePoints(g, p) > 0
  }

  /** The pieces of `who` in one row, left to right. */
  function RowOwnedBy(row: seq<Cell>, who: Player): (ps: seq<PieceView>)
    ensures |ps| <= |row|
    ensures forall q :: q in ps <==> q.owner == who && Some(q) in row
  {
    if |row| == 0 then []
    else
      var last := row[|row| - 1];
      assert forall cell :: cell in row <==> cell in row[..|row| - 1] || cell == last;
      RowOwnedBy(row[..|row| - 1], who) + (if last.Some? && last.value.owner == who then [last.value] else [])
  }

  /** The pieces of `who` on the grid, row by row. */
  function OwnedBy(g: Grid, who: Player): (ps: seq<PieceView>)
    ensures forall q :: q in ps <==> q.owner == who && exists r :: 0 <= r < |g| && Some(q) in g[r]
  {
    if |g| == 0 then []
    else
      var init := g[..|g| - 1];
      assert forall r :: 0 <= r < |init| ==> init[r] == g[r];
      OwnedBy(init, who) + RowOwnedBy(g[|g| - 1], who)
  }

  /** The rows before i, followed by row i. */
  lemma OwnedByStep(g: Grid, i: nat, who: Player)
    requires i < |g|
    ensures OwnedBy(g[..i + 1], who) == OwnedBy(g[..i], who) + RowOwnedBy(g[i], who)
  {
    assert g[..i + 1][..i] == g[..i];
  }

  /** The cells before j, followed by cell j. */
  lemma RowOwnedByStep(row: seq<Cell>, j: nat, who: Player)
    requires j < |row|
    ensures RowOwnedBy(row[..j + 1], who) ==
      RowOwnedBy(row[..j], who) + (if row[j].Some? && row[j].value.owner == who then [row[j].value] else [])
  {
    assert row[..j + 1][..j] == row[..j];
  }

  /** The total of VulnerablePoints over some pieces. */
  function VulnerableTotal(g: Grid, ps: seq<PieceView>): int
  {
    if |ps| == 0 then 0 else VulnerableTotal(g, ps[..|ps| - 1]) + VulnerablePoints(g, ps[|ps| - 1])
  }

  /** The total of SafePositions over some pieces. */
  function SafeTotal(g: Grid, ps: seq<PieceView>): int
  {
    if |ps| == 0 then 0 else SafeTotal(g, ps[..|ps| - 1]) + SafePositions(g, ps[|ps| - 1])
  }

  /** The number of pieces that are forced to jump. */
  function JumpTotal(g: Grid, ps: seq<PieceView>): int
  {
    if |ps| == 0 then 0 else JumpTotal(g, ps[..|ps| - 1]) + Bit(IsForcedJump(g, ps[|ps| - 1]))
  }

  /** Since a piece's vulnerable points are 0 or 1, counting the forced jumps
      counts the vulnerable points, and neither exceeds the number of pieces. */
  lemma {:induction false} ForcedJumpsAreVulnerablePoints(g: Grid, ps: seq<PieceView>)
    ensures JumpTotal(g, ps) == VulnerableTotal(g, ps)
    ensures 0 <= JumpTotal(g, ps) <= |ps|
  {
    if |ps| > 0 {
      ForcedJumpsAreVulnerablePoints(g, ps[..|ps| - 1]);
    }
  }

  /** The safe positions of some pieces total at most 8 per piece, and at
      most 6 per piece without kings. */
  lemma {:induction false} SafeTotalBound(g: Grid, ps: seq<PieceView>)
    ensures 0 <= SafeTotal(g, ps) <= 8 * |ps|
    ensures KingFree(g) ==> SafeTotal(g, ps) <= 6 * |ps|
  {
    if |ps| > 0 {
      SafeTotalBound(g, ps[..|ps| - 1]);
      SafePositionsBound(g, ps[|ps| - 1]);
    }
  }

  /** The capture a piece can make, as its guarded blocks compute them: a
      king looks two ways down, other pieces two ways up. The grid is indexed
      [x][y] here. Only the up-left block can produce a move, since the
      other blocks test a cell object against None. */
  function PieceMoves(g: Grid, p: PieceView, turn: Player): (ms: seq<Move>)
    ensures ms == if !p.isKing && Opponent(g, p.x - 1, p.y + 1, turn) && Empty(g, p.x - 2, p.y + 2)
      then [Move(p.x, p.y, p.x - 2, p.y + 2, true)] else []
  {
    var x, y := p.x, p.y;
    if p.isKing then
      LandingCellBlock(g, x - 1, y - 1, x - 2, y - 2, turn, Move(x, y, x - 2, y - 2, true))
      + LandingCellBlock(g, x + 1, y - 1, x + 2, y - 2, turn, Move(x, y, x + 2, y - 2, true))
    else
      LandingPieceBlock(g, x - 1, y + 1, x - 2, y + 2, turn, Move(x, y, x - 2, y + 2, true))
      + LandingCellBlock(g, x + 1, y + 1, x + 2, y + 2, turn, Move(x, y, x + 2, y + 2, true))
  }

  /** One try-block: the move is appended when both tests are true. */
  function JumpBlock(opponent: Eval, landing: Eval, m: Move): seq<Move>
  {
    if opponent == Some(true) && landing == Some(true) then [m] else []
  }

  /** A block that tests the landing square's piece: it yields the capture
      exactly when an opponent's piece is jumped onto an empty square. */
  function LandingPieceBlock(g: Grid, ox: int, oy: int, lx: int, ly: int, turn: Player, m: Move): (ms: seq<Move>)
    ensures ms == if Opponent(g, ox, oy, turn) && Empty(g, lx, ly) then [m] else []
  {
    JumpBlock(PyAnd(PieceIsNotNone(g, ox, oy), OwnerDiffers(g, ox, oy, turn)), PieceIsNone(g, lx, ly), m)
  }

  /** A block that tests the landing square object itself against None: it
      never yields a move. */
  function LandingCellBlock(g: Grid, ox: int, oy: int, lx: int, ly: int, turn: Player, m: Move): (ms: seq<Move>)
    ensures ms == []
  {
    JumpBlock(PyAnd(PieceIsNotNone(g, ox, oy), OwnerDiffers(g, ox, oy, turn)), CellIsNone(g, lx, ly), m)
  }

  /** The moves of some pieces, in order. */
  function MovesOf(g: Grid, ps: seq<PieceView>, turn: Player): seq<Move>
  {
    if |ps| == 0 then [] else MovesOf(g, ps[..|ps| - 1], turn) + PieceMoves(g, ps[|ps| - 1], turn)
  }

  /** The moves of the player on turn. */
  function PotentialMoves(g: Grid, turn: Player): seq<Move>
  {
    MovesOf(g, OwnedBy(g, turn), turn)
  }

  /** Every generated move is an up-left capture by two squares that starts
      at one of the given pieces, and each piece gives at most one. */
  lemma {:induction false} MovesAreUpLeftCaptures(g: Grid, ps: seq<PieceView>, turn: Player)
    ensures |MovesOf(g, ps, turn)| <= |ps|
    ensures forall m :: m in MovesOf(g, ps, turn) ==>
      m.toX == m.fromX - 2 && m.toY == m.fromY + 2 && m.capture &&
      exists q :: q in ps && q.x == m.fromX && q.y == m.fromY
  {
    if |ps| > 0 {
      var init, last := ps[..|ps| - 1], ps[|ps| - 1];
      MovesAreUpLeftCaptures(g, init, turn);
      assert forall q :: q in init ==> q in ps;
      assert last in ps;
    }
  }

  /** The moves of the player on turn are up-left captures of that player's
      own pieces. */
  lemma PotentialMovesAreOwnCaptures(g: Grid, turn: Player)
    ensures |PotentialMoves(g, turn)| <= |OwnedBy(g, turn)|
    ensures forall m :: m in PotentialMoves(g, turn) ==>
      m.toX == m.fromX - 2 && m.toY == m.fromY + 2 && m.capture &&
      exists q :: q in OwnedBy(g, turn) && q.owner == turn && q.x == m.fromX && q.y == m.fromY
  {
    MovesAreUpLeftCaptures(g, OwnedBy(g, turn), turn);
  }

  /** The rows a piece of `owner` counts as the king's rows: 0..2 for TOP
      and 5..rows-1 for BOTTOM. */
  function KingsRowStart(owner: Player): int
  {
    if owner == Top then 0 else 5
  }

  function KingsRowEnd(owner: Player, rows: int): int
  {
    if owner == Top then 2 else rows - 1
  }

  predicate InKingsRows(p: PieceView, rows: int)
  {
    KingsRowStart(p.owner) <= p.y <= KingsRowEnd(p.owner, rows)
  }

  /** A king inside the king's rows: the distance from the centre of those
      rows, less 10, made non-negative. Python's floor division by 2 is
      Dafny's `/` here because the divisor is positive. */
  function KingPositionTerm(p: PieceView, rows: int, cols: int): nat
  {
    if p.isKing && InKingsRows(p, rows) then
      Abs(Abs(p.x - (KingsRowEnd(p.owner, rows) + KingsRowStart(p.owner)) / 2) + Abs(p.y - (0 + (cols - 1)) / 2) - 10)
    else 0
  }

  /** The Manhattan distance from the centre of the board. */
  function CenterTerm(p: PieceView, rows: int, cols: int): nat
  {
    Abs(p.y - cols / 2) + Abs(p.x - rows / 2)
  }

  /** A man outside the king's rows: its distance to their first row. */
  function KingsRowTerm(p: PieceView, rows: int): nat
  {
    if !p.isKing && !InKingsRows(p, rows) then Abs(p.y - KingsRowStart(p.owner)) else 0
  }

  /** A piece at most one row past the start of the king's rows: its
      distance to the row after their end. */
  function AdvancementTerm(p: PieceView, rows: int): nat
  {
    if p.y <= KingsRowStart(p.owner) + 1 then Abs(p.y - (KingsRowEnd(p.owner, rows) + 1)) else 0
  }

  /** What one call of the piece heuristic adds to the piece's value, on a
      board of the given size: material (2 for a king, 1 otherwise) plus the
      four distance terms above; it is always positive. */
  function HeuristicIncrement(p: PieceView, rows: int, cols: int): (inc: nat)
    ensures inc >= 1
    ensures inc >= (if p.isKing then 2 else 1)
  {
    (if p.isKing then 2 else 1) + KingPositionTerm(p, rows, cols) + CenterTerm(p, rows, cols) +
    KingsRowTerm(p, rows) + AdvancementTerm(p, rows)
  }

  /** The piece init_board leaves on square (r, c) of a rows-by-cols board,
      if any. The BOTTOM pass fills rows 0 .. rows-3 on the squares whose
      column has the row's parity; the TOP pass continues the alternation
      from the last row upwards, so it fills rows rows-1 .. 2 on the squares
      of the other parity and records the loop counter rows-1-r as the
      piece's y. The TOP pass runs second, so it would win a shared square. */
  function InitialCell(rows: int, cols: int, r: int, c: int): Cell
  {
    if 2 <= r <= rows - 1 && c % 2 != r % 2 then Some(PieceView(Top, c, rows - 1 - r, false))
    else if 0 <= r < rows - 2 && c % 2 == r % 2 then Some(PieceView(Bottom, c, r, false))
    else None
  }

  /** A board of at most two rows stays empty, and every placed piece is a
      non-king recording its column, owned by BOTTOM on the squares whose
      column and row have the same parity and by TOP on the others. */
  lemma InitialCellFacts(rows: int, cols: int, r: int, c: int)
    ensures InitialCell(rows, cols, r, c).Some? ==>
      InitialCell(rows, cols, r, c).value.owner == (if c % 2 == r % 2 then Bottom else Top)
    ensures rows <= 2 ==> InitialCell(rows, cols, r, c) == None
    ensures InitialCell(rows, cols, r, c).Some? ==>
      !InitialCell(rows, cols, r, c).value.isKing && InitialCell(rows, cols, r, c).value.x == c
  {
  }

  /** The whole initial grid. */
  function InitialGrid(rows: nat, cols: nat): (g: Grid)
    ensures |g| == rows && forall r :: 0 <= r < rows ==> |g[r]| == cols
    ensures forall r, c :: 0 <= r < rows && 0 <= c < cols ==> g[r][c] == InitialCell(rows, cols, r, c)
  {
    seq(rows, r => seq(cols, c => InitialCell(rows, cols, r, c)))
  }

  /** The goal test: exactly one player has pieces on the grid. */
  predicate OnePlayerLeft(g: Grid)
  {
    (|OwnedBy(g, Bottom)| > 0) != (|OwnedBy(g, Top)| > 0)
  }

  /** A freshly set-up board of at least three rows and two columns has
      pieces of both players, so it is not a goal state. */
  lemma InitialGridHasBothPlayers(rows: nat, cols: nat)
    requires rows >= 3 && cols >= 2
    ensures |OwnedBy(InitialGrid(rows, cols), Bottom)| > 0
    ensures |OwnedBy(InitialGrid(rows, cols), Top)| > 0
    ensures !OnePlayerLeft(InitialGrid(rows, cols))
  {
    var g := InitialGrid(rows, cols);
    var bottom := PieceView(Bottom, 0, 0, false);
    assert g[0][0] == Some(bottom);
    assert Some(bottom) in g[0];
    assert bottom in OwnedBy(g, Bottom);
    var c := if (rows - 1) % 2 == 0 then 1 else 0;
    var top := PieceView(Top, c, 0, false);
    assert g[rows - 1][c] == Some(top);
    assert Some(top) in g[rows - 1];
    assert top in OwnedBy(g, Top);
  }
}
