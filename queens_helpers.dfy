/** The N-Queens conflict tests: stepping to a neighbouring square, walking a
    diagonal towards a source row, and deciding whether a value of one row is
    supported by some value of another row's domain. Rows and columns are
    numbered from 1 on the board, but every operation accepts any integer. */
module QueensHelpers {
  import opened Outcomes

  /** The square one diagonal step away: a row down (+1) or up (-1), and a
      column to the left (-1) or right (+1). */
  function GenerateDiag(row: int, col: int, down: bool := false, left: bool := false): (next: (int, int))
    ensures Abs(next.0 - row) == 1 && Abs(next.1 - col) == 1
    ensures next.0 > row <==> down
    ensures next.1 < col <==> left
  {
    (row - (if down then -1 else 1), col - (if left then 1 else -1))
  }

  /** The square one step away in the same column. */
  function GenerateCol(row: int, col: int, down: bool := false): (next: (int, int))
    ensures Abs(next.0 - row) == 1 && (next.0 > row <==> down)
    ensures next.1 == col
  {
    (row - (if down then -1 else 1), col)
  }

  /** The square reached after `steps` calls of GenerateDiag in one direction. */
  function DiagWalk(row: int, col: int, down: bool, left: bool, steps: nat): (int, int)
  {
    if steps == 0 then (row, col)
    else
      var p := DiagWalk(row, col, down, left, steps - 1);
      GenerateDiag(p.0, p.1, down, left)
  }

  /** The outcome of one diagonal walk, in closed form. The walk moves a row
      counter towards `sourceRow` (stopping early at row 0), while a second
      square moves one diagonal step per iteration in the given direction; it
      hits when the square ends on the counter's row and on `sourceCol`. */
  function DiagonalHit(row: int, col: int, sourceRow: int, sourceCol: int, down: bool, left: bool): bool
  {
    if row <= 0 || row == sourceRow then
      col == sourceCol
    else
      // number of iterations: to the source row, or down to row 0
      var steps := if row < sourceRow then sourceRow - row else row - Max(sourceRow, 0);
      (down <==> row < sourceRow) && sourceCol == (if left then col - steps else col + steps)
  }

  /** The walk itself, as the loop of the source. */
  method DoesDiagonalHit(row: int, col: int, sourceRow: int, sourceCol: int, down: bool := false, left: bool := false)
    returns (hit: bool)
    ensures hit == DiagonalHit(row, col, sourceRow, sourceCol, down, left)
  {
    var current := row;
    var tmpRow, tmpCol := row, col;
    while current != sourceRow && current > 0
      invariant row <= 0 || row == sourceRow ==> current == row
      invariant 0 < row < sourceRow ==> row <= current <= sourceRow
      invariant 0 < row && sourceRow < row ==> Max(sourceRow, 0) <= current <= row
      invariant tmpRow == (if down then row + Abs(current - row) else row - Abs(current - row))
      invariant tmpCol == (if left then col - Abs(current - row) else col + Abs(current - row))
      decreases Abs(current - sourceRow)
    {
      if current < sourceRow {
        current := current + 1;
      } else {
        current := current - 1;
      }
      tmpRow := tmpRow + (if down then 1 else -1);
      tmpCol := tmpCol + (if left then -1 else 1);
    }
    hit := tmpRow == current && tmpCol == sourceCol;
  }

  /** Same column. */
  function DoesColHit(col: int, sourceCol: int): bool
  {
    sourceCol == col
  }

  /** The square reached after `steps` calls of GenerateCol in one direction. */
  function ColWalk(row: int, col: int, down: bool, steps: nat): (int, int)
  {
    if steps == 0 then (row, col)
    else
      var p := ColWalk(row, col, down, steps - 1);
      GenerateCol(p.0, p.1, down)
  }

  /** `k` column steps move the row by `k` and keep the column, so every
      square the walk reaches is a column hit of its start. */
  lemma {:induction false} ColWalkStaysInColumn(row: int, col: int, down: bool, steps: nat)
    ensures ColWalk(row, col, down, steps) == (if down then row + steps else row - steps, col)
    ensures DoesColHit(ColWalk(row, col, down, steps).1, col)
  {
    if steps > 0 {
      ColWalkStaysInColumn(row, col, down, steps - 1);
    }
  }

  /** The column test holds exactly when walking the column from the source
      square, towards the other row, reaches the other square. */
  lemma ColHitIsColumnWalk(row: int, col: int, sourceRow: int, sourceCol: int)
    ensures DoesColHit(col, sourceCol) <==>
      ColWalk(sourceRow, sourceCol, row > sourceRow, Abs(row - sourceRow)) == (row, col)
  {
    ColWalkStaysInColumn(sourceRow, sourceCol, row > sourceRow, Abs(row - sourceRow));
  }

  /** True when (row, col) and (sourceRow, sourceCol) lie on a common
      diagonal; for two squares of the board (rows from 1) that is the usual
      |row - sourceRow| == |col - sourceCol|. */
  function CheckDiagonal(row: int, col: int, sourceRow: int, sourceCol: int): (hit: bool)
    ensures hit <==> if row <= 0 then col == sourceCol else Abs(col - sourceCol) == Abs(row - Max(sourceRow, 0))
    ensures row >= 1 && sourceRow >= 1 ==> (hit <==> Abs(row - sourceRow) == Abs(col - sourceCol))
  {
    DiagonalHit(row, col, sourceRow, sourceCol, true, false)
    || DiagonalHit(row, col, sourceRow, sourceCol, true, true)
    || DiagonalHit(row, col, sourceRow, sourceCol, false, true)
    || DiagonalHit(row, col, sourceRow, sourceCol, false, false)
  }

  /** A queen at (valueRow, valueCol) and one at (sourceRow, sourceValue) do
      not attack each other. */
  function CheckIsValueValidV2(valueRow: int, valueCol: int, sourceRow: int, sourceValue: int): (valid: bool)
    ensures valid ==> valueCol != sourceValue
    ensures valueRow >= 1 && sourceRow >= 1 ==>
      (valid <==> valueCol != sourceValue && Abs(valueRow - sourceRow) != Abs(valueCol - sourceValue))
  {
    if !(CheckDiagonal(valueRow, valueCol, sourceRow, sourceValue) || DoesColHit(valueCol, sourceValue)) then true
    else false
  }

  /** The support test of an arc-consistency revision: some column left in the
      source row's domain is compatible with the value. */
  method CheckIsValueValid(valueRow: int, valueCol: int, sourceRow: int, sourceDomain: set<int>)
    returns (valid: bool)
    ensures valid <==> exists sourceCol :: sourceCol in sourceDomain && CheckIsValueValidV2(valueRow, valueCol, sourceRow, sourceCol)
    ensures sourceDomain == {} ==> !valid
  {
    var rest := sourceDomain;
    while exists sourceCol :: sourceCol in rest
      invariant rest <= sourceDomain
      invariant forall sourceCol :: sourceCol in sourceDomain && sourceCol !in rest ==> !CheckIsValueValidV2(valueRow, valueCol, sourceRow, sourceCol)
      decreases rest
    {
      var sourceCol :| sourceCol in rest;
      if !(CheckDiagonal(valueRow, valueCol, sourceRow, sourceCol) || DoesColHit(valueCol, sourceCol)) {
        return true;
      }
      rest := rest - {sourceCol};
    }
    return false;
  }

  /** Stepping diagonally from a square of the board stays on its diagonals:
      every square DiagWalk reaches on the board is reported by CheckDiagonal. */
  lemma {:induction false} DiagWalkStaysOnDiagonal(row: int, col: int, down: bool, left: bool, steps: nat)
    ensures DiagWalk(row, col, down, left, steps) ==
      (if down then row + steps else row - steps, if left then col - steps else col + steps)
    ensures row >= 1 && DiagWalk(row, col, down, left, steps).0 >= 1 ==>
      CheckDiagonal(DiagWalk(row, col, down, left, steps).0, DiagWalk(row, col, down, left, steps).1, row, col)
  {
    if steps > 0 {
      DiagWalkStaysOnDiagonal(row, col, down, left, steps - 1);
    }
  }

  /** On the board, a value is supported exactly when some column of the
      source domain neither shares its column nor lies on one of its diagonals. */
  lemma SupportedOnBoard(valueRow: int, valueCol: int, sourceRow: int, sourceDomain: set<int>)
    requires valueRow >= 1 && sourceRow >= 1
    ensures (exists sourceCol :: sourceCol in sourceDomain && CheckIsValueValidV2(valueRow, valueCol, sourceRow, sourceCol))
        <==> (exists sourceCol :: sourceCol in sourceDomain && sourceCol != valueCol
                && Abs(valueRow - sourceRow) != Abs(valueCol - sourceCol))
  {
  }

  /** The single-value test is the set test on a one-element domain. */
  lemma ValueValidV2IsSingleton(valueRow: int, valueCol: int, sourceRow: int, sourceValue: int)
    ensures CheckIsValueValidV2(valueRow, valueCol, sourceRow, sourceValue) <==>
      exists sourceCol :: sourceCol in {sourceValue} && CheckIsValueValidV2(valueRow, valueCol, sourceRow, sourceCol)
  {
    assert sourceValue in {sourceValue};
  }
}
