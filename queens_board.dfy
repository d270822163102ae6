/** The N-Queens board: one domain per row, each mapping the columns 1..n to
    a coordinate object whose `occupied` flag the board operations flip in
    place. Coordinates, keys, the domain maps and the list of domains are
    never reassigned after construction, so they are constants here and only
    the `occupied` flags are state. */
module QueensBoard {
  import opened Outcomes

  /** The exceptions the board raises: the explicit "Cannot find domain" and
      the KeyError of a dictionary lookup of a missing column. */
  datatype BoardError = CannotFindDomain | KeyError(key: int)

  class BoardCoordinate {
    const x: int
    const y: int
    var occupied: bool

    constructor (x: int, y: int)
      ensures this.x == x && this.y == y && !occupied
    {
      this.x := x;
      this.y := y;
      occupied := false;
    }

    /** Toggles the flag, so a second call restores it. */
    method Occupy()
      modifies this
      ensures occupied == !old(occupied)
    {
      occupied := !occupied;
    }
  }

  class BoardDomain {
    const domainKey: int
    const domain: map<int, BoardCoordinate>

    /** The domain of `row`: a fresh, unoccupied coordinate (row, c) for every
        column c in 1..cols. */
    constructor (row: int, cols: int)
      ensures domainKey == row
      ensures forall c :: c in domain <==> 1 <= c <= cols
      ensures forall c :: c in domain ==>
        domain[c].x == row && domain[c].y == c && !domain[c].occupied && fresh(domain[c])
    {
      domainKey := row;
      var cells: map<int, BoardCoordinate> := map[];
      var c := 1;
      while c <= cols
        invariant forall k :: k in cells <==> 1 <= k < c && k <= cols
        invariant 1 <= c
        invariant forall k :: k in cells ==>
          cells[k].x == row && cells[k].y == k && !cells[k].occupied && fresh(cells[k])
      {
        var coordinate := new BoardCoordinate(row, c);
        cells := cells[c := coordinate];
        c := c + 1;
      }
      domain := cells;
    }
  }

  class Board {
    const rows: int
    const columns: int
    const domains: seq<BoardDomain>

    /** Domain i holds row i + 1, and its coordinates are (i + 1, c) for every
        column c in 1..columns. */
    ghost predicate Valid()
    {
      |domains| == Max(rows, 0) &&
      forall i :: 0 <= i < |domains| ==>
        domains[i].domainKey == i + 1 && (forall c :: c in domains[i].domain <==> 1 <= c <= columns) &&
        forall c :: c in domains[i].domain ==> domains[i].domain[c].x == i + 1 && domains[i].domain[c].y == c
    }

    /** Every coordinate object of the board. */
    ghost function Cells(): set<BoardCoordinate>
    {
      set i, c | 0 <= i < |domains| && c in domains[i].domain :: domains[i].domain[c]
    }

    predicate OnBoard(row: int, col: int)
    {
      1 <= row <= rows && 1 <= col <= columns
    }

    function Cell(row: int, col: int): (cell: BoardCoordinate)
      requires Valid() && OnBoard(row, col)
      ensures cell in Cells() && cell.x == row && cell.y == col
    {
      domains[row - 1].domain[col]
    }

    function IsOccupied(row: int, col: int): bool
      requires Valid() && OnBoard(row, col)
      reads Cell(row, col)
    {
      Cell(row, col).occupied
    }

    /** Since the old state, the flags of row `row` in the columns below
        `upTo`, except column `skip`, were toggled; nothing else changed. */
    twostate predicate TogglesRow(row: int, skip: int, upTo: int)
      requires Valid()
      reads Cells()
    {
      forall r, c :: OnBoard(r, c) ==>
        IsOccupied(r, c) == (if r == row && c != skip && c < upTo then !old(IsOccupied(r, c)) else old(IsOccupied(r, c)))
    }

    /** An m-by-n board, 5-by-5 by default, with every square free. */
    constructor (m: int := 5, n: int := 5)
      ensures rows == m && columns == n && Valid()
      ensures forall row, col :: OnBoard(row, col) ==> !IsOccupied(row, col)
      ensures fresh(Cells())
    {
      rows := m;
      columns := n;
      var ds: seq<BoardDomain> := [];
      var row := 1;
      while row <= m
        invariant 1 <= row <= Max(m, 0) + 1 && |ds| == row - 1
        invariant forall i :: 0 <= i < |ds| ==>
          ds[i].domainKey == i + 1 && (forall c :: c in ds[i].domain <==> 1 <= c <= n) &&
          forall c :: c in ds[i].domain ==>
            ds[i].domain[c].x == i + 1 && ds[i].domain[c].y == c && !ds[i].domain[c].occupied && fresh(ds[i].domain[c])
      {
        var d := new BoardDomain(row, n);
        ds := ds + [d];
        row := row + 1;
      }
      domains := ds;
    }

    /** The first domain whose key is `row`; there is one exactly for the rows
        1..rows, so row 0 and rows past the end raise. */
    method FindDomain(row: int) returns (r: Result<BoardDomain, BoardError>)
      requires Valid()
      ensures r.Ok? <==> 1 <= row <= rows
      ensures r.Ok? ==> r.value == domains[row - 1] && r.value.domainKey == row
      ensures r.Err? ==> r.error == CannotFindDomain
    {
      for i := 0 to |domains|
        invariant !(1 <= row <= i)
      {
        if domains[i].domainKey == row {
          return Ok(domains[i]);
        }
      }
      return Err(CannotFindDomain);
    }

    /** Occupies (queenX, queenY) when that square exists and is free; no
        other square changes, and an occupied square stays as it is. */
    method PlaceQueen(queenX: int, queenY: int) returns (r: Result<(), BoardError>)
      requires Valid()
      modifies Cells()
      ensures r.Ok? <==> 1 <= queenX <= rows
      ensures r.Err? ==> r.error == CannotFindDomain
      ensures forall row, col :: OnBoard(row, col) ==>
        IsOccupied(row, col) == (old(IsOccupied(row, col)) || (r.Ok? && row == queenX && col == queenY))
    {
      var found := FindDomain(queenX);
      if found.Err? {
        return Err(found.error);
      }
      var d := found.value;
      if queenY in d.domain && !d.domain[queenY].occupied {
        d.domain[queenY].Occupy();
      }
      return Ok(());
    }

    /** The column an update_diagonals walk stays in: one right or left of
        the queen's column. */
    static function DiagonalColumn(queenY: int, right: bool): int
    {
      queenY - (if right then -1 else 1)
    }

    /** The first row the walk visits: one below or above the queen. */
    static function DiagonalStart(queenX: int, down: bool): int
    {
      queenX - (if down then -1 else 1)
    }

    /** The exclusive end of the walk: the last row when walking down, row 0
        when walking up (so an upward walk only visits non-positive rows). */
    function DiagonalStop(down: bool): int
    {
      if down then rows else 0
    }

    /** Since the old state, exactly the squares (lo, col), ..., (hi - 1, col)
        became occupied; every other square kept its flag. */
    twostate predicate OccupiesRun(col: int, lo: int, hi: int)
      requires Valid()
      reads Cells()
    {
      forall row, c :: OnBoard(row, c) ==>
        IsOccupied(row, c) == (old(IsOccupied(row, c)) || (c == col && lo <= row < hi))
    }

    /** Walks the rows start, start + 1, ... below stop in one fixed column,
        occupying each free square and stopping with false at the first
        occupied one. The missing row, the missing column and the right edge
        are the three early exits; nothing changes on them. */
    method UpdateDiagonals(queenX: int, queenY: int, down: bool := false, right: bool := false)
      returns (r: Result<bool, BoardError>)
      requires Valid()
      modifies Cells()
      ensures DiagonalStart(queenX, down) >= DiagonalStop(down) ==>
        r == Ok(true) && unchanged(Cells())
      ensures DiagonalStart(queenX, down) < DiagonalStop(down) && DiagonalStart(queenX, down) < 1 ==>
        r == Err(CannotFindDomain) && unchanged(Cells())
      ensures 1 <= DiagonalStart(queenX, down) < DiagonalStop(down) && !(1 <= DiagonalColumn(queenY, right) <= columns) ==>
        r == Err(KeyError(DiagonalColumn(queenY, right))) && unchanged(Cells())
      ensures 1 <= DiagonalStart(queenX, down) < DiagonalStop(down) && 1 <= columns && right && DiagonalColumn(queenY, right) == columns ==>
        r == Ok(!old(IsOccupied(DiagonalStart(queenX, down), columns))) && unchanged(Cells())
      ensures var col, start, stop := DiagonalColumn(queenY, right), DiagonalStart(queenX, down), DiagonalStop(down);
        1 <= start < stop && 1 <= col <= columns && !(right && col == columns) ==>
          exists j :: start <= j <= stop &&
            (forall k :: start <= k < j ==> OnBoard(k, col) && !old(IsOccupied(k, col))) &&
            (j < stop ==> OnBoard(j, col) && old(IsOccupied(j, col))) &&
            r == Ok(j == stop) &&
            OccupiesRun(col, start, j)
    {
      var col := DiagonalColumn(queenY, right);
      var start := DiagonalStart(queenX, down);
      var stop := DiagonalStop(down);
      if start >= stop {
        return Ok(true);
      }
      var found := FindDomain(start);
      if found.Err? {
        return Err(found.error);
      }
      var d := found.value;
      if col !in d.domain {
        return Err(KeyError(col));
      }
      if right && col == columns {
        assert Cell(start, col) == d.domain[col];
        return Ok(!d.domain[col].occupied);
      }
      assert forall row, c :: OnBoard(row, c) ==> IsOccupied(row, c) == old(IsOccupied(row, c));
      label run:
      var reached := OccupyRun(col, start, stop);
      r := Ok(reached == stop);
      assert forall k :: start <= k < reached ==> OnBoard(k, col) && !old@run(IsOccupied(k, col));
      assert reached < stop ==> OnBoard(reached, col) && old@run(IsOccupied(reached, col));
      assert OccupiesRun@run(col, start, reached);
      assert forall row, c :: OnBoard(row, c) ==>
        IsOccupied(row, c) == (old(IsOccupied(row, c)) || (c == col && start <= row < reached));
      assert OccupiesRun(col, start, reached);
    }

    /** The loop of update_diagonals once its first row and its column are
        known to exist and the right edge is excluded: occupies the free
        squares of column col from row start on, and returns the first row
        whose square was already occupied, or stop if there is none. */
    method OccupyRun(col: int, start: int, stop: int) returns (reached: int)
      requires Valid()
      requires 1 <= start < stop <= rows && 1 <= col <= columns
      modifies Cells()
      ensures start <= reached <= stop
      ensures forall k :: start <= k < reached ==> !old(IsOccupied(k, col))
      ensures reached < stop ==> old(IsOccupied(reached, col))
      ensures OccupiesRun(col, start, reached)
    {
      var i := start;
      while i < stop
        invariant start <= i <= stop
        invariant forall k :: start <= k < i ==> !old(IsOccupied(k, col))
        invariant OccupiesRun(col, start, i)
      {
        var found := FindDomain(i);
        var d := found.value;
        assert Cell(i, col) == d.domain[col];
        if d.domain[col].occupied {
          return i;
        }
        d.domain[col].Occupy();
        i := i + 1;
      }
      return stop;
    }

    /** Toggles every square of row queenX whose column differs from queenX
        (the column is compared with the row number); raises for a row that
        is not on the board. */
    method UpdateHorizontal(queenX: int) returns (r: Result<(), BoardError>)
      requires Valid()
      modifies Cells()
      ensures r.Ok? <==> 1 <= queenX <= rows
      ensures r.Err? ==> r.error == CannotFindDomain && unchanged(Cells())
      ensures r.Ok? ==> TogglesRow(queenX, queenX, columns + 1)
    {
      var found := FindDomain(queenX);
      if found.Err? {
        return Err(found.error);
      }
      var d := found.value;
      assert d == domains[queenX - 1];
      ToggleRowExcept(d, queenX);
      return Ok(());
    }

    /** The loop of update_horizontal over the domain d of row queenX:
        toggles every square whose column differs from queenX. */
    method ToggleRowExcept(d: BoardDomain, queenX: int)
      requires Valid() && 1 <= queenX <= rows && d == domains[queenX - 1]
      modifies Cells()
      ensures TogglesRow(queenX, queenX, columns + 1)
    {
      for c := 1 to Max(columns, 0) + 1
        invariant TogglesRow(queenX, queenX, c)
      {
        if c != queenX {
          assert Cell(queenX, c) == d.domain[c];
          d.domain[c].Occupy();
        }
      }
    }

    /** Visits the rows 0, 1, ..., rows - 1 of column queenY; the first lookup
        is of row 0, which no board has, so a board with a row raises before
        touching anything and only a board without rows reports true. */
    method UpdateVertical(queenY: int) returns (r: Result<bool, BoardError>)
      requires Valid()
      modifies Cells()
      ensures rows >= 1 ==> r == Err(CannotFindDomain)
      ensures rows <= 0 ==> r == Ok(true)
      ensures unchanged(Cells())
    {
      for i := 0 to Max(rows, 0)
        invariant i == 0
      {
        var found := FindDomain(i);
        match found
        case Err(e) => return Err(e);
      }
      return Ok(true);
    }
  }
}
