/**
 The 6 x 7 Connect Four grid and the gravity rule for placing pieces
 (`create_board`, `drop_piece`, `get_next_open_row`, `is_valid_location`
 and `is_draw` of the AI game). Row 0 is the top of the grid; pieces fall
 towards row 5.
 */
module Board {
  import opened Options

  /** A cell holds nothing (" ") or one of the two tokens "X" and "O". */
  datatype Cell = Empty | X | O

  const Rows: int := 6
  const Columns: int := 7

  /** Token of the computer player in the AI game. */
  const AIPiece: Cell := O
  /** Token of the human player in the AI game. */
  const HumanPiece: Cell := X

  predicate IsGrid(g: seq<seq<Cell>>) {
    |g| == Rows && forall r :: 0 <= r < |g| ==> |g[r]| == Columns
  }

  function EmptyGrid(): seq<seq<Cell>> {
    seq(Rows, _ => seq(Columns, _ => Empty))
  }

  /** A grid of exactly 6 rows of 7 cells. */
  type Board = g: seq<seq<Cell>> | IsGrid(g) witness EmptyGrid()

  predicate InGrid(row: int, col: int) {
    0 <= row < Rows && 0 <= col < Columns
  }

  /** Every cell of column `col` holds a piece. */
  predicate ColumnFull(b: Board, col: int)
    requires 0 <= col < Columns
  {
    forall row :: 0 <= row < Rows ==> b[row][col] != Empty
  }

  /** `row` is the lowest (largest-index) empty cell of column `col`. */
  predicate IsLowestEmpty(b: Board, col: int, row: int)
    requires 0 <= col < Columns
  {
    && 0 <= row < Rows
    && b[row][col] == Empty
    && forall r :: row < r < Rows ==> b[r][col] != Empty
  }

  /** `b'` agrees with `b` everywhere except possibly at (row, col). */
  ghost predicate SameExcept(b: Board, b': Board, row: int, col: int) {
    forall r, c :: InGrid(r, c) && (r, c) != (row, col) ==> b'[r][c] == b[r][c]
  }

  /**
   Gravity: in every column, no empty cell lies below a piece. Rows grow
   downwards, so a piece at `r1` forces a piece at every `r2 > r1`.
   */
  predicate Gravity(b: Board) {
    forall r1, r2, c :: 0 <= r1 < r2 < Rows && 0 <= c < Columns && b[r1][c] != Empty ==> b[r2][c] != Empty
  }

  /** A fresh board: every cell empty. */
  function Create(): (b: Board)
    ensures forall r, c :: InGrid(r, c) ==> b[r][c] == Empty
    ensures Gravity(b)
  {
    EmptyGrid()
  }

  /** The board with the single cell (row, col) overwritten by `x`. */
  function SetCell(b: Board, row: int, col: int, x: Cell): (b': Board)
    requires InGrid(row, col)
    ensures b'[row][col] == x
    ensures SameExcept(b, b', row, col)
  {
    b[row := b[row][col := x]]
  }

  /**
   Scans column `col` upwards from `row` to the top and returns the first
   empty cell met: the loop `for row in reversed(range(ROWS))` shared by
   `drop_piece` and `get_next_open_row`.
   */
  function ScanUp(b: Board, col: int, row: int): (r: Option<int>)
    requires 0 <= col < Columns
    requires -1 <= row < Rows
    decreases row + 1
    ensures r.Some? ==> 0 <= r.value <= row && b[r.value][col] == Empty
    ensures r.Some? ==> forall k :: r.value < k <= row ==> b[k][col] != Empty
    ensures r.None? ==> forall k :: 0 <= k <= row ==> b[k][col] != Empty
  {
    if row < 0 then None
    else if b[row][col] == Empty then Some(row)
    else ScanUp(b, col, row - 1)
  }

  /** `get_next_open_row`: the row a piece dropped into `col` lands in, or None when the column is full. */
  function NextOpenRow(b: Board, col: int): (r: Option<int>)
    requires 0 <= col < Columns
    ensures r.Some? <==> !ColumnFull(b, col)
    ensures r.Some? ==> IsLowestEmpty(b, col, r.value)
  {
    ScanUp(b, col, Rows - 1)
  }

  /**
   `drop_piece`: writes `piece` into the lowest empty cell of `col` and
   reports success, or reports failure and leaves the board alone when the
   column is full. The Python function mutates its argument; here the new
   board is returned with the flag.
   */
  function DropPiece(b: Board, col: int, piece: Cell): (r: (bool, Board))
    requires 0 <= col < Columns
    ensures r.0 <==> exists row :: 0 <= row < Rows && b[row][col] == Empty
    ensures r.0 ==> exists row :: IsLowestEmpty(b, col, row) && r.1[row][col] == piece && SameExcept(b, r.1, row, col)
    ensures !r.0 ==> r.1 == b
  {
    match ScanUp(b, col, Rows - 1)
    case Some(row) => (true, SetCell(b, row, col, piece))
    case None => (false, b)
  }

  /** `is_valid_location`: the top cell of the column is empty, so the column has room. */
  predicate IsValidLocation(b: Board, col: int)
    requires 0 <= col < Columns
    ensures IsValidLocation(b, col) ==> !ColumnFull(b, col)
  {
    b[0][col] == Empty
  }

  /** `is_draw`: every cell of the top row holds a piece. A board that is no draw has a column with room. */
  predicate IsDraw(b: Board)
    ensures !IsDraw(b) ==> exists col :: 0 <= col < Columns && !ColumnFull(b, col)
  {
    forall col :: 0 <= col < Columns ==> !IsValidLocation(b, col)
  }

  /** `get_next_open_row` names exactly the row `drop_piece` writes, and is None exactly when the drop fails. */
  lemma NextOpenRowMatchesDrop(b: Board, col: int, piece: Cell)
    requires 0 <= col < Columns
    ensures var (ok, b') := DropPiece(b, col, piece);
      && (ok <==> NextOpenRow(b, col).Some?)
      && (ok ==> b' == SetCell(b, NextOpenRow(b, col).value, col, piece))
  {
  }

  /** Dropping a piece never breaks gravity. */
  lemma DropPreservesGravity(b: Board, col: int, piece: Cell)
    requires 0 <= col < Columns
    requires Gravity(b)
    ensures Gravity(DropPiece(b, col, piece).1)
  {
    var (ok, b') := DropPiece(b, col, piece);
    if ok {
      var row := NextOpenRow(b, col).value;
      forall r1, r2, c | 0 <= r1 < r2 < Rows && 0 <= c < Columns && b'[r1][c] != Empty
        ensures b'[r2][c] != Empty
      {
        if c == col && r1 == row {
          assert b'[r2][c] == b[r2][c];
        }
      }
    }
  }

  /** Under gravity, `is_valid_location` holds exactly when the column has room. */
  lemma ValidIffRoom(b: Board, col: int)
    requires 0 <= col < Columns
    requires Gravity(b)
    ensures IsValidLocation(b, col) <==> !ColumnFull(b, col)
  {
  }

  /** Under gravity, `is_draw` holds exactly when no column can take another piece. */
  lemma DrawIffNoRoom(b: Board)
    requires Gravity(b)
    ensures IsDraw(b) <==> forall col :: 0 <= col < Columns ==> NextOpenRow(b, col).None?
  {
    forall col | 0 <= col < Columns
      ensures IsValidLocation(b, col) <==> NextOpenRow(b, col).Some?
    {
      ValidIffRoom(b, col);
    }
    if !IsDraw(b) {
      var col :| 0 <= col < Columns && b[0][col] == Empty;
      assert NextOpenRow(b, col).Some?;
    }
  }

  /** Writing a piece into an empty cell and then emptying it again restores the board. */
  lemma PlaceThenUndo(b: Board, row: int, col: int, piece: Cell)
    requires InGrid(row, col)
    requires b[row][col] == Empty
    ensures SetCell(SetCell(b, row, col, piece), row, col, Empty) == b
  {
    var b2 := SetCell(SetCell(b, row, col, piece), row, col, Empty);
    assert forall r :: 0 <= r < Rows ==> b2[r] == b[r];
  }
}
