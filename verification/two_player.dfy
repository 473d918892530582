/**
 The two-player game. Its board, `create_board`, `drop_piece` and
 `is_draw` are the AI game's (module `Board`); what it adds is a win check
 that answers only yes or no, and the `for row in reversed(range(ROWS))`
 loop of `drop_piece` written out as a method.
 */
module TwoPlayer {
  import opened Board
  import opened Windows
  import WinDetect

  /** Token of the first player. */
  const PlayerOne: Cell := X
  /** Token of the second player. */
  const PlayerTwo: Cell := O

  /** Four `piece`s from (r, c) to the right. */
  predicate RowOfFour(b: Board, piece: Cell, r: int, c: int)
    requires 0 <= r < Rows && 0 <= c < Columns - 3
  {
    b[r][c] == piece && b[r][c + 1] == piece && b[r][c + 2] == piece && b[r][c + 3] == piece
  }

  /** Four `piece`s from (r, c) downwards. */
  predicate ColumnOfFour(b: Board, piece: Cell, r: int, c: int)
    requires 0 <= r < Rows - 3 && 0 <= c < Columns
  {
    b[r][c] == piece && b[r + 1][c] == piece && b[r + 2][c] == piece && b[r + 3][c] == piece
  }

  /** Four `piece`s from (r, c) along (r + i, c + i). */
  predicate RisingOfFour(b: Board, piece: Cell, r: int, c: int)
    requires 0 <= r < Rows - 3 && 0 <= c < Columns - 3
  {
    b[r][c] == piece && b[r + 1][c + 1] == piece && b[r + 2][c + 2] == piece && b[r + 3][c + 3] == piece
  }

  /** Four `piece`s from (r, c) along (r - i, c + i). */
  predicate FallingOfFour(b: Board, piece: Cell, r: int, c: int)
    requires 3 <= r < Rows && 0 <= c < Columns - 3
  {
    b[r][c] == piece && b[r - 1][c + 1] == piece && b[r - 2][c + 2] == piece && b[r - 3][c + 3] == piece
  }

  /** `check_winner` of the two-player game: one of its four double loops finds four in a row. */
  predicate CheckWinner(b: Board, piece: Cell)
    ensures CheckWinner(b, piece) ==> exists r, c :: InGrid(r, c) && b[r][c] == piece
  {
    || (exists r, c :: 0 <= r < Rows && 0 <= c < Columns - 3 && RowOfFour(b, piece, r, c))
    || (exists r, c :: 0 <= r < Rows - 3 && 0 <= c < Columns && ColumnOfFour(b, piece, r, c))
    || (exists r, c :: 0 <= r < Rows - 3 && 0 <= c < Columns - 3 && RisingOfFour(b, piece, r, c))
    || (exists r, c :: 3 <= r < Rows && 0 <= c < Columns - 3 && FallingOfFour(b, piece, r, c))
  }

  /** A window is filled exactly when each of its four cells, taken one by one, holds `piece`. */
  lemma FilledIffFourCells(b: Board, w: Window, piece: Cell)
    requires InBounds(w)
    ensures Filled(b, w, piece) <==>
      && b[At(w, 0).0][At(w, 0).1] == piece && b[At(w, 1).0][At(w, 1).1] == piece
      && b[At(w, 2).0][At(w, 2).1] == piece && b[At(w, 3).0][At(w, 3).1] == piece
  {
    if b[At(w, 0).0][At(w, 0).1] == piece && b[At(w, 1).0][At(w, 1).1] == piece
      && b[At(w, 2).0][At(w, 2).1] == piece && b[At(w, 3).0][At(w, 3).1] == piece
    {
      forall i | 0 <= i < WindowLength
        ensures b[At(w, i).0][At(w, i).1] == piece
      {
        assert i == 0 || i == 1 || i == 2 || i == 3;
      }
    }
  }

  /** The window a hit of one of the four loops stands for is on the grid and filled. */
  lemma LoopHitIsWindow(b: Board, piece: Cell, w: Window)
    requires InBounds(w)
    ensures w.dir == Horizontal ==> (RowOfFour(b, piece, w.row, w.col) <==> Filled(b, w, piece))
    ensures w.dir == Vertical ==> (ColumnOfFour(b, piece, w.row, w.col) <==> Filled(b, w, piece))
    ensures w.dir == PositiveSlope ==> (RisingOfFour(b, piece, w.row, w.col) <==> Filled(b, w, piece))
    ensures w.dir == NegativeSlope ==> (FallingOfFour(b, piece, w.row, w.col) <==> Filled(b, w, piece))
  {
    FilledIffFourCells(b, w, piece);
  }

  /** The two-player win check holds exactly when some in-grid window of four holds `piece`. */
  lemma {:induction false} CheckWinnerIffFour(b: Board, piece: Cell)
    ensures CheckWinner(b, piece) <==> HasFour(b, piece)
  {
    if CheckWinner(b, piece) {
      var w: Window;
      if r, c :| 0 <= r < Rows && 0 <= c < Columns - 3 && RowOfFour(b, piece, r, c) {
        w := Window(r, c, Horizontal);
      } else if r, c :| 0 <= r < Rows - 3 && 0 <= c < Columns && ColumnOfFour(b, piece, r, c) {
        w := Window(r, c, Vertical);
      } else if r, c :| 0 <= r < Rows - 3 && 0 <= c < Columns - 3 && RisingOfFour(b, piece, r, c) {
        w := Window(r, c, PositiveSlope);
      } else {
        var r, c :| 3 <= r < Rows && 0 <= c < Columns - 3 && FallingOfFour(b, piece, r, c);
        w := Window(r, c, NegativeSlope);
      }
      LoopHitIsWindow(b, piece, w);
      assert InBounds(w) && Filled(b, w, piece);
    }
    if HasFour(b, piece) {
      var w :| InBounds(w) && Filled(b, w, piece);
      LoopHitIsWindow(b, piece, w);
      match w.dir
      case Horizontal => assert RowOfFour(b, piece, w.row, w.col);
      case Vertical => assert ColumnOfFour(b, piece, w.row, w.col);
      case PositiveSlope => assert RisingOfFour(b, piece, w.row, w.col);
      case NegativeSlope => assert FallingOfFour(b, piece, w.row, w.col);
    }
  }

  /** The two games agree: this check is the first component of the AI game's `check_winner`. */
  lemma CheckWinnerAgrees(b: Board, piece: Cell)
    ensures CheckWinner(b, piece) == WinDetect.CheckWinner(b, piece).won
  {
    CheckWinnerIffFour(b, piece);
  }

  /**
   `drop_piece` as the source writes it: scan the column from the bottom row
   up, write `piece` into the first empty cell and report success, or report
   failure once the top row has been passed.
   */
  method DropPieceScan(b: Board, col: int, piece: Cell) returns (ok: bool, b': Board)
    requires 0 <= col < Columns
    ensures ok <==> exists row :: 0 <= row < Rows && b[row][col] == Empty
    ensures ok ==> exists row :: IsLowestEmpty(b, col, row) && b'[row][col] == piece && SameExcept(b, b', row, col)
    ensures !ok ==> b' == b
    ensures (ok, b') == DropPiece(b, col, piece)
  {
    var row := Rows - 1;
    while row >= 0
      invariant -1 <= row < Rows
      invariant forall r :: row < r < Rows ==> b[r][col] != Empty
      decreases row
    {
      if b[row][col] == Empty {
        b' := SetCell(b, row, col, piece);
        assert IsLowestEmpty(b, col, row);
        return true, b';
      }
      row := row - 1;
    }
    return false, b;
  }

  /** Under gravity, the board is a draw exactly when `drop_piece` fails in every column. */
  lemma DrawIffNoDrop(b: Board, piece: Cell)
    requires Gravity(b)
    ensures IsDraw(b) <==> forall col :: 0 <= col < Columns ==> !DropPiece(b, col, piece).0
  {
    DrawIffNoRoom(b);
    forall col | 0 <= col < Columns
      ensures DropPiece(b, col, piece).0 <==> NextOpenRow(b, col).Some?
    {
      NextOpenRowMatchesDrop(b, col, piece);
    }
  }

  /** Neither check reports a win for a piece that appears nowhere on the board. */
  lemma NoWinWithoutPieces(b: Board, piece: Cell)
    requires forall r, c :: InGrid(r, c) ==> b[r][c] != piece
    ensures !CheckWinner(b, piece)
    ensures !WinDetect.CheckWinner(b, piece).won
  {
    CheckWinnerAgrees(b, piece);
  }

  /**
   A board with every cell empty, as `create_board` makes it, obeys gravity,
   is no draw, and shows no win for either player under either check.
   */
  lemma EmptyBoardFacts(b: Board)
    requires forall r, c :: InGrid(r, c) ==> b[r][c] == Empty
    ensures Gravity(b)
    ensures !IsDraw(b)
    ensures !CheckWinner(b, PlayerOne) && !CheckWinner(b, PlayerTwo)
    ensures !WinDetect.CheckWinner(b, PlayerOne).won && !WinDetect.CheckWinner(b, PlayerTwo).won
  {
    assert !IsDraw(b) by {
      assert IsValidLocation(b, 0);
    }
    NoWinWithoutPieces(b, PlayerOne);
    NoWinWithoutPieces(b, PlayerTwo);
  }
}
