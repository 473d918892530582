/**
 The Connect Four side of `minimax`: its terminal test, leaf score, valid
 columns and moves, and the search itself as `GameSearch.AlphaBeta` over
 them. The source mutates the board before each recursive call and undoes
 the write afterwards; here each child is searched on its own copy of the
 board (`Play`), which `Board.PlaceThenUndo` shows is the same board the
 undo restores.
 */
module Search {
  import opened Options
  import opened Board
  import opened Windows
  import opened WinDetect
  import opened Evaluate
  import opened GameSearch

  /** `valid_locations` from column `from` onwards: the columns whose top cell is empty, in ascending order. */
  function ValidFrom(b: Board, from: int): (cols: seq<int>)
    requires 0 <= from <= Columns
    decreases Columns - from
    ensures |cols| <= Columns - from
    ensures forall i :: 0 <= i < |cols| ==> from <= cols[i] < Columns && IsValidLocation(b, cols[i])
    ensures forall c :: from <= c < Columns && IsValidLocation(b, c) ==> c in cols
    ensures forall i, j :: 0 <= i < j < |cols| ==> cols[i] < cols[j]
  {
    if from == Columns then []
    else (if IsValidLocation(b, from) then [from] else []) + ValidFrom(b, from + 1)
  }

  /** `valid_locations`: every column accepting a piece, ascending. */
  function ValidLocations(b: Board): (cols: seq<int>)
    ensures forall i :: 0 <= i < |cols| ==> 0 <= cols[i] < Columns && IsValidLocation(b, cols[i])
    ensures forall c :: 0 <= c < Columns && IsValidLocation(b, c) ==> c in cols
    ensures forall i, j :: 0 <= i < j < |cols| ==> cols[i] < cols[j]
    ensures cols == [] <==> IsDraw(b)
  {
    ValidFrom(b, 0)
  }

  /**
   The move the search tries: `piece` dropped into `col` on a copy of the
   board. The search only plays columns from `ValidLocations`; any other
   column leaves the board as it is.
   */
  function Play(b: Board, col: int, piece: Cell): (b': Board)
    ensures 0 <= col < Columns && IsValidLocation(b, col) ==>
      exists row :: IsLowestEmpty(b, col, row) && b'[row][col] == piece && SameExcept(b, b', row, col)
  {
    if 0 <= col < Columns then DropPiece(b, col, piece).1 else b
  }

  /**
   `is_terminal` as the source computes it. In
   `check_winner(b, AI) or check_winner(b, HUMAN) or is_draw(b)` the first
   operand is a non-empty tuple, which Python treats as true, so the `or`
   stops there and `is_terminal` is the first component of the AI's check.
   */
  predicate IsTerminal(b: Board)
    ensures IsTerminal(b) <==> HasFour(b, AIPiece)
  {
    CheckWinner(b, AIPiece).won
  }

  /**
   The terminal branch of `minimax`: 1000000 for a computer win, -1000000
   for a human win, 0 (the draw) when neither side has four in a row.
   */
  function TerminalScore(b: Board): (v: int)
    ensures v == WinScore <==> HasFour(b, AIPiece)
    ensures v == -WinScore <==> !HasFour(b, AIPiece) && HasFour(b, HumanPiece)
    ensures v == 0 <==> !HasFour(b, AIPiece) && !HasFour(b, HumanPiece)
  {
    if CheckWinner(b, AIPiece).won then WinScore
    else if CheckWinner(b, HumanPiece).won then -WinScore
    else 0
  }

  /** The value `minimax` returns without searching: terminal score, or the heuristic for the AI. */
  function LeafScore(b: Board): (v: SearchScore)
    ensures IsTerminal(b) ==> v == WinScore
  {
    if IsTerminal(b) then TerminalScore(b) else ScorePosition(b, AIPiece)
  }

  /** Connect Four as the search sees it; the computer moves for the maximizing side. */
  function ConnectFour(): Game<Board> {
    Game(IsTerminal, LeafScore, ValidLocations, (b, col, ai) => Play(b, col, if ai then AIPiece else HumanPiece))
  }

  /** The whole of `minimax(board, depth, alpha, beta, maximizingPlayer)`. */
  function Minimax(b: Board, depth: nat, alpha: int, beta: int, maximizing: bool): (r: Outcome)
    ensures r.Ok? ==> IsSearchScore(r.value.score)
    ensures r.Ok? ==> (r.value.col.Some? <==> depth > 0 && !IsTerminal(b))
    ensures r.Ok? && r.value.col.Some? ==>
      var c := r.value.col.value; c in ValidLocations(b) && 0 <= c < Columns && IsValidLocation(b, c)
    ensures depth == 0 || IsTerminal(b) ==> r == Ok(SearchResult(None, LeafScore(b)))
    ensures depth > 0 && !IsTerminal(b) && IsDraw(b) ==> r == Err(NoValidLocations)
  {
    AlphaBeta(ConnectFour(), b, depth, alpha, beta, maximizing)
  }

  /**
   The mutate/undo of the search loop: `row = get_next_open_row(board, col)`,
   `board[row][col] = piece`, search, `board[row][col] = EMPTY`. For a valid
   column the write produces exactly the board `Play` searches, and the undo
   gives back the board the loop started from.
   */
  lemma UndoRestores(b: Board, col: int, piece: Cell)
    requires 0 <= col < Columns && IsValidLocation(b, col)
    ensures NextOpenRow(b, col).Some?
    ensures var row := NextOpenRow(b, col).value;
      && Play(b, col, piece) == SetCell(b, row, col, piece)
      && SetCell(Play(b, col, piece), row, col, Empty) == b
  {
    assert !ColumnFull(b, col) by {
      assert b[0][col] == Empty;
    }
    var row := NextOpenRow(b, col).value;
    NextOpenRowMatchesDrop(b, col, piece);
    PlaceThenUndo(b, row, col, piece);
  }

  /**
   A board the human has won, and the computer has not, is not terminal:
   at depth 0 the search scores it with the heuristic instead of -1000000,
   and at greater depth it goes on searching. The human-win return of the
   terminal branch is never taken for it.
   */
  lemma HumanWinIsNotTerminal(b: Board, depth: nat, alpha: int, beta: int, maximizing: bool)
    requires CheckWinner(b, HumanPiece).won && !CheckWinner(b, AIPiece).won
    ensures !IsTerminal(b)
    ensures depth == 0 ==> Minimax(b, depth, alpha, beta, maximizing) == Ok(SearchResult(None, ScorePosition(b, AIPiece)))
    ensures depth > 0 && Minimax(b, depth, alpha, beta, maximizing).Ok? ==> Minimax(b, depth, alpha, beta, maximizing).value.col.Some?
    ensures LeafScore(b) != -WinScore
  {
  }
}
