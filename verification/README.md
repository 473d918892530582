# Connect Four: rules, heuristic and alpha-beta search in Dafny

This project models the game engine of a console Connect Four program. It has two variants: a game against a computer opponent (`connect_four-AI.py`) and a game between two people (`connect_four-2player.py`). It proves properties of that model.

The board is a fixed 6 x 7 grid of cells. A cell is empty, `X` or `O`. Row 0 is the top row and pieces fall towards row 5. The computer plays `O` and the human plays `X`. In the two-player game, player one plays `X` and player two plays `O`.

The engine consists of:

- **Gravity placement** (module `Board`): `create_board`, `drop_piece`, `get_next_open_row`, `is_valid_location` and `is_draw`. Both programs define the board operations identically, so the two-player game reuses this module.
- **Win detection** (modules `Windows` and `WinDetect`): `check_winner` of the AI game tries every window of four cells in a fixed scan order. It returns `(True, positions)` for the first window that holds four of a piece, and `(False, None)` otherwise.
- **The heuristic** (modules `Evaluate` and `ScoreLoops`):
  - `evaluate_window` scores one window;
  - `score_position` adds three points per own piece in the centre column to the window scores of all 69 windows.
  - `ScoreLoops` writes the source's four double loops out as methods and proves them equal to the functional definition.
- **The search** (modules `GameSearch` and `Search`): `minimax(board, depth, alpha, beta, maximizingPlayer)` with alpha-beta pruning.
  - It is written once over an abstract game: a terminal test, a leaf score, the list of moves, and the move itself.
  - `Search.ConnectFour` supplies those four for the board.
  - The source places a piece, recurses, then removes the piece. The model searches each child on its own copy of the board. `Search.UndoRestores` shows that this copy is the board the source searches, and that the undo restores the original.
- **Pruning and the chosen move** (modules `Pruning` and `RootMove`):
  - Plain minimax over the same leaves is the reference definition.
  - Under a window inside the sentinels, the pruned search is sound in the fail-soft sense. Called with the full window, as the game does, it returns the plain minimax value.
  - The root never cuts, and the column it plays is the first column with the best value.
- **The two-player game** (module `TwoPlayer`): a win check that answers only yes or no, proved equal to the first component of the AI game's check. It also includes `drop_piece` as the source's scanning loop, and facts about the empty board.

## Where the code departs from its evident intent

The model follows the code as written in each of these places.

- **Terminal test.** Line 147 of `connect_four-AI.py` computes `is_terminal, _ = check_winner(board, AI) or check_winner(board, HUMAN) or is_draw(board)`.
  - The human operand and `is_draw` in that line show the intent: a win by either side, or a full board, ends the search.
  - The branches at lines 153-156 say the same. A human win returns -1000000, and a position that is neither side's win returns 0.
  - As written, `check_winner` always returns a two-element tuple, which Python treats as true, so the `or` stops at the first operand.
  - So `is_terminal` is only "the computer has four in a row" (`Search.IsTerminal`).
  - A terminal leaf therefore always scores 1000000, and the -1000000 and 0 returns are never reached (`Search.LeafScore`).
  - A board the human has won is scored with the heuristic at depth 0 and searched further at greater depth (`Search.HumanWinIsNotTerminal`).
- **Full board.** Because `is_draw` never ends the search, a full board without a computer win, reached at depth > 0, gets an empty `valid_locations`. `random.choice([])` at line 162 or 177 then raises. The model returns `Err(NoValidLocations)` there.
- **The random default column.** `random.choice(valid_locations)` at lines 162 and 177 only sets a default `best_col`.
  - The first loop iteration always overwrites it, because every score beats the starting -inf (or +inf) at lines 168-170 and 183-185.
  - Later columns replace it only when strictly better.
  - So the column played does not depend on the random choice. It is the first valid column with the best value (`RootMove.ChosenColumnIsOptimal`).

## Model

| member | source | states |
|---|---|---|
| Board.Create | connect_four-AI.py:21-22 | The new board is 6 x 7, every cell is empty, and it satisfies the gravity invariant. |
| Board.ScanUp | connect_four-AI.py:42-43 | Scanning a column upwards from a row returns the first empty cell met: that cell is empty and every cell between it and the start holds a piece. When there is none, every scanned cell holds a piece. |
| Board.NextOpenRow | connect_four-AI.py:139-142 | `get_next_open_row` returns a row exactly when the column is not full, and the row is the lowest empty cell. A full column gives None, the Python function's implicit return. |
| Board.DropPiece | connect_four-AI.py:41-46 | Success holds iff the column has an empty cell. On success, `piece` is written into the lowest empty cell and every other cell is unchanged. On failure the board is returned unchanged. |
| Board.IsValidLocation | connect_four-AI.py:135-136 | Definition: the top cell is empty. A valid column always has room, gravity or not. `Board.ValidIffRoom` gives the converse under gravity. |
| Board.IsDraw | connect_four-AI.py:77-78 | Definition: no column's top cell is empty. A board that is not a draw has a column with room. `Board.DrawIffNoRoom` and `TwoPlayer.DrawIffNoDrop` characterise it under gravity. |
| Board.NextOpenRowMatchesDrop | connect_four-AI.py:139-142 | `get_next_open_row` names exactly the row `drop_piece` writes, and is None exactly when the drop fails. |
| Board.DropPreservesGravity | connect_four-AI.py:41-46 | Dropping a piece into any column of a board with no gap under a piece leaves a board with no gap under a piece. |
| Board.ValidIffRoom | connect_four-AI.py:135-136 | Under gravity, `is_valid_location` (top cell empty) holds iff the column is not full. |
| Board.DrawIffNoRoom | connect_four-AI.py:77-78 | Under gravity, `is_draw` (top row full) holds iff `get_next_open_row` is None in every column. |
| Board.PlaceThenUndo | connect_four-AI.py:164-167 | Writing a piece into an empty cell and then writing EMPTY back restores the original board. |
| Windows.WinScanOrder | connect_four-AI.py:50-72 | The win check tries 69 windows (24 horizontal, 21 vertical, 12 per diagonal), each lying on the grid. |
| Windows.ScoreScanOrder | connect_four-AI.py:106-130 | The scorer visits 69 windows, each lying on the grid. With `Windows.ScoreScanIndex` and `Windows.ScansAreExact`, each window of four is visited exactly once. |
| Windows.WinScanIndex | connect_four-AI.py:50-72 | Every window of four that lies on the grid is tried by the win check. |
| Windows.ScoreScanIndex | connect_four-AI.py:106-130 | Every window of four that lies on the grid is scored by `score_position`. |
| Windows.ScansAreExact | connect_four-AI.py:106-130 | Neither scan visits a window twice. Together with the index functions, each scan visits every window exactly once. |
| WinDetect.FindFilled | connect_four-AI.py:51-72 | The nested loops return the first index at or after the start whose window holds four of `piece`, or None when no later window does. |
| WinDetect.CheckWinner | connect_four-AI.py:49-74 | `won` holds iff some window on the grid holds four of `piece`. The positions reported are those of the first such window in scan order (horizontal, vertical, positive slope, negative slope). `(False, None)` is returned otherwise. |
| WinDetect.WinLineIsGenuine | connect_four-AI.py:53-72 | A reported win is four consecutive, collinear cells on the grid, all holding `piece`. |
| Evaluate.Count | connect_four-AI.py:85-92 | `list.count` never exceeds the length of the list. |
| Evaluate.CountIsOccurrences | connect_four-AI.py:85-92 | `list.count` of a value is the number of positions of the list that hold it. |
| Evaluate.CountsPartition | connect_four-AI.py:85-92 | The counts of empty, `X` and `O` cells add up to the window length. |
| Evaluate.Opponent | connect_four-AI.py:83 | The opponent of a piece is a player's token, never EMPTY, and differs from the piece. |
| Evaluate.EvaluateWindow | connect_four-AI.py:81-95 | A window's score is one of 100, 10, 5, 0 and -100. 100 iff four own pieces; 10 iff three own and one empty; 5 iff two own and two empty; -100 iff three opponent pieces and one empty. Every other composition, four opponent pieces included, scores 0. |
| Evaluate.CenterCount | connect_four-AI.py:101-104 | The centre bonus counts the rows whose centre cell (column 3) holds `piece`: `center_array.count(piece)` equals the number of such rows. |
| Evaluate.SumWindows | connect_four-AI.py:106-130 | A sum of window scores lies within -100 and 100 times the number of windows. |
| Evaluate.ScorePosition | connect_four-AI.py:98-132 | `score_position` lies in [-6900, 6918], well inside the win score 1000000. |
| ScoreLoops.SumWindowsAppend | connect_four-AI.py:106-130 | The sum of window scores over two lists of windows in sequence is the sum of their separate sums. |
| ScoreLoops.AddHorizontal | connect_four-AI.py:107-111 | The horizontal double loop over `row_array` slices adds the score of every horizontal window. |
| ScoreLoops.AddVertical | connect_four-AI.py:114-118 | The vertical double loop over `col_array` slices adds the score of every vertical window. |
| ScoreLoops.AddPositiveSlope | connect_four-AI.py:121-124 | The (r + i, c + i) double loop adds the score of every such window. |
| ScoreLoops.AddNegativeSlope | connect_four-AI.py:127-130 | The (r - i, c + i) double loop adds the score of every such window. |
| ScoreLoops.ScorePositionLoops | connect_four-AI.py:98-132 | The loop-by-loop `score_position` computes the centre bonus plus the window sum, which is the functional `ScorePosition`. |
| Search.ValidLocations | connect_four-AI.py:146 | `valid_locations` is strictly ascending. It holds exactly the columns whose top cell is empty, and it is empty iff `is_draw` holds. |
| Search.Play | connect_four-AI.py:164-165 | A move into a valid column writes the piece into the column's lowest empty cell and changes nothing else. |
| Search.UndoRestores | connect_four-AI.py:164-167 | For a valid column, `get_next_open_row` finds a row. Writing the piece there gives the board the search recurses on, and writing EMPTY back restores the original board. |
| Search.IsTerminal | connect_four-AI.py:147 | `is_terminal` as the code computes it holds exactly when the computer has four in a row, whatever the human's pieces or a full top row. |
| Search.TerminalScore | connect_four-AI.py:150-156 | The terminal branch gives 1000000 exactly for a computer win, -1000000 exactly for a human win without a computer win, and 0 exactly when neither side has four in a row. |
| Search.LeafScore | connect_four-AI.py:149-158 | A leaf where the computer has four in a row scores 1000000. Every leaf score is a search score, meaning a heuristic score in [-6900, 6918] or the win score. |
| Search.HumanWinIsNotTerminal | connect_four-AI.py:147-158 | A board the human has won, and the computer has not, is not terminal. At depth 0 it is scored with the heuristic, and at greater depth the search goes on and returns a column. A leaf never scores -1000000. |
| Search.Minimax | connect_four-AI.py:145-189 | A leaf returns `(None, leaf score)`: 1000000 for a computer win at any depth, the heuristic at depth 0. Otherwise the search returns a column from `valid_locations`. A full board without a computer win at depth > 0 raises. Every score is a heuristic score or 1000000. |
| GameSearch.AlphaBeta | connect_four-AI.py:145-162 | Over any game, the search returns a move exactly at non-leaf nodes, and that move is one of the moves listed. Leaves return the leaf score. A non-leaf node with no moves is an error. |
| GameSearch.MaxLoop | connect_four-AI.py:160-174 | The maximizing loop never lowers the running value. It either returns the state it started from or a listed column with a search score. Starting from -inf on a non-empty list, it always returns a listed column, replacing the random default. |
| GameSearch.MinLoop | connect_four-AI.py:175-189 | The minimizing loop never raises the running value. Starting from +inf on a non-empty list, it always returns a listed column, replacing the random default. |
| Pruning.Value | connect_four-AI.py:145-189 | Plain minimax (every child searched, no window) returns a search score when it succeeds. |
| Pruning.PlainMinimax | connect_four-AI.py:145-158 | On the Connect Four board, plain minimax has the same leaves as `minimax`, and the same error on a full board. |
| Pruning.AlphaBetaSound | connect_four-AI.py:160-189 | With any window alpha < beta inside the sentinels, the pruned search succeeds whenever plain minimax does, and its result r relates to the true value v fail-soft: r <= alpha gives v <= r, r >= beta gives v >= r, and alpha < r < beta gives v = r. |
| Pruning.MaxLoopSound | connect_four-AI.py:163-173 | The maximizing loop, resumed with any running state, bounds the true maximum of the columns it has left, as fail-soft alpha-beta requires. |
| Pruning.MinLoopSound | connect_four-AI.py:178-188 | The minimizing loop bounds the true minimum of the columns it has left, as fail-soft alpha-beta requires. |
| Pruning.AlphaBetaAgrees | connect_four-AI.py:160-189 | Over any game, the pruned search with window (-inf, +inf) returns the plain minimax value. |
| Pruning.PruningAgrees | connect_four-AI.py:229 | The computer's search `minimax(board, depth, -inf, inf, ...)` returns the plain minimax value of the board. |
| RootMove.RootNeverCuts | connect_four-AI.py:171-173 | With beta = +inf, `alpha >= beta` never holds, so the root loop searches every valid column. |
| RootMove.RootLoopOptimal | connect_four-AI.py:163-170 | At the root, a column kept as `best_col` has a plain minimax value equal to the value the loop returns. |
| RootMove.RootLoopFirst | connect_four-AI.py:168-170 | At the root, the column kept is the first that strictly beats the running value: every earlier column has a lower plain value. |
| RootMove.RootChoiceOptimal | connect_four-AI.py:160-174 | Over any game, the full-window search returns a move. Its score is the plain minimax value, the move's own plain value equals that score, and every earlier move scores lower. |
| RootMove.ChosenColumnIsOptimal | connect_four-AI.py:229 | The column the computer plays is valid and is a best move: the board after it has the plain minimax value of the board itself, and every earlier valid column scores lower. |
| RootMove.MaxOfBounds | connect_four-AI.py:168-169 | Every child's plain value is at most the maximum the maximizing side takes. |
| RootMove.WinningChildTaken | connect_four-AI.py:160-174 | Over any game, when some move is worth the win score, the search returns the win score and plays a move worth it that comes no later in the move list. |
| RootMove.WinningMoveIsTaken | connect_four-AI.py:229 | When a column wins on the spot, the computer scores the board 1000000 and plays that column or an earlier one that also forces a win. Searching one ply deep, the column it plays wins on the spot. |
| TwoPlayer.DropPieceScan | connect_four-2player.py:24-29 | The scanning loop succeeds iff the column has an empty cell. It writes the piece into the lowest empty cell and leaves every other cell unchanged, or leaves the board unchanged on failure. It agrees with `Board.DropPiece`. |
| TwoPlayer.CheckWinner | connect_four-2player.py:32-57 | Definition: one of the four double loops finds four of `piece`. A reported win means `piece` is somewhere on the board. `TwoPlayer.CheckWinnerIffFour` characterises it. |
| TwoPlayer.CheckWinnerIffFour | connect_four-2player.py:32-57 | The yes/no win check holds iff some window of four on the grid holds `piece` in every cell. |
| TwoPlayer.CheckWinnerAgrees | connect_four-2player.py:32-57 | On every board and piece, the two-player check equals the first component of the AI game's `check_winner`. |
| TwoPlayer.DrawIffNoDrop | connect_four-2player.py:60-61 | Under gravity, `is_draw` holds iff `drop_piece` fails in every column. |
| TwoPlayer.NoWinWithoutPieces | connect_four-2player.py:32-57 | Neither win check reports a win for a piece that appears nowhere on the board. |
| TwoPlayer.EmptyBoardFacts | connect_four-2player.py:12-13 | Any board with every cell empty, including the one `create_board` makes (`Board.Create`), obeys gravity, is not a draw, and shows no win for either player under either check. |

## Left out

- `print_board` and the ANSI colour codes (`connect_four-AI.py:25-38`, `connect_four-2player.py:16-21`): text output only.
- The `play_game` loops (`connect_four-AI.py:192-239`, `connect_four-2player.py:64-102`): console input, parsing and turn prompts. The only thing the model takes from them is the top-level call `minimax(board, 6, -math.inf, math.inf, True)`, for any depth.
- numpy: the board is a 6 x 7 sequence of sequences. A string array that could hold other characters is not modelled, so cells have exactly three values.
- `random.choice`: no random source is modelled. The default it picks is always overwritten, so it is `None` until the first column is tried. Its failure on an empty list is the `Err(NoValidLocations)` outcome.
- `math.inf`: -inf and +inf are the integer sentinels -1000001 and 1000001, below and above every score the search can produce. Floating-point arithmetic is not modelled.
- Board.DropPiece: requires 0 <= col < 7. numpy would wrap a negative column and raise past 6, but both game loops range-check the column first (`connect_four-AI.py:206`) and the search plays only valid columns. `NextOpenRow`, `IsValidLocation` and `ColumnFull` carry the same precondition.
- Search.Play: a column outside 0..6 leaves the board unchanged. The search never plays one, because it only tries `valid_locations`.
- Pruning.PruningAgrees: states agreement only when plain minimax succeeds. When a subtree holds a full board without a computer win, plain minimax raises. The pruned search may skip that subtree and succeed, so no claim is made about that case.
- Pruning.AlphaBetaSound: proved for windows whose ends lie within the sentinels. These are the only windows the program creates.
- RootMove.WinningMoveIsTaken: does not promise that the winning column itself is played. An earlier column that forces a win within the search depth scores the same 1000000 and is kept first.
- The human-win (-1000000) and draw (0) returns of `minimax` are in `Search.TerminalScore`, but no path reaches them: `Search.LeafScore` scores every terminal leaf 1000000.
