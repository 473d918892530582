/**
 The heuristic of the AI game: `evaluate_window` scores one window and
 `score_position` adds a centre-column bonus to the scores of all 69 windows.
 */
module Evaluate {
  import opened Board
  import opened Windows

  /** Python's `list.count`. */
  function Count(s: seq<Cell>, x: Cell): (n: nat)
    ensures n <= |s|
  {
    if s == [] then 0 else Count(s[..|s| - 1], x) + (if s[|s| - 1] == x then 1 else 0)
  }

  /** Every cell is counted under exactly one of the three values. */
  lemma {:induction false} CountsPartition(s: seq<Cell>)
    ensures Count(s, Empty) + Count(s, X) + Count(s, O) == |s|
  {
    if s != [] {
      CountsPartition(s[..|s| - 1]);
    }
  }

  /** `list.count` is the number of positions of `s` holding `x`. */
  lemma {:induction false} CountIsOccurrences(s: seq<Cell>, x: Cell)
    ensures Count(s, x) == |set i | 0 <= i < |s| && s[i] == x|
  {
    if s != [] {
      var n := |s| - 1;
      var s' := s[..n];
      CountIsOccurrences(s', x);
      var before := set i | 0 <= i < |s'| && s'[i] == x;
      var all := set i | 0 <= i < |s| && s[i] == x;
      assert n !in before;
      if s[n] == x {
        assert all == before + {n};
      } else {
        assert all == before;
      }
    }
  }

  /** The opponent of `piece` as `evaluate_window` computes it: "O" for "X", and "X" for anything else. */
  function Opponent(piece: Cell): (opp: Cell)
    ensures opp != piece && opp != Empty
  {
    if piece == HumanPiece then AIPiece else HumanPiece
  }

  /** The possible scores of a single window. */
  predicate IsWindowScore(v: int) {
    v == 100 || v == 10 || v == 5 || v == 0 || v == -100
  }

  /**
   `evaluate_window(window, piece)`. On a four-cell window the result is one
   of 100, 10, 5, 0 and -100, and each non-zero value identifies the
   composition of the window.
   */
  function EvaluateWindow(window: seq<Cell>, piece: Cell): (v: int)
    ensures |window| == WindowLength ==>
      var mine, theirs, empty := Count(window, piece), Count(window, Opponent(piece)), Count(window, Empty);
      && IsWindowScore(v)
      && (v == 100 <==> mine == 4)
      && (v == 10 <==> mine == 3 && empty == 1)
      && (v == 5 <==> mine == 2 && empty == 2)
      && (v == -100 <==> theirs == 3 && empty == 1)
  {
    var mine, theirs, empty := Count(window, piece), Count(window, Opponent(piece)), Count(window, Empty);
    CountsPartition(window);
    var own :=
      if mine == 4 then 100
      else if mine == 3 && empty == 1 then 10
      else if mine == 2 && empty == 2 then 5
      else 0;
    own - (if theirs == 3 && empty == 1 then 100 else 0)
  }

  /** The centre column (index `COLUMNS // 2`, that is 3), top to bottom. */
  function CenterColumn(b: Board): (cells: seq<Cell>)
    ensures |cells| == Rows
    ensures forall r :: 0 <= r < Rows ==> cells[r] == b[r][Columns / 2]
  {
    seq(Rows, r requires 0 <= r < Rows => b[r][Columns / 2])
  }

  /** The centre bonus counts the rows whose centre cell holds `piece`. */
  lemma CenterCount(b: Board, piece: Cell)
    ensures Count(CenterColumn(b), piece) == |set r | 0 <= r < Rows && b[r][Columns / 2] == piece|
  {
    var cells := CenterColumn(b);
    CountIsOccurrences(cells, piece);
    assert (set i | 0 <= i < |cells| && cells[i] == piece) == (set r | 0 <= r < Rows && b[r][Columns / 2] == piece);
  }

  /** Sum of `evaluate_window` over the windows `ws`. */
  function SumWindows(b: Board, ws: seq<Window>, piece: Cell): (total: int)
    requires AllInBounds(ws)
    ensures -100 * |ws| <= total <= 100 * |ws|
  {
    if ws == [] then 0
    else SumWindows(b, ws[..|ws| - 1], piece) + EvaluateWindow(WindowCells(b, ws[|ws| - 1]), piece)
  }

  /** Largest possible `score_position`: six centre pieces and 69 windows of 100. */
  const MaxScore: int := 3 * Rows + 100 * 69
  /** Smallest possible `score_position`: 69 windows of -100. */
  const MinScore: int := -100 * 69

  /**
   `score_position(board, piece)`: three points per `piece` in the centre
   column plus the window scores of the 24 horizontal, 21 vertical and
   2 x 12 diagonal windows.
   */
  function ScorePosition(b: Board, piece: Cell): (s: int)
    ensures MinScore <= s <= MaxScore
  {
    3 * Count(CenterColumn(b), piece) + SumWindows(b, ScoreScanOrder(), piece)
  }
}
