/**
 `score_position` as the source writes it: a running score, the centre
 bonus, then four double loops that cut each window out of the board and add
 its `evaluate_window` score. Each double loop visits its family of windows
 in exactly the order `Windows` lists it, so its running score is always the
 sum over a prefix of that family.
 */
module ScoreLoops {
  import opened Board
  import opened Windows
  import opened Evaluate

  /** The sum of the window scores over the first `n` windows of `ws`. */
  function Prefix(b: Board, piece: Cell, ws: seq<Window>, n: nat): int
    requires AllInBounds(ws) && n <= |ws|
  {
    SumWindows(b, ws[..n], piece)
  }

  /** A concatenation of windows on the grid lies on the grid. */
  lemma ConcatInBounds(xs: seq<Window>, ys: seq<Window>)
    requires AllInBounds(xs) && AllInBounds(ys)
    ensures AllInBounds(xs + ys)
  {
    forall k | 0 <= k < |xs + ys|
      ensures InBounds((xs + ys)[k])
    {
      if k >= |xs| {
        assert (xs + ys)[k] == ys[k - |xs|];
      }
    }
  }

  /** The sum over a non-empty list is the sum over all but its last window plus that window's score. */
  lemma SumUnfold(b: Board, ws: seq<Window>, piece: Cell)
    requires AllInBounds(ws) && ws != []
    ensures SumWindows(b, ws, piece) == SumWindows(b, ws[..|ws| - 1], piece) + EvaluateWindow(WindowCells(b, ws[|ws| - 1]), piece)
  {
  }

  /** Window sums split over a concatenation. */
  lemma {:induction false} SumWindowsAppend(b: Board, xs: seq<Window>, ys: seq<Window>, piece: Cell)
    requires AllInBounds(xs) && AllInBounds(ys)
    decreases |ys|
    ensures SumWindows(b, xs + ys, piece) == SumWindows(b, xs, piece) + SumWindows(b, ys, piece)
  {
    ConcatInBounds(xs, ys);
    if ys == [] {
      assert xs + ys == xs;
    } else {
      var ys' := ys[..|ys| - 1];
      var last := EvaluateWindow(WindowCells(b, ys[|ys| - 1]), piece);
      assert AllInBounds(ys');
      ConcatInBounds(xs, ys');
      SumWindowsAppend(b, xs, ys', piece);
      assert SumWindows(b, xs + ys, piece) == SumWindows(b, xs + ys', piece) + last by {
        SumUnfold(b, xs + ys, piece);
        assert (xs + ys)[..|xs + ys| - 1] == xs + ys';
        assert (xs + ys)[|xs + ys| - 1] == ys[|ys| - 1];
      }
      assert SumWindows(b, ys, piece) == SumWindows(b, ys', piece) + last by {
        SumUnfold(b, ys, piece);
      }
    }
  }

  /** Adding the `k`-th window's score to the sum over the first `k` windows of `ws` gives the sum over the first `k + 1`. */
  lemma SumStep(b: Board, piece: Cell, ws: seq<Window>, k: nat)
    requires AllInBounds(ws) && k < |ws|
    ensures Prefix(b, piece, ws, k + 1) == Prefix(b, piece, ws, k) + EvaluateWindow(WindowCells(b, ws[k]), piece)
  {
    assert ws[..k + 1][..k] == ws[..k];
  }

  /** The four cells of a window on the grid, written out. */
  lemma CellsOf(b: Board, w: Window)
    requires InBounds(w)
    ensures WindowCells(b, w) == [b[At(w, 0).0][At(w, 0).1], b[At(w, 1).0][At(w, 1).1],
                                  b[At(w, 2).0][At(w, 2).1], b[At(w, 3).0][At(w, 3).1]]
  {
    var cells := WindowCells(b, w);
    assert cells[0] == b[At(w, 0).0][At(w, 0).1] && cells[1] == b[At(w, 1).0][At(w, 1).1];
    assert cells[2] == b[At(w, 2).0][At(w, 2).1] && cells[3] == b[At(w, 3).0][At(w, 3).1];
  }

  /** The horizontal window at row `r`, column `c` is window 4 * r + c of its family. */
  lemma HorizontalStep(b: Board, piece: Cell, r: int, c: int, window: seq<Cell>)
    requires 0 <= r < Rows && 0 <= c < Columns - 3
    requires window == b[r][c..c + WindowLength]
    ensures Prefix(b, piece, HorizontalWindows(), 4 * r + c + 1)
            == Prefix(b, piece, HorizontalWindows(), 4 * r + c) + EvaluateWindow(window, piece)
  {
    var k, w := 4 * r + c, Window(r, c, Horizontal);
    assert HorizontalWindows()[k] == w by {
      assert k / 4 == r && k % 4 == c;
    }
    assert window == WindowCells(b, w) by {
      CellsOf(b, w);
    }
    SumStep(b, piece, HorizontalWindows(), k);
  }

  /** The vertical window at row `r`, column `c` is window 3 * c + r of its family, which is listed column by column. */
  lemma VerticalStep(b: Board, piece: Cell, r: int, c: int, window: seq<Cell>)
    requires 0 <= r < Rows - 3 && 0 <= c < Columns
    requires window == [b[0][c], b[1][c], b[2][c], b[3][c], b[4][c], b[5][c]][r..r + WindowLength]
    ensures Prefix(b, piece, VerticalWindowsByColumn(), 3 * c + r + 1)
            == Prefix(b, piece, VerticalWindowsByColumn(), 3 * c + r) + EvaluateWindow(window, piece)
  {
    var k, w := 3 * c + r, Window(r, c, Vertical);
    assert VerticalWindowsByColumn()[k] == w by {
      assert k / 3 == c && k % 3 == r;
    }
    assert window == WindowCells(b, w) by {
      CellsOf(b, w);
    }
    SumStep(b, piece, VerticalWindowsByColumn(), k);
  }

  /** The (r + i, c + i) window at row `r`, column `c` is window 4 * r + c of its family. */
  lemma PositiveSlopeStep(b: Board, piece: Cell, r: int, c: int, window: seq<Cell>)
    requires 0 <= r < Rows - 3 && 0 <= c < Columns - 3
    requires window == [b[r][c], b[r + 1][c + 1], b[r + 2][c + 2], b[r + 3][c + 3]]
    ensures Prefix(b, piece, PositiveSlopeWindows(), 4 * r + c + 1)
            == Prefix(b, piece, PositiveSlopeWindows(), 4 * r + c) + EvaluateWindow(window, piece)
  {
    var k, w := 4 * r + c, Window(r, c, PositiveSlope);
    assert PositiveSlopeWindows()[k] == w by {
      assert k / 4 == r && k % 4 == c;
    }
    assert window == WindowCells(b, w) by {
      CellsOf(b, w);
    }
    SumStep(b, piece, PositiveSlopeWindows(), k);
  }

  /** The (r - i, c + i) window at row `r`, column `c` is window 4 * (r - 3) + c of its family. */
  lemma NegativeSlopeStep(b: Board, piece: Cell, r: int, c: int, window: seq<Cell>)
    requires 3 <= r < Rows && 0 <= c < Columns - 3
    requires window == [b[r][c], b[r - 1][c + 1], b[r - 2][c + 2], b[r - 3][c + 3]]
    ensures Prefix(b, piece, NegativeSlopeWindows(), 4 * (r - 3) + c + 1)
            == Prefix(b, piece, NegativeSlopeWindows(), 4 * (r - 3) + c) + EvaluateWindow(window, piece)
  {
    var k, w := 4 * (r - 3) + c, Window(r, c, NegativeSlope);
    assert NegativeSlopeWindows()[k] == w by {
      assert k / 4 == r - 3 && k % 4 == c;
    }
    assert window == WindowCells(b, w) by {
      CellsOf(b, w);
    }
    SumStep(b, piece, NegativeSlopeWindows(), k);
  }

  /** The horizontal double loop of `score_position`: `score` grows by the sum over every horizontal window. */
  method AddHorizontal(b: Board, piece: Cell, acc: int) returns (score: int)
    ensures score - acc == SumWindows(b, HorizontalWindows(), piece)
  {
    ghost var ws := HorizontalWindows();
    score := acc;
    var r := 0;
    while r < Rows
      invariant 0 <= r <= Rows
      invariant score - acc == Prefix(b, piece, ws, 4 * r)
    {
      var rowArray := b[r];
      var c := 0;
      while c < Columns - 3
        invariant 0 <= c <= Columns - 3
        invariant score - acc == Prefix(b, piece, ws, 4 * r + c)
      {
        var window := rowArray[c..c + WindowLength];
        HorizontalStep(b, piece, r, c, window);
        score := score + EvaluateWindow(window, piece);
        c := c + 1;
      }
      r := r + 1;
    }
    assert ws[..|ws|] == ws;
  }

  /** The vertical double loop, column by column, over `col_array` slices. */
  method AddVertical(b: Board, piece: Cell, acc: int) returns (score: int)
    ensures score - acc == SumWindows(b, VerticalWindowsByColumn(), piece)
  {
    ghost var ws := VerticalWindowsByColumn();
    score := acc;
    var c := 0;
    while c < Columns
      invariant 0 <= c <= Columns
      invariant score - acc == Prefix(b, piece, ws, 3 * c)
    {
      var colArray := [b[0][c], b[1][c], b[2][c], b[3][c], b[4][c], b[5][c]];
      var r := 0;
      while r < Rows - 3
        invariant 0 <= r <= Rows - 3
        invariant score - acc == Prefix(b, piece, ws, 3 * c + r)
      {
        var window := colArray[r..r + WindowLength];
        VerticalStep(b, piece, r, c, window);
        score := score + EvaluateWindow(window, piece);
        r := r + 1;
      }
      c := c + 1;
    }
    assert ws[..|ws|] == ws;
  }

  /** The positively sloped double loop. */
  method AddPositiveSlope(b: Board, piece: Cell, acc: int) returns (score: int)
    ensures score - acc == SumWindows(b, PositiveSlopeWindows(), piece)
  {
    ghost var ws := PositiveSlopeWindows();
    score := acc;
    var r := 0;
    while r < Rows - 3
      invariant 0 <= r <= Rows - 3
      invariant score - acc == Prefix(b, piece, ws, 4 * r)
    {
      var c := 0;
      while c < Columns - 3
        invariant 0 <= c <= Columns - 3
        invariant score - acc == Prefix(b, piece, ws, 4 * r + c)
      {
        var window := [b[r][c], b[r + 1][c + 1], b[r + 2][c + 2], b[r + 3][c + 3]];
        PositiveSlopeStep(b, piece, r, c, window);
        score := score + EvaluateWindow(window, piece);
        c := c + 1;
      }
      r := r + 1;
    }
    assert ws[..|ws|] == ws;
  }

  /** The negatively sloped double loop, rows 3 to 5. */
  method AddNegativeSlope(b: Board, piece: Cell, acc: int) returns (score: int)
    ensures score - acc == SumWindows(b, NegativeSlopeWindows(), piece)
  {
    ghost var ws := NegativeSlopeWindows();
    score := acc;
    var r := 3;
    while r < Rows
      invariant 3 <= r <= Rows
      invariant score - acc == Prefix(b, piece, ws, 4 * (r - 3))
    {
      var c := 0;
      while c < Columns - 3
        invariant 0 <= c <= Columns - 3
        invariant score - acc == Prefix(b, piece, ws, 4 * (r - 3) + c)
      {
        var window := [b[r][c], b[r - 1][c + 1], b[r - 2][c + 2], b[r - 3][c + 3]];
        NegativeSlopeStep(b, piece, r, c, window);
        score := score + EvaluateWindow(window, piece);
        c := c + 1;
      }
      r := r + 1;
    }
    assert ws[..|ws|] == ws;
  }

  /** `score_position(board, piece)` as the source computes it, equal to the functional `ScorePosition`. */
  method ScorePositionLoops(b: Board, piece: Cell) returns (score: int)
    ensures score == ScorePosition(b, piece)
  {
    var h, v, p, n := HorizontalWindows(), VerticalWindowsByColumn(), PositiveSlopeWindows(), NegativeSlopeWindows();
    score := 0;
    var centerArray := CenterColumn(b);
    var centerCount := Count(centerArray, piece);
    score := score + centerCount * 3;
    score := AddHorizontal(b, piece, score);
    score := AddVertical(b, piece, score);
    score := AddPositiveSlope(b, piece, score);
    score := AddNegativeSlope(b, piece, score);
    SumWindowsAppend(b, h, v, piece);
    SumWindowsAppend(b, h + v, p, piece);
    SumWindowsAppend(b, h + v + p, n, piece);
  }
}
