/**
 Windows: runs of four consecutive, collinear cells of the grid, and the two
 orders in which the game visits them (the win check and the heuristic
 scorer walk the vertical windows in different orders).
 */
module Windows {
  import opened Board

  const WindowLength: int := 4

  /**
   The four directions the source scans. With row 0 at the top, the
   "positively sloped" diagonal of the source runs (r + i, c + i) and the
   "negatively sloped" one runs (r - i, c + i).
   */
  datatype Direction = Horizontal | Vertical | PositiveSlope | NegativeSlope

  /** The window starting at (row, col) and extending in direction `dir`. */
  datatype Window = Window(row: int, col: int, dir: Direction)

  /** Coordinates of the `i`-th cell of window `w`. */
  function At(w: Window, i: int): (int, int) {
    match w.dir
    case Horizontal => (w.row, w.col + i)
    case Vertical => (w.row + i, w.col)
    case PositiveSlope => (w.row + i, w.col + i)
    case NegativeSlope => (w.row - i, w.col + i)
  }

  /** Both ends, and hence all four cells, of `w` lie on the grid. */
  predicate InBounds(w: Window)
    ensures InBounds(w) ==> forall i :: 0 <= i < WindowLength ==> InGrid(At(w, i).0, At(w, i).1)
  {
    InGrid(At(w, 0).0, At(w, 0).1) && InGrid(At(w, 3).0, At(w, 3).1)
  }

  /** Every window of `ws` lies on the grid. */
  predicate AllInBounds(ws: seq<Window>) {
    forall k :: 0 <= k < |ws| ==> InBounds(ws[k])
  }

  /** The `(row, col)` list of a window, as the win check reports it. */
  function Positions(w: Window): (ps: seq<(int, int)>)
    ensures |ps| == WindowLength
    ensures forall i :: 0 <= i < WindowLength ==> ps[i] == At(w, i)
  {
    seq(WindowLength, i => At(w, i))
  }

  /** The contents of the four cells of `w`, in order. */
  function WindowCells(b: Board, w: Window): (cells: seq<Cell>)
    requires InBounds(w)
    ensures |cells| == WindowLength
    ensures forall i :: 0 <= i < WindowLength ==> cells[i] == b[At(w, i).0][At(w, i).1]
  {
    seq(WindowLength, i requires 0 <= i < WindowLength => b[At(w, i).0][At(w, i).1])
  }

  /** All four cells of `w` hold `piece`. */
  predicate Filled(b: Board, w: Window, piece: Cell)
    requires InBounds(w)
  {
    forall i :: 0 <= i < WindowLength ==> b[At(w, i).0][At(w, i).1] == piece
  }

  /** The board holds four `piece`s in a row in some direction. */
  ghost predicate HasFour(b: Board, piece: Cell) {
    exists w :: InBounds(w) && Filled(b, w, piece)
  }

  /** Horizontal windows, row by row, left to right: 6 rows x 4 starts. */
  function HorizontalWindows(): (ws: seq<Window>)
    ensures |ws| == 24
    ensures AllInBounds(ws) && forall k :: 0 <= k < |ws| ==> ws[k].dir == Horizontal
  {
    seq(24, k => Window(k / 4, k % 4, Horizontal))
  }

  /** Vertical windows with the row outermost (the win check): 3 starts x 7 columns. */
  function VerticalWindowsByRow(): (ws: seq<Window>)
    ensures |ws| == 21
    ensures AllInBounds(ws) && forall k :: 0 <= k < |ws| ==> ws[k].dir == Vertical
  {
    seq(21, k => Window(k / 7, k % 7, Vertical))
  }

  /** Vertical windows with the column outermost (the scorer): 7 columns x 3 starts. */
  function VerticalWindowsByColumn(): (ws: seq<Window>)
    ensures |ws| == 21
    ensures AllInBounds(ws) && forall k :: 0 <= k < |ws| ==> ws[k].dir == Vertical
  {
    seq(21, k => Window(k % 3, k / 3, Vertical))
  }

  /** Windows along (r + i, c + i), starting in rows 0..2 and columns 0..3. */
  function PositiveSlopeWindows(): (ws: seq<Window>)
    ensures |ws| == 12
    ensures AllInBounds(ws) && forall k :: 0 <= k < |ws| ==> ws[k].dir == PositiveSlope
  {
    seq(12, k => Window(k / 4, k % 4, PositiveSlope))
  }

  /** Windows along (r - i, c + i), starting in rows 3..5 and columns 0..3. */
  function NegativeSlopeWindows(): (ws: seq<Window>)
    ensures |ws| == 12
    ensures AllInBounds(ws) && forall k :: 0 <= k < |ws| ==> ws[k].dir == NegativeSlope
  {
    seq(12, k => Window(3 + k / 4, k % 4, NegativeSlope))
  }

  /** The order in which `check_winner` tries windows. */
  function WinScanOrder(): (ws: seq<Window>)
    ensures |ws| == 69
    ensures AllInBounds(ws)
  {
    HorizontalWindows() + VerticalWindowsByRow() + PositiveSlopeWindows() + NegativeSlopeWindows()
  }

  /** The order in which `score_position` sums windows. */
  function ScoreScanOrder(): (ws: seq<Window>)
    ensures |ws| == 69
    ensures AllInBounds(ws)
  {
    HorizontalWindows() + VerticalWindowsByColumn() + PositiveSlopeWindows() + NegativeSlopeWindows()
  }

  /** Where the window family `part` sits inside the concatenation of four families. */
  lemma ConcatIndex(a: seq<Window>, b: seq<Window>, c: seq<Window>, d: seq<Window>, part: nat, k: nat)
    requires part < 4
    requires k < |[a, b, c, d][part]|
    ensures var offset := [0, |a|, |a| + |b|, |a| + |b| + |c|][part];
      offset + k < |a + b + c + d| && (a + b + c + d)[offset + k] == [a, b, c, d][part][k]
  {
  }

  /** Index of an in-bounds window in the win-check order. */
  function WinScanIndex(w: Window): (k: int)
    requires InBounds(w)
    ensures 0 <= k < |WinScanOrder()| && WinScanOrder()[k] == w
  {
    var h, v, p, n := HorizontalWindows(), VerticalWindowsByRow(), PositiveSlopeWindows(), NegativeSlopeWindows();
    match w.dir
    case Horizontal =>
      var i := 4 * w.row + w.col;
      assert i / 4 == w.row && i % 4 == w.col;
      ConcatIndex(h, v, p, n, 0, i);
      i
    case Vertical =>
      var i := 7 * w.row + w.col;
      assert i / 7 == w.row && i % 7 == w.col;
      ConcatIndex(h, v, p, n, 1, i);
      24 + i
    case PositiveSlope =>
      var i := 4 * w.row + w.col;
      assert i / 4 == w.row && i % 4 == w.col;
      ConcatIndex(h, v, p, n, 2, i);
      45 + i
    case NegativeSlope =>
      var i := 4 * (w.row - 3) + w.col;
      assert i / 4 == w.row - 3 && i % 4 == w.col;
      ConcatIndex(h, v, p, n, 3, i);
      57 + i
  }

  /** Index of an in-bounds window in the scoring order. */
  function ScoreScanIndex(w: Window): (k: int)
    requires InBounds(w)
    ensures 0 <= k < |ScoreScanOrder()| && ScoreScanOrder()[k] == w
  {
    var h, v, p, n := HorizontalWindows(), VerticalWindowsByColumn(), PositiveSlopeWindows(), NegativeSlopeWindows();
    match w.dir
    case Horizontal =>
      var i := 4 * w.row + w.col;
      assert i / 4 == w.row && i % 4 == w.col;
      ConcatIndex(h, v, p, n, 0, i);
      i
    case Vertical =>
      var i := 3 * w.col + w.row;
      assert i / 3 == w.col && i % 3 == w.row;
      ConcatIndex(h, v, p, n, 1, i);
      24 + i
    case PositiveSlope =>
      var i := 4 * w.row + w.col;
      assert i / 4 == w.row && i % 4 == w.col;
      ConcatIndex(h, v, p, n, 2, i);
      45 + i
    case NegativeSlope =>
      var i := 4 * (w.row - 3) + w.col;
      assert i / 4 == w.row - 3 && i % 4 == w.col;
      ConcatIndex(h, v, p, n, 3, i);
      57 + i
  }

  /** Each scan visits every in-bounds window exactly once. */
  lemma ScansAreExact(j: int, k: int)
    requires 0 <= j < k < 69
    ensures WinScanOrder()[j] != WinScanOrder()[k]
    ensures ScoreScanOrder()[j] != ScoreScanOrder()[k]
  {
  }
}
