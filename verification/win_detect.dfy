/**
 `check_winner` of the AI game: finds the first window, in scan order, that
 holds four of a piece, and reports its cell coordinates for highlighting.
 */
module WinDetect {
  import opened Options
  import opened Board
  import opened Windows

  /** The pair `(won, positions)` returned by `check_winner`. */
  datatype WinCheck = WinCheck(won: bool, positions: Option<seq<(int, int)>>)

  /** `k` is the first index of `ws` at or after `from` whose window is filled with `piece`. */
  ghost predicate FirstFilled(b: Board, piece: Cell, ws: seq<Window>, from: int, k: int)
    requires AllInBounds(ws)
  {
    && 0 <= from <= k < |ws|
    && Filled(b, ws[k], piece)
    && forall j :: from <= j < k ==> !Filled(b, ws[j], piece)
  }

  /** The nested `for` loops of `check_winner`: try the windows of `ws` in order from index `from`. */
  function FindFilled(b: Board, piece: Cell, ws: seq<Window>, from: nat): (r: Option<nat>)
    requires AllInBounds(ws)
    requires from <= |ws|
    decreases |ws| - from
    ensures r.Some? ==> FirstFilled(b, piece, ws, from, r.value)
    ensures r.None? ==> forall j :: from <= j < |ws| ==> !Filled(b, ws[j], piece)
  {
    if from == |ws| then None
    else if Filled(b, ws[from], piece) then Some(from)
    else FindFilled(b, piece, ws, from + 1)
  }

  /**
   `check_winner(board, piece)`: `(True, positions)` for the first filled
   window in the order horizontal, vertical, positive slope, negative slope,
   and `(False, None)` when there is none.
   */
  function CheckWinner(b: Board, piece: Cell): (r: WinCheck)
    ensures r.won <==> HasFour(b, piece)
    ensures !r.won ==> r.positions == None
    ensures r.won ==> exists k :: FirstFilled(b, piece, WinScanOrder(), 0, k)
                                && r.positions == Some(Positions(WinScanOrder()[k]))
  {
    match FindFilled(b, piece, WinScanOrder(), 0)
    case Some(k) => WinCheck(true, Some(Positions(WinScanOrder()[k])))
    case None =>
      assert !HasFour(b, piece) by {
        if w :| InBounds(w) && Filled(b, w, piece) {
          assert WinScanOrder()[WinScanIndex(w)] == w;
        }
      }
      WinCheck(false, None)
  }

  /** A reported win is a genuine line: four consecutive on-grid cells along one direction, all holding `piece`. */
  lemma WinLineIsGenuine(b: Board, piece: Cell)
    requires CheckWinner(b, piece).won
    ensures var ps := CheckWinner(b, piece).positions.value;
      && |ps| == 4
      && (forall i :: 0 <= i < 4 ==> InGrid(ps[i].0, ps[i].1) && b[ps[i].0][ps[i].1] == piece)
      && exists d: Direction :: forall i :: 0 <= i < 4 ==> ps[i] == At(Window(ps[0].0, ps[0].1, d), i)
  {
    var k :| FirstFilled(b, piece, WinScanOrder(), 0, k)
          && CheckWinner(b, piece).positions == Some(Positions(WinScanOrder()[k]));
    var w := WinScanOrder()[k];
    assert Window(w.row, w.col, w.dir) == w;
  }
}
