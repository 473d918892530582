/**
 The computer's move, `minimax(board, 6, -math.inf, math.inf, True)`: at
 the root the window's upper end is +inf, so the cutoff never fires and
 every valid column is searched, and the column kept in place of the random
 default is the first one whose plain minimax value is the value returned.
 */
module RootMove {
  import opened Options
  import opened Board
  import opened GameSearch
  import opened Search
  import opened Pruning

  /** The maximizing loop with the `alpha >= beta` cutoff removed. */
  function MaxScan<S>(g: Game<S>, s: S, childDepth: nat, cols: seq<int>, alpha: int, value: int, best: Option<int>): (r: Outcome)
    decreases |cols|
  {
    if cols == [] then Ok(SearchResult(best, value))
    else
      var child := AlphaBeta(g, g.play(s, cols[0], true), childDepth, alpha, PosInfinity, false);
      if child.Err? then Err(child.error)
      else
        var better := child.value.score > value;
        var value' := if better then child.value.score else value;
        var best' := if better then Some(cols[0]) else best;
        MaxScan(g, s, childDepth, cols[1..], Max(alpha, value'), value', best')
  }

  /** With beta at +inf the cutoff never fires: the loop is the uncut scan over every column. */
  lemma {:induction false} RootNeverCuts<S>(g: Game<S>, s: S, d: nat, cols: seq<int>, alpha: int, value: int, best: Option<int>)
    requires alpha < PosInfinity
    requires value == NegInfinity || IsSearchScore(value)
    decreases |cols|
    ensures MaxLoop(g, s, d, cols, alpha, PosInfinity, value, best) == MaxScan(g, s, d, cols, alpha, value, best)
  {
    if cols != [] {
      var child := AlphaBeta(g, g.play(s, cols[0], true), d, alpha, PosInfinity, false);
      if child.Ok? {
        var value' := if child.value.score > value then child.value.score else value;
        var best' := if child.value.score > value then Some(cols[0]) else best;
        assert Max(alpha, value') < PosInfinity;
        RootNeverCuts(g, s, d, cols[1..], Max(alpha, value'), value', best');
      }
    }
  }

  /**
   The root loop keeps as `best` only a column whose plain minimax value is
   the running `value`: a child score that beats the running value lies
   inside the child's window (value, +inf), where the search is exact.
   */
  lemma {:induction false} RootLoopOptimal<S>(g: Game<S>, s: S, d: nat, cols: seq<int>, value: int, best: Option<int>)
    requires value == NegInfinity || IsSearchScore(value)
    requires cols != [] ==> MaxOf(g, s, d, cols).Ok?
    requires best.Some? ==> Value(g, g.play(s, best.value, true), d, false) == Ok(value)
    decreases |cols|
    ensures MaxLoop(g, s, d, cols, value, PosInfinity, value, best).Ok?
    ensures var r := MaxLoop(g, s, d, cols, value, PosInfinity, value, best).value;
      r.col.Some? ==> Value(g, g.play(s, r.col.value, true), d, false) == Ok(r.score)
  {
    if cols != [] {
      var child := g.play(s, cols[0], true);
      AlphaBetaSound(g, child, d, value, PosInfinity, false);
      var sc := AlphaBeta(g, child, d, value, PosInfinity, false).value.score;
      var value' := if sc > value then sc else value;
      var best' := if sc > value then Some(cols[0]) else best;
      assert Max(value, value') == value';
      if |cols| > 1 {
        RootLoopOptimal(g, s, d, cols[1..], value', best');
      }
    }
  }

  /** The plain minimax value of the position after the computer plays `col`, when it has one below `bound`. */
  predicate ValueBelow<S>(g: Game<S>, s: S, d: nat, col: int, bound: int) {
    Value(g, g.play(s, col, true), d, false).Ok? && Value(g, g.play(s, col, true), d, false).value < bound
  }

  /**
   The root loop keeps the first column that strictly beats the running
   value: either no column beats it and the loop returns the state it was
   given, or the column returned sits at some index `i` and every column
   before `i` has a plain value below the returned score.
   */
  lemma {:induction false} RootLoopFirst<S>(g: Game<S>, s: S, d: nat, cols: seq<int>, value: int, best: Option<int>)
    requires value == NegInfinity || IsSearchScore(value)
    requires cols != [] ==> MaxOf(g, s, d, cols).Ok?
    decreases |cols|
    ensures MaxLoop(g, s, d, cols, value, PosInfinity, value, best).Ok?
    ensures var r := MaxLoop(g, s, d, cols, value, PosInfinity, value, best).value;
      || (r == SearchResult(best, value) && forall k :: 0 <= k < |cols| ==> ValueBelow(g, s, d, cols[k], value + 1))
      || (exists i :: 0 <= i < |cols| && r.col == Some(cols[i]) && value < r.score
           && forall k :: 0 <= k < i ==> ValueBelow(g, s, d, cols[k], r.score))
  {
    if cols != [] {
      var child := g.play(s, cols[0], true);
      AlphaBetaSound(g, child, d, value, PosInfinity, false);
      var sc := AlphaBeta(g, child, d, value, PosInfinity, false).value.score;
      var value' := if sc > value then sc else value;
      var best' := if sc > value then Some(cols[0]) else best;
      assert Max(value, value') == value';
      assert ValueBelow(g, s, d, cols[0], value' + 1);
      if |cols| > 1 {
        RootLoopFirst(g, s, d, cols[1..], value', best');
        var r := MaxLoop(g, s, d, cols[1..], value', PosInfinity, value', best').value;
        assert MaxLoop(g, s, d, cols, value, PosInfinity, value, best).value == r;
        if r == SearchResult(best', value') && forall k :: 0 <= k < |cols| - 1 ==> ValueBelow(g, s, d, cols[1..][k], value' + 1) {
          if sc > value {
            assert r.col == Some(cols[0]) && value < r.score;
          } else {
            forall k | 0 <= k < |cols|
              ensures ValueBelow(g, s, d, cols[k], value + 1)
            {
              if k > 0 {
                assert cols[k] == cols[1..][k - 1];
              }
            }
          }
        } else {
          var i :| 0 <= i < |cols| - 1 && r.col == Some(cols[1..][i]) && value' < r.score
            && forall k :: 0 <= k < i ==> ValueBelow(g, s, d, cols[1..][k], r.score);
          forall k | 0 <= k < i + 1
            ensures ValueBelow(g, s, d, cols[k], r.score)
          {
            if k > 0 {
              assert cols[k] == cols[1..][k - 1];
            }
          }
          assert r.col == Some(cols[i + 1]);
        }
      } else if sc > value {
        assert MaxLoop(g, s, d, cols, value, PosInfinity, value, best).value == SearchResult(Some(cols[0]), sc);
      }
    }
  }

  /**
   With the full window the computer's search picks a column, returns the
   plain minimax value of the board, and that value is the plain minimax
   value of the position after its chosen move.
   */
  lemma RootChoiceOptimal<S>(g: Game<S>, s: S, depth: nat)
    requires depth > 0 && !g.terminal(s)
    requires Value(g, s, depth, true).Ok?
    ensures var r := AlphaBeta(g, s, depth, NegInfinity, PosInfinity, true);
      && r.Ok? && r.value.col.Some?
      && r.value.col.value in g.moves(s)
      && r.value.score == Value(g, s, depth, true).value
      && Value(g, g.play(s, r.value.col.value, true), depth - 1, false) == Ok(r.value.score)
      && exists i :: 0 <= i < |g.moves(s)| && g.moves(s)[i] == r.value.col.value
           && forall k :: 0 <= k < i ==> ValueBelow(g, s, depth - 1, g.moves(s)[k], r.value.score)
  {
    AlphaBetaAgrees(g, s, depth, true);
    RootLoopOptimal(g, s, depth - 1, g.moves(s), NegInfinity, None);
    RootLoopFirst(g, s, depth - 1, g.moves(s), NegInfinity, None);
  }

  /** The computer playing `col` leads to a position whose plain minimax value is below `bound`. */
  predicate ScoresBelow(b: Board, d: nat, col: int, bound: int) {
    PlainMinimax(Play(b, col, AIPiece), d, false).Ok? && PlainMinimax(Play(b, col, AIPiece), d, false).value < bound
  }

  /**
   The column the computer plays is a best move: the plain minimax value of
   the board after it equals the value of the board itself, and it is the
   first valid column with that value, every earlier column scoring lower.
   */
  lemma ChosenColumnIsOptimal(b: Board, depth: nat)
    requires depth > 0 && !IsTerminal(b)
    requires PlainMinimax(b, depth, true).Ok?
    ensures var r := Minimax(b, depth, NegInfinity, PosInfinity, true);
      && r.Ok? && r.value.col.Some?
      && 0 <= r.value.col.value < Columns && IsValidLocation(b, r.value.col.value)
      && r.value.score == PlainMinimax(b, depth, true).value
      && PlainMinimax(Play(b, r.value.col.value, AIPiece), depth - 1, false) == Ok(r.value.score)
      && exists i :: 0 <= i < |ValidLocations(b)| && ValidLocations(b)[i] == r.value.col.value
           && forall k :: 0 <= k < i ==> ScoresBelow(b, depth - 1, ValidLocations(b)[k], r.value.score)
  {
    var g := ConnectFour();
    RootChoiceOptimal(g, b, depth);
    var r := AlphaBeta(g, b, depth, NegInfinity, PosInfinity, true).value;
    var i :| 0 <= i < |g.moves(b)| && g.moves(b)[i] == r.col.value
      && forall k :: 0 <= k < i ==> ValueBelow(g, b, depth - 1, g.moves(b)[k], r.score);
    forall k | 0 <= k < i
      ensures ScoresBelow(b, depth - 1, ValidLocations(b)[k], r.score)
    {
      assert ValueBelow(g, b, depth - 1, g.moves(b)[k], r.score);
    }
  }

  /** Every child's plain value is at most the maximum over the columns. */
  lemma {:induction false} MaxOfBounds<S>(g: Game<S>, s: S, d: nat, cols: seq<int>, j: int)
    requires cols != [] && MaxOf(g, s, d, cols).Ok?
    requires 0 <= j < |cols|
    decreases |cols|
    ensures Value(g, g.play(s, cols[j], true), d, false).Ok?
    ensures Value(g, g.play(s, cols[j], true), d, false).value <= MaxOf(g, s, d, cols).value
  {
    if j > 0 {
      MaxOfBounds(g, s, d, cols[1..], j - 1);
      assert cols[1..][j - 1] == cols[j];
    }
  }

  /**
   When some move leads to a position worth `WinScore`, the full-window
   search returns `WinScore` and plays a move worth `WinScore` that comes no
   later in the (ascending) move list.
   */
  lemma WinningChildTaken<S>(g: Game<S>, s: S, depth: nat, j: int)
    requires depth > 0 && !g.terminal(s)
    requires 0 <= j < |g.moves(s)|
    requires forall a, c :: 0 <= a < c < |g.moves(s)| ==> g.moves(s)[a] < g.moves(s)[c]
    requires Value(g, g.play(s, g.moves(s)[j], true), depth - 1, false) == Ok(WinScore)
    requires Value(g, s, depth, true).Ok?
    ensures var r := AlphaBeta(g, s, depth, NegInfinity, PosInfinity, true);
      && r.Ok? && r.value.score == WinScore && r.value.col.Some?
      && r.value.col.value <= g.moves(s)[j]
      && Value(g, g.play(s, r.value.col.value, true), depth - 1, false) == Ok(WinScore)
  {
    var vl := g.moves(s);
    RootChoiceOptimal(g, s, depth);
    MaxOfBounds(g, s, depth - 1, vl, j);
    var r := AlphaBeta(g, s, depth, NegInfinity, PosInfinity, true).value;
    assert r.score == WinScore;
    var i :| 0 <= i < |vl| && vl[i] == r.col.value
      && forall k :: 0 <= k < i ==> ValueBelow(g, s, depth - 1, vl[k], r.score);
    assert !ValueBelow(g, s, depth - 1, vl[j], r.score);
    assert i <= j;
    if i < j {
      assert vl[i] < vl[j];
    }
  }

  /** In the search's game, the computer's move is `Play` with the computer's piece. */
  lemma ComputerMoveIsPlay(b: Board, col: int)
    ensures ConnectFour().play(b, col, true) == Play(b, col, AIPiece)
  {
  }

  /** A move that wins on the spot is worth `WinScore` at any depth. */
  lemma TerminalChildWins(b: Board, col: int, d: nat)
    requires IsTerminal(Play(b, col, AIPiece))
    ensures Value(ConnectFour(), ConnectFour().play(b, col, true), d, false) == Ok(WinScore)
  {
    ComputerMoveIsPlay(b, col);
    assert PlainMinimax(Play(b, col, AIPiece), d, false) == Ok(WinScore);
  }

  /** Searching one ply deep, a move worth `WinScore` wins on the spot. */
  lemma OnePlyWinIsImmediate(b: Board, col: int)
    requires PlainMinimax(Play(b, col, AIPiece), 0, false) == Ok(WinScore)
    ensures IsTerminal(Play(b, col, AIPiece))
  {
  }

  /**
   When a column wins on the spot, the computer's search scores the board as
   a win and plays that column or an earlier one that also forces the win;
   searching one ply deep, the column it plays wins on the spot.
   */
  lemma WinningMoveIsTaken(b: Board, depth: nat, col: int)
    requires depth > 0 && !IsTerminal(b)
    requires 0 <= col < Columns && IsValidLocation(b, col)
    requires IsTerminal(Play(b, col, AIPiece))
    requires PlainMinimax(b, depth, true).Ok?
    ensures var r := Minimax(b, depth, NegInfinity, PosInfinity, true);
      && r.Ok? && r.value.score == WinScore && r.value.col.Some?
      && r.value.col.value <= col
      && PlainMinimax(Play(b, r.value.col.value, AIPiece), depth - 1, false) == Ok(WinScore)
      && (depth == 1 ==> IsTerminal(Play(b, r.value.col.value, AIPiece)))
  {
    var g := ConnectFour();
    var vl := ValidLocations(b);
    var j :| 0 <= j < |vl| && vl[j] == col;
    TerminalChildWins(b, col, depth - 1);
    WinningChildTaken(g, b, depth, j);
    var c' := AlphaBeta(g, b, depth, NegInfinity, PosInfinity, true).value.col.value;
    ComputerMoveIsPlay(b, c');
    if depth == 1 {
      OnePlyWinIsImmediate(b, c');
    }
  }
}
