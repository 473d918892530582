/**
 Alpha-beta pruning changes no answer. Plain minimax searches every child
 of every node, with no window, over the same game. The theorem is that the
 pruned search returns plain minimax's value whenever it is called with the
 full window, as the computer's move is.
 */
module Pruning {
  import opened Options
  import opened Board
  import opened GameSearch
  import opened Search

  /** Plain minimax: the same leaves as `AlphaBeta`, every child searched, no window. */
  function Value<S>(g: Game<S>, s: S, depth: nat, maximizing: bool): (r: Result<int, SearchError>)
    decreases depth, 1, 0
    ensures r.Ok? ==> IsSearchScore(r.value)
  {
    if depth == 0 || g.terminal(s) then Ok(g.leaf(s))
    else
      var valid := g.moves(s);
      if valid == [] then Err(NoValidLocations)
      else if maximizing then MaxOf(g, s, depth - 1, valid)
      else MinOf(g, s, depth - 1, valid)
  }

  /** The largest child value over `cols`, the computer to move. */
  function MaxOf<S>(g: Game<S>, s: S, childDepth: nat, cols: seq<int>): (r: Result<int, SearchError>)
    requires cols != []
    decreases childDepth, 2, |cols|
    ensures r.Ok? ==> IsSearchScore(r.value)
  {
    var child := Value(g, g.play(s, cols[0], true), childDepth, false);
    if child.Err? then child
    else if |cols| == 1 then child
    else
      var rest := MaxOf(g, s, childDepth, cols[1..]);
      if rest.Err? then rest else Ok(Max(child.value, rest.value))
  }

  /** The smallest child value over `cols`, the human to move. */
  function MinOf<S>(g: Game<S>, s: S, childDepth: nat, cols: seq<int>): (r: Result<int, SearchError>)
    requires cols != []
    decreases childDepth, 2, |cols|
    ensures r.Ok? ==> IsSearchScore(r.value)
  {
    var child := Value(g, g.play(s, cols[0], false), childDepth, true);
    if child.Err? then child
    else if |cols| == 1 then child
    else
      var rest := MinOf(g, s, childDepth, cols[1..]);
      if rest.Err? then rest else Ok(Min(child.value, rest.value))
  }

  /**
   What a search with window (alpha, beta) tells about the true value `v`:
   a result at or below alpha is an upper bound, one at or above beta is a
   lower bound, and one strictly inside the window is exact.
   */
  predicate FailSoft(alpha: int, beta: int, r: int, v: int) {
    && (r <= alpha ==> v <= r)
    && (r >= beta ==> v >= r)
    && (alpha < r < beta ==> v == r)
  }

  /**
   What a maximizing loop resumed with running `value` and window
   (`alpha`, `beta`) tells about `m`, the true maximum of the children it
   has yet to try: the result `r` never drops below `value`, bounds `m` from
   above when below beta and from below when at or above beta, and equals
   `m` when strictly inside the window.
   */
  predicate MaxLoopSpec(alpha: int, beta: int, value: int, r: int, m: int) {
    && r >= value
    && (r >= beta ==> m >= r)
    && (r < beta ==> m <= r)
    && (alpha < r < beta ==> m == r)
  }

  /** The mirror image of `MaxLoopSpec` for a minimizing loop. */
  predicate MinLoopSpec(alpha: int, beta: int, value: int, r: int, m: int) {
    && r <= value
    && (r <= alpha ==> m <= r)
    && (r > alpha ==> m >= r)
    && (alpha < r < beta ==> m == r)
  }

  /** Alpha-beta is sound at every node searched with a window inside the sentinels. */
  lemma {:induction false} AlphaBetaSound<S>(g: Game<S>, s: S, depth: nat, alpha: int, beta: int, maximizing: bool)
    requires NegInfinity <= alpha < beta <= PosInfinity
    requires Value(g, s, depth, maximizing).Ok?
    decreases depth, 1, 0
    ensures AlphaBeta(g, s, depth, alpha, beta, maximizing).Ok?
    ensures FailSoft(alpha, beta, AlphaBeta(g, s, depth, alpha, beta, maximizing).value.score, Value(g, s, depth, maximizing).value)
  {
    if depth == 0 || g.terminal(s) {
    } else if maximizing {
      MaxLoopSound(g, s, depth - 1, g.moves(s), alpha, beta, NegInfinity, None);
    } else {
      MinLoopSound(g, s, depth - 1, g.moves(s), alpha, beta, PosInfinity, None);
    }
  }

  /**
   One iteration of the maximizing loop, as arithmetic: the first child
   scored `s` (true value `v1`), after which the loop either cut off, ran
   out of columns, or went on to a remainder that met its own spec.
   */
  lemma MaxStep(alpha: int, beta: int, value: int, s: int, v1: int, r: int, m: int, more: bool, rRest: int, mRest: int)
    requires value <= alpha < beta
    requires FailSoft(alpha, beta, s, v1)
    requires var value' := if s > value then s else value;
      && (Max(alpha, value') >= beta ==> r == value' && m >= v1)
      && (Max(alpha, value') < beta && !more ==> r == value' && m == v1)
      && (Max(alpha, value') < beta && more ==>
            r == rRest && m == Max(v1, mRest) && MaxLoopSpec(Max(alpha, value'), beta, value', rRest, mRest))
    ensures MaxLoopSpec(alpha, beta, value, r, m)
  {
  }

  /** One iteration of the minimizing loop, as arithmetic; the mirror image of `MaxStep`. */
  lemma MinStep(alpha: int, beta: int, value: int, s: int, v1: int, r: int, m: int, more: bool, rRest: int, mRest: int)
    requires alpha < beta <= value
    requires FailSoft(alpha, beta, s, v1)
    requires var value' := if s < value then s else value;
      && (alpha >= Min(beta, value') ==> r == value' && m <= v1)
      && (alpha < Min(beta, value') && !more ==> r == value' && m == v1)
      && (alpha < Min(beta, value') && more ==>
            r == rRest && m == Min(v1, mRest) && MinLoopSpec(alpha, Min(beta, value'), value', rRest, mRest))
    ensures MinLoopSpec(alpha, beta, value, r, m)
  {
  }

  /** The maximizing loop meets `MaxLoopSpec` against the true maximum of its columns. */
  lemma {:induction false} MaxLoopSound<S>(g: Game<S>, s: S, d: nat, cols: seq<int>, alpha: int, beta: int, value: int, best: Option<int>)
    requires cols != []
    requires NegInfinity <= alpha < beta <= PosInfinity
    requires value <= alpha
    requires MaxOf(g, s, d, cols).Ok?
    decreases d, 2, |cols|
    ensures MaxLoop(g, s, d, cols, alpha, beta, value, best).Ok?
    ensures MaxLoopSpec(alpha, beta, value, MaxLoop(g, s, d, cols, alpha, beta, value, best).value.score, MaxOf(g, s, d, cols).value)
  {
    var child := g.play(s, cols[0], true);
    AlphaBetaSound(g, child, d, alpha, beta, false);
    var sc := AlphaBeta(g, child, d, alpha, beta, false).value.score;
    var v1 := Value(g, child, d, false).value;
    var value' := if sc > value then sc else value;
    var best' := if sc > value then Some(cols[0]) else best;
    var alpha' := Max(alpha, value');
    var more := |cols| > 1;
    var rRest, mRest := 0, 0;
    if alpha' < beta && more {
      MaxLoopSound(g, s, d, cols[1..], alpha', beta, value', best');
      rRest := MaxLoop(g, s, d, cols[1..], alpha', beta, value', best').value.score;
      mRest := MaxOf(g, s, d, cols[1..]).value;
    }
    MaxStep(alpha, beta, value, sc, v1, MaxLoop(g, s, d, cols, alpha, beta, value, best).value.score,
            MaxOf(g, s, d, cols).value, more, rRest, mRest);
  }

  /** The minimizing loop meets `MinLoopSpec` against the true minimum of its columns. */
  lemma {:induction false} MinLoopSound<S>(g: Game<S>, s: S, d: nat, cols: seq<int>, alpha: int, beta: int, value: int, best: Option<int>)
    requires cols != []
    requires NegInfinity <= alpha < beta <= PosInfinity
    requires value >= beta
    requires MinOf(g, s, d, cols).Ok?
    decreases d, 2, |cols|
    ensures MinLoop(g, s, d, cols, alpha, beta, value, best).Ok?
    ensures MinLoopSpec(alpha, beta, value, MinLoop(g, s, d, cols, alpha, beta, value, best).value.score, MinOf(g, s, d, cols).value)
  {
    var child := g.play(s, cols[0], false);
    AlphaBetaSound(g, child, d, alpha, beta, true);
    var sc := AlphaBeta(g, child, d, alpha, beta, true).value.score;
    var v1 := Value(g, child, d, true).value;
    var value' := if sc < value then sc else value;
    var best' := if sc < value then Some(cols[0]) else best;
    var beta' := Min(beta, value');
    var more := |cols| > 1;
    var rRest, mRest := 0, 0;
    if alpha < beta' && more {
      MinLoopSound(g, s, d, cols[1..], alpha, beta', value', best');
      rRest := MinLoop(g, s, d, cols[1..], alpha, beta', value', best').value.score;
      mRest := MinOf(g, s, d, cols[1..]).value;
    }
    MinStep(alpha, beta, value, sc, v1, MinLoop(g, s, d, cols, alpha, beta, value, best).value.score,
            MinOf(g, s, d, cols).value, more, rRest, mRest);
  }

  /** With the full window, the pruned search returns exactly the plain minimax value. */
  lemma AlphaBetaAgrees<S>(g: Game<S>, s: S, depth: nat, maximizing: bool)
    ensures Value(g, s, depth, maximizing).Ok? ==>
      && AlphaBeta(g, s, depth, NegInfinity, PosInfinity, maximizing).Ok?
      && AlphaBeta(g, s, depth, NegInfinity, PosInfinity, maximizing).value.score == Value(g, s, depth, maximizing).value
  {
    if Value(g, s, depth, maximizing).Ok? {
      AlphaBetaSound(g, s, depth, NegInfinity, PosInfinity, maximizing);
    }
  }

  /** Plain minimax over the Connect Four board, with the AI's leaf scores. */
  function PlainMinimax(b: Board, depth: nat, maximizing: bool): (r: Result<int, SearchError>)
    ensures r.Ok? ==> IsSearchScore(r.value)
    ensures depth == 0 || IsTerminal(b) ==> r == Ok(LeafScore(b))
    ensures depth > 0 && !IsTerminal(b) && IsDraw(b) ==> r == Err(NoValidLocations)
  {
    Value(ConnectFour(), b, depth, maximizing)
  }

  /** The computer's search, `minimax(board, depth, -inf, inf, True)`, returns the plain minimax value of the board. */
  lemma PruningAgrees(b: Board, depth: nat, maximizing: bool)
    ensures PlainMinimax(b, depth, maximizing).Ok? ==>
      && Minimax(b, depth, NegInfinity, PosInfinity, maximizing).Ok?
      && Minimax(b, depth, NegInfinity, PosInfinity, maximizing).value.score == PlainMinimax(b, depth, maximizing).value
  {
    AlphaBetaAgrees(ConnectFour(), b, depth, maximizing);
  }
}
