/**
 The search of the AI game, `minimax` with alpha-beta pruning, written over
 an abstract game: a terminal test, a leaf score, the list of moves and the
 move itself. `Search.ConnectFour` supplies the Connect Four instances of
 these four, so every proof about the search itself works here without
 unfolding the board logic.
 */
module GameSearch {
  import opened Options
  import opened Evaluate

  /** Score of a position the computer has won. */
  const WinScore: int := 1000000
  /** Stand-ins for `-math.inf` and `math.inf`: below and above every score a search can produce. */
  const NegInfinity: int := -1000001
  const PosInfinity: int := 1000001

  /** `(best_col, value)`; the column is None at a leaf. */
  datatype SearchResult = SearchResult(col: Option<int>, score: int)

  /** `random.choice` raises on an empty list of valid columns. */
  datatype SearchError = NoValidLocations

  type Outcome = Result<SearchResult, SearchError>

  /** A score a search can return: a heuristic score, or the win score. */
  predicate IsSearchScore(v: int) {
    MinScore <= v <= MaxScore || v == WinScore
  }

  type SearchScore = v: int | IsSearchScore(v) witness 0

  function Max(a: int, b: int): int { if a >= b then a else b }
  function Min(a: int, b: int): int { if a <= b then a else b }

  /**
   What `minimax` asks of the game: whether a position ends the search, the
   score it returns there (or at depth 0), the columns it tries, in order,
   and the position after a move by the computer (`true`) or the human.
   */
  datatype Game<!S> = Game(
    terminal: S -> bool,
    leaf: S -> SearchScore,
    moves: S -> seq<int>,
    play: (S, int, bool) -> S)

  /** `minimax(board, depth, alpha, beta, maximizingPlayer)` over the game `g`. */
  function AlphaBeta<S>(g: Game<S>, s: S, depth: nat, alpha: int, beta: int, maximizing: bool): (r: Outcome)
    decreases depth, 1, 0
    ensures r.Ok? ==> IsSearchScore(r.value.score)
    ensures r.Ok? ==> (r.value.col.Some? <==> depth > 0 && !g.terminal(s))
    ensures r.Ok? && r.value.col.Some? ==> r.value.col.value in g.moves(s)
    ensures depth == 0 || g.terminal(s) ==> r == Ok(SearchResult(None, g.leaf(s)))
    ensures depth > 0 && !g.terminal(s) && g.moves(s) == [] ==> r == Err(NoValidLocations)
  {
    if depth == 0 || g.terminal(s) then
      Ok(SearchResult(None, g.leaf(s)))
    else
      var valid := g.moves(s);
      if valid == [] then Err(NoValidLocations)
      else if maximizing then MaxLoop(g, s, depth - 1, valid, alpha, beta, NegInfinity, None)
      else MinLoop(g, s, depth - 1, valid, alpha, beta, PosInfinity, None)
  }

  /**
   The `for col in valid_locations` loop of the maximizing branch, from the
   state (`alpha`, `value`, `best_col`) reached so far; `best` is None while
   `best_col` still holds the random default. Children are searched to
   `childDepth`, one less than the node's depth.
   */
  function MaxLoop<S>(g: Game<S>, s: S, childDepth: nat, cols: seq<int>, alpha: int, beta: int, value: int, best: Option<int>): (r: Outcome)
    decreases childDepth, 2, |cols|
    ensures r.Ok? ==> r.value.score >= value
    ensures r.Ok? ==> r.value == SearchResult(best, value)
                      || (r.value.col.Some? && r.value.col.value in cols && IsSearchScore(r.value.score))
    ensures r.Ok? && cols != [] && value < MinScore ==>
              r.value.col.Some? && r.value.col.value in cols && IsSearchScore(r.value.score)
  {
    if cols == [] then Ok(SearchResult(best, value))
    else
      var col := cols[0];
      var child := AlphaBeta(g, g.play(s, col, true), childDepth, alpha, beta, false);
      if child.Err? then Err(child.error)
      else
        var better := child.value.score > value;
        var value' := if better then child.value.score else value;
        var best' := if better then Some(col) else best;
        var alpha' := Max(alpha, value');
        if alpha' >= beta then Ok(SearchResult(best', value'))
        else MaxLoop(g, s, childDepth, cols[1..], alpha', beta, value', best')
  }

  /** The `for col in valid_locations` loop of the minimizing branch. */
  function MinLoop<S>(g: Game<S>, s: S, childDepth: nat, cols: seq<int>, alpha: int, beta: int, value: int, best: Option<int>): (r: Outcome)
    decreases childDepth, 2, |cols|
    ensures r.Ok? ==> r.value.score <= value
    ensures r.Ok? ==> r.value == SearchResult(best, value)
                      || (r.value.col.Some? && r.value.col.value in cols && IsSearchScore(r.value.score))
    ensures r.Ok? && cols != [] && value > WinScore ==>
              r.value.col.Some? && r.value.col.value in cols && IsSearchScore(r.value.score)
  {
    if cols == [] then Ok(SearchResult(best, value))
    else
      var col := cols[0];
      var child := AlphaBeta(g, g.play(s, col, false), childDepth, alpha, beta, true);
      if child.Err? then Err(child.error)
      else
        var better := child.value.score < value;
        var value' := if better then child.value.score else value;
        var best' := if better then Some(col) else best;
        var beta' := Min(beta, value');
        if alpha >= beta' then Ok(SearchResult(best', value'))
        else MinLoop(g, s, childDepth, cols[1..], alpha, beta', value', best')
  }
}
