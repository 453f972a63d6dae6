/** Fixed-depth minimax over the checkers engine: the AI maximises the
    evaluation, PLAYER minimises it, and each side keeps the first move
    that reaches its best value. */
module Search {
  import opened Board

  datatype Option<T> = None | Some(value: T)

  /** The side to move: AI on maximising plies, PLAYER on minimising ones. */
  function Side(maximizing: bool): (p: int)
    ensures p == PLAYER || p == AI
    ensures p == AI <==> maximizing
  {
    if maximizing then AI else PLAYER
  }

  /** Whether value `v` replaces the best value so far: strictly greater
      on a maximising ply, strictly smaller on a minimising one. */
  predicate Improves(maximizing: bool, v: int, best: int) {
    if maximizing then v > best else v < best
  }

  /** The value and chosen move of a minimax search of `depth` plies from
      `g`. With no plies left, or no move for the side to move, the search
      returns the static evaluation and no move. */
  function MinimaxResult(g: Grid, depth: nat, maximizing: bool): (res: (int, Option<Move>))
    requires IsGrid(g)
    decreases depth, 1
  {
    if depth == 0 then (Score(g), None)
    else
      var moves := ValidMoves(g, Side(maximizing));
      if |moves| == 0 then (Score(g), None)
      else BestOf(g, moves, depth, maximizing, 0, 0, None)
  }

  /** The value the opponent's search gives the position after `m`. */
  function ChildValue(g: Grid, m: Move, depth: nat, maximizing: bool): int
    requires IsGrid(g) && MoveInBounds(m) && depth > 0
    decreases depth, 0, 0
  {
    MinimaxResult(ApplyMove(g, m), depth - 1, !maximizing).0
  }

  /** The loop over the moves from index `i` on, with the best value and
      move found before `i`. No move so far stands for the infinite starting
      value, which any first child value beats. */
  function BestOf(g: Grid, moves: seq<Move>, depth: nat, maximizing: bool,
                  i: nat, bestValue: int, bestMove: Option<Move>): (res: (int, Option<Move>))
    requires IsGrid(g) && depth > 0 && i <= |moves|
    requires forall m :: m in moves ==> MoveInBounds(m)
    decreases depth, 0, |moves| - i
  {
    if i == |moves| then (bestValue, bestMove)
    else
      var v := ChildValue(g, moves[i], depth, maximizing);
      if bestMove.None? || Improves(maximizing, v, bestValue)
      then BestOf(g, moves, depth, maximizing, i + 1, v, Some(moves[i]))
      else BestOf(g, moves, depth, maximizing, i + 1, bestValue, bestMove)
  }

  /** Searches `depth` plies from `board`, playing each move on a copy of
      the board, so the board itself is never changed. */
  method Minimax(board: Checkers, depth: nat, maximizing: bool) returns (value: int, move: Option<Move>)
    requires board.Valid()
    ensures (value, move) == MinimaxResult(board.board[..], depth, maximizing)
    decreases depth
  {
    if depth == 0 {
      value := board.Evaluate();
      move := None;
      return;
    }
    var player := Side(maximizing);
    var moves := board.GetValidMoves(player);
    if |moves| == 0 {
      value := board.Evaluate();
      move := None;
      return;
    }
    ghost var g := board.board[..];
    value, move := 0, None;
    assert forall m :: m in moves ==> MoveInBounds(m);
    for i := 0 to |moves|
      invariant board.board[..] == g
      invariant BestOf(g, moves, depth, maximizing, i, value, move) == MinimaxResult(g, depth, maximizing)
    {
      assert MoveInBounds(moves[i]);
      var newBoard := new Checkers.Copy(board);
      newBoard.MakeMove(moves[i]);
      var val, reply := Minimax(newBoard, depth - 1, !maximizing);
      if move.None? || Improves(maximizing, val, value) {
        value, move := val, Some(moves[i]);
      }
    }
  }
}
