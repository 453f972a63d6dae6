/** What the search guarantees: it returns a move exactly when it has plies
    left and a move to make; the move is a generated one; its value is the
    best child value for the side to move, and the move is the first that
    reaches it; the value stays within the evaluation's range; and a
    one-ply search takes a capture whenever one is available. */
module SearchProperties {
  import opened Board
  import opened BoardProperties
  import opened Search

  /** Move `k` of `moves` is the first best for the side to move: no child
      value beats its value, and every earlier child value is beaten by it. */
  ghost predicate IsFirstBest(g: Grid, moves: seq<Move>, depth: nat, maximizing: bool, k: int)
    requires IsGrid(g) && depth > 0 && forall m :: m in moves ==> MoveInBounds(m)
  {
    0 <= k < |moves| &&
    (forall j :: 0 <= j < |moves| ==>
       !Improves(maximizing, ChildValue(g, moves[j], depth, maximizing), ChildValue(g, moves[k], depth, maximizing))) &&
    (forall j :: 0 <= j < k ==>
       Improves(maximizing, ChildValue(g, moves[k], depth, maximizing), ChildValue(g, moves[j], depth, maximizing)))
  }

  /** Move `k` is the first best among the first `i` moves. */
  ghost predicate FirstBestBefore(g: Grid, moves: seq<Move>, depth: nat, maximizing: bool, i: int, k: int)
    requires IsGrid(g) && depth > 0 && i <= |moves| && forall m :: m in moves ==> MoveInBounds(m)
  {
    0 <= k < i &&
    (forall j :: 0 <= j < i ==>
       !Improves(maximizing, ChildValue(g, moves[j], depth, maximizing), ChildValue(g, moves[k], depth, maximizing))) &&
    (forall j :: 0 <= j < k ==>
       Improves(maximizing, ChildValue(g, moves[k], depth, maximizing), ChildValue(g, moves[j], depth, maximizing)))
  }

  /** Taking move `i` keeps the first best: it beats the best so far, which
      is at least as good as every earlier move. */
  lemma TakeStep(g: Grid, moves: seq<Move>, depth: nat, maximizing: bool, i: int, k: int)
    requires IsGrid(g) && depth > 0 && 0 <= i < |moves| && forall m :: m in moves ==> MoveInBounds(m)
    requires i == 0 || (FirstBestBefore(g, moves, depth, maximizing, i, k) &&
                        Improves(maximizing, ChildValue(g, moves[i], depth, maximizing), ChildValue(g, moves[k], depth, maximizing)))
    ensures FirstBestBefore(g, moves, depth, maximizing, i + 1, i)
  {
    hide ChildValue;
  }

  /** Passing over move `i`, which does not beat the best so far, keeps it. */
  lemma KeepStep(g: Grid, moves: seq<Move>, depth: nat, maximizing: bool, i: int, k: int)
    requires IsGrid(g) && depth > 0 && 0 <= i < |moves| && forall m :: m in moves ==> MoveInBounds(m)
    requires FirstBestBefore(g, moves, depth, maximizing, i, k)
    requires !Improves(maximizing, ChildValue(g, moves[i], depth, maximizing), ChildValue(g, moves[k], depth, maximizing))
    ensures FirstBestBefore(g, moves, depth, maximizing, i + 1, k)
  {
    hide ChildValue;
  }

  /** The loop over the moves, entered after `i` moves with move `k` as the
      first best so far (nothing chosen when `i` is 0), ends with the first
      best of all the moves and its child value. */
  lemma {:induction false} BestOfCorrect(g: Grid, moves: seq<Move>, depth: nat, maximizing: bool,
                                         i: nat, bestValue: int, bestMove: Option<Move>, k: int)
    returns (best: int)
    requires IsGrid(g) && depth > 0 && i <= |moves| && 0 < |moves| && forall m :: m in moves ==> MoveInBounds(m)
    requires if i == 0 then bestMove.None?
             else FirstBestBefore(g, moves, depth, maximizing, i, k) &&
                  bestMove == Some(moves[k]) && bestValue == ChildValue(g, moves[k], depth, maximizing)
    ensures FirstBestBefore(g, moves, depth, maximizing, |moves|, best)
    ensures BestOf(g, moves, depth, maximizing, i, bestValue, bestMove) ==
              (ChildValue(g, moves[best], depth, maximizing), Some(moves[best]))
    decreases |moves| - i
  {
    hide ChildValue, FirstBestBefore;
    if i == |moves| {
      best := k;
    } else {
      var v := ChildValue(g, moves[i], depth, maximizing);
      if bestMove.None? || Improves(maximizing, v, bestValue) {
        TakeStep(g, moves, depth, maximizing, i, k);
        best := BestOfCorrect(g, moves, depth, maximizing, i + 1, v, Some(moves[i]), i);
      } else {
        KeepStep(g, moves, depth, maximizing, i, k);
        best := BestOfCorrect(g, moves, depth, maximizing, i + 1, bestValue, bestMove, k);
      }
    }
  }

  /** With plies left and moves to make, the search picks the first best
      move and returns its child value. */
  lemma MinimaxChoice(g: Grid, depth: nat, maximizing: bool) returns (k: int)
    requires IsGrid(g) && depth > 0 && |ValidMoves(g, Side(maximizing))| > 0
    ensures IsFirstBest(g, ValidMoves(g, Side(maximizing)), depth, maximizing, k)
    ensures MinimaxResult(g, depth, maximizing) ==
              (ChildValue(g, ValidMoves(g, Side(maximizing))[k], depth, maximizing),
               Some(ValidMoves(g, Side(maximizing))[k]))
  {
    var moves := ValidMoves(g, Side(maximizing));
    k := BestOfCorrect(g, moves, depth, maximizing, 0, 0, None, 0);
  }

  /** The result of a search: no move exactly when no plies are left or the
      side to move has no move, and then the static evaluation; otherwise a
      generated move that is the first best for the side to move, with its
      child value. */
  lemma MinimaxCharacterized(g: Grid, depth: nat, maximizing: bool)
    requires IsGrid(g)
    ensures var (value, move) := MinimaxResult(g, depth, maximizing);
            var moves := ValidMoves(g, Side(maximizing));
            (move.None? <==> depth == 0 || |moves| == 0) &&
            (move.None? ==> value == Score(g)) &&
            (move.Some? ==>
               exists k :: IsFirstBest(g, moves, depth, maximizing, k) &&
                           move == Some(moves[k]) && value == ChildValue(g, moves[k], depth, maximizing))
  {
    if depth > 0 && |ValidMoves(g, Side(maximizing))| > 0 {
      var k := MinimaxChoice(g, depth, maximizing);
    }
  }

  /** The chosen move, when there is one, is legal for the side to move. */
  lemma MinimaxMoveIsLegal(g: Grid, depth: nat, maximizing: bool)
    requires IsGrid(g)
    ensures var move := MinimaxResult(g, depth, maximizing).1;
            move.Some? ==> move.value in ValidMoves(g, Side(maximizing)) && Legal(g, Side(maximizing), move.value)
  {
    MinimaxCharacterized(g, depth, maximizing);
  }

  /** The search value stays within the range of the static evaluation. */
  lemma {:induction false} MinimaxBounded(g: Grid, depth: nat, maximizing: bool)
    requires IsGrid(g)
    ensures -BOARD_SIZE * BOARD_SIZE <= MinimaxResult(g, depth, maximizing).0 <= BOARD_SIZE * BOARD_SIZE
    decreases depth
  {
    hide MinimaxResult, BestOf, ValidMoves;
    var moves := ValidMoves(g, Side(maximizing));
    if depth > 0 && |moves| > 0 {
      var k := MinimaxChoice(g, depth, maximizing);
      assert moves[k] in moves;
      MinimaxBounded(ApplyMove(g, moves[k]), depth - 1, !maximizing);
    } else {
      MinimaxCharacterized(g, depth, maximizing);
    }
  }

  lemma OnePlyChild(g: Grid, m: Move, maximizing: bool)
    requires IsGrid(g) && MoveInBounds(m)
    ensures ChildValue(g, m, 1, maximizing) == Score(ApplyMove(g, m))
  {
  }

  /** A one-ply search takes a capture whenever the side to move has one:
      the chosen move is a capture and the value is the evaluation moved
      by one piece in that side's favour. */
  lemma GreedyCapture(g: Grid, maximizing: bool)
    requires WellFormed(g)
    requires exists m :: m in ValidMoves(g, Side(maximizing)) && IsCapture(m)
    ensures var (value, move) := MinimaxResult(g, 1, maximizing);
            move.Some? && IsCapture(move.value) &&
            value == Score(g) + (if maximizing then 1 else -1)
  {
    hide MinimaxResult, BestOf, ValidMoves, ChildValue;
    var p := Side(maximizing);
    var moves := ValidMoves(g, p);
    var c :| c in moves && IsCapture(c);
    var j :| 0 <= j < |moves| && moves[j] == c;
    var k := MinimaxChoice(g, 1, maximizing);
    MoveMaterial(g, p, moves[j]);
    MoveMaterial(g, p, moves[k]);
    OnePlyChild(g, moves[j], maximizing);
    OnePlyChild(g, moves[k], maximizing);
    assert !Improves(maximizing, ChildValue(g, moves[j], 1, maximizing), ChildValue(g, moves[k], 1, maximizing));
  }
}
