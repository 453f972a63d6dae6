# CheckersBot engine and search, modelled in Dafny

CheckersBot is a small checkers game against a computer opponent. Its core is
the `Checkers` class in `app.py` and the free function `minimax`:

- The board is an 8x8 grid of cells. Each cell holds `EMPTY` (0), `PLAYER` (1) or
  `AI` (2).
- `create_board` sets up the opening position.
- `get_valid_moves` lists one side's forward diagonal steps and single jump
  captures, in a fixed scan order.
- `make_move` plays a move in place and removes a jumped piece.
- `evaluate` is the material difference, AI pieces minus PLAYER pieces.
- `minimax` is a fixed-depth search without pruning. The AI maximises and
  PLAYER minimises. Each child position is searched on a deep copy of the
  board, and a strict comparison keeps the first-listed move among equal
  values.

The project has four modules, one per file.

- `Board` (`board.dfy`) defines the board values and pure specification
  functions on a board's contents (a `Grid`, the 64 cells row-major):
  - `Score` is the evaluation.
  - `InitialGrid` is the opening layout.
  - `ApplyMove` is the effect of a move.
  - `ValidMoves` is the move list. It is built by `ScanRows`, `ScanRow`,
    `CellMoves`, `DirsMoves` and `DirMoves`, which follow the nested loops of
    `get_valid_moves` one loop level each.
  - `Legal` states the move rules declaratively.

  The class `Checkers` owns a 64-cell array. Its methods are proved against
  those functions, with loop invariants where the source loops.
- `BoardProperties` (`board_properties.dfy`) proves:
  - the opening layout and its material;
  - that the move list is exactly the set of legal moves, and in what order;
  - what a generated move does to the material and to the dark-square
    placement.
- `Search` (`search.dfy`) defines `MinimaxResult`, the recursive
  specification of the search. Its loop over the moves is the fold `BestOf`.
  The method `Minimax` plays each move on a fresh copy of the board and is
  proved equal to `MinimaxResult`.
- `SearchProperties` (`search_properties.dfy`) proves:
  - the base cases;
  - that the chosen move is generated and legal;
  - that its value is the best child value, and that the move is the first
    to reach it;
  - that the value stays within [-64, 64];
  - that a one-ply search always takes an available capture.

A step and a jump are never both listed for the same direction. In the code
(app.py:30-35) the step needs the adjacent cell to be `EMPTY` and the jump
needs it not `EMPTY`, so at most one of the two is listed.
`BoardProperties.DirMovesAtMostOne` states this.

## Model

| member | source | states |
|---|---|---|
| Board.Score | app.py:46-49 | the evaluation is the AI piece count minus the PLAYER piece count, and it lies within [-64, 64] |
| Board.ApplyMove | app.py:38-44 | the destination gets the origin's piece; the origin becomes EMPTY; for a two-row move the midpoint becomes EMPTY; every other cell is unchanged |
| Board.Directions | app.py:25 | PLAYER moves in directions (1,-1) then (1,1); any other side value moves in (-1,-1) then (-1,1) |
| Board.ValidMoves | app.py:23-36 | every listed move is legal: the origin holds the side's piece, the destination is on the board and EMPTY, and the move is a forward diagonal step, or a double step over a piece that is neither EMPTY nor the side's own |
| Board.Count | app.py:47-48 | the number of cells of a sequence holding a value (the per-row `count` summed over the rows), at most the sequence's length; its behaviour on concatenation and on one overwritten cell is proved in BoardProperties.CountAppend and BoardProperties.CountUpdate |
| Board.InitialCell | app.py:13-21 | definition: PLAYER on cells of rows 0-2 with row + col odd, AI on such cells of rows 5-7, EMPTY elsewhere; properties proved in BoardProperties.OpeningPosition |
| Board.InitialGrid | app.py:13-21 | the 64-cell opening layout, row by row from InitialCell; properties proved in BoardProperties.OpeningPosition |
| Board.IsCapture | app.py:43 | definition: a move is a capture when its row changes by 2 in either direction (`abs(r2 - r1) == 2`); properties proved in BoardProperties.MoveMaterial |
| Board.Mid | app.py:44 | definition: the cell at the halved sums of the origin's and destination's coordinates; properties proved in Board.ApplyMove |
| Board.Legal | app.py:30-35 | definition: the origin holds the side's piece, the destination is on the board and EMPTY, and the move is one forward diagonal step or two over a piece that is neither EMPTY nor the side's own; properties proved in BoardProperties.ValidMovesAreLegal |
| Board.DirMoves | app.py:30-35 | definition: the step then the jump of one direction, each under its own condition; properties proved in Board.DirMovesSound and BoardProperties.DirMovesAtMostOne |
| Board.CellMoves | app.py:28-35 | definition: no moves unless the origin holds the side's piece, else the moves of its two directions in order; properties proved in Board.CellMovesSound and BoardProperties.CellMovesComplete |
| Board.ScanRow | app.py:27-35 | definition: the moves of the origins of one row left of a column, column by column; properties proved in Board.ScanRowSound, BoardProperties.ScanRowComplete and BoardProperties.ScanRowOrdered |
| Board.ScanRows | app.py:26-35 | definition: the moves of the origins of the rows above a row, row by row; properties proved in Board.ScanRowsSound, BoardProperties.ScanRowsComplete and BoardProperties.ScanRowsOrdered |
| Board.ScanRowsSound | app.py:26-35 | every move the row-by-row scan emits is legal |
| Board.Checkers.constructor | app.py:10-11 | a new game's board is a fresh 64-cell array holding the opening layout |
| Board.Checkers.Copy | app.py:61 | the deep copy is a fresh array with the same cells, so moves played on it leave the original untouched |
| Board.Checkers.CreateBoard | app.py:13-21 | the filled array is the opening layout: PLAYER on the dark squares of rows 0-2, AI on the dark squares of rows 5-7, EMPTY elsewhere |
| Board.Checkers.GetValidMoves | app.py:23-36 | the accumulated list equals ValidMoves of the current board, origin by origin in row-major order |
| Board.Checkers.OriginMoves | app.py:28-35 | no moves unless the origin holds the side's piece; otherwise the moves of the side's two directions in order |
| Board.Checkers.DirectionMoves | app.py:30-35 | the step when the adjacent cell is on the board and EMPTY, then the jump when the landing cell is on the board and EMPTY and the jumped cell holds a piece other than the side's |
| Board.Checkers.MakeMove | app.py:38-44 | the new board is ApplyMove of the old board, changed in place |
| Board.Checkers.Evaluate | app.py:46-49 | the result is Score of the current board, within [-64, 64], and the board is not changed |
| BoardProperties.OpeningPosition | app.py:13-21 | in the opening layout PLAYER stands exactly on the dark squares of rows 0-2, AI exactly on those of rows 5-7, and every other cell is EMPTY; every cell holds a valid value and every piece is on a dark square; there are 12 pieces per side and the evaluation is 0 |
| BoardProperties.InitialRowsCount | app.py:14-20 | the first n opening rows hold 4 PLAYER pieces on each of rows 0-2 and 4 AI pieces on each of rows 5-7 among them |
| BoardProperties.ScanRowsComplete | app.py:26-35 | every legal move whose origin lies above row r is emitted by the scan of those rows |
| BoardProperties.ValidMovesAreLegal | app.py:25-35 | a move is in the generated list if and only if it is legal, in both directions |
| BoardProperties.ValidMovesOrdered | app.py:26-35 | the list is strictly increasing in (origin in row-major order, then leftward before rightward), so it has no duplicates and its order is fixed |
| BoardProperties.DirMovesAtMostOne | app.py:30-35 | each direction of each origin yields at most one move, because a step needs the adjacent cell EMPTY and a jump needs it occupied |
| BoardProperties.CountUpdate | app.py:47-48 | overwriting one cell changes a piece count by the old and new values of that cell only |
| BoardProperties.MoveMaterial | app.py:38-49 | for a generated move on a well-formed board: the board stays well-formed; the mover keeps all its pieces; the other side loses exactly one piece on a jump and none on a step; the evaluation rises by 1 for an AI jump, falls by 1 for a PLAYER jump, and is unchanged for a step |
| BoardProperties.MovePreservesDarkSquares | app.py:38-44 | if every piece stood on a dark square, every piece still does after a generated move |
| BoardProperties.OpeningMovesAreSteps | app.py:23-36 | no first move from the opening layout is a capture, so any first move leaves the evaluation at 0 |
| Search.Side | app.py:53 | the side to move is AI exactly when maximising, otherwise PLAYER |
| Search.Improves | app.py:64 | definition: a child value replaces the best so far when strictly greater on a maximising ply (app.py:64) or strictly smaller on a minimising one (app.py:74); properties proved in SearchProperties.MinimaxChoice |
| Search.MinimaxResult | app.py:51-76 | definition: the evaluation and no move at depth 0 or when the side to move has no moves, otherwise the fold BestOf over the side's moves; properties proved in SearchProperties.MinimaxCharacterized, SearchProperties.MinimaxBounded and SearchProperties.GreedyCapture |
| Search.ChildValue | app.py:61-63 | definition: the value of the opponent's search one ply shallower on the board after the move (app.py:61-63 and 71-73); properties proved in SearchProperties.OnePlyChild and SearchProperties.MinimaxBounded |
| Search.BestOf | app.py:57-66 | definition: the loop over the moves from one index on, where no move so far stands for the infinite starting value and a child replaces the best when it improves on it (app.py:57-66 and 67-76); properties proved in SearchProperties.BestOfCorrect |
| Search.Minimax | app.py:51-76 | the returned value and move equal MinimaxResult of the board; the method has no modifies clause, so the caller's board is unchanged |
| SearchProperties.BestOfCorrect | app.py:57-66 | the loop over the moves ends holding the first move with the best child value for the side to move, together with that value |
| SearchProperties.MinimaxChoice | app.py:57-76 | with plies left and moves available, the result is the value and move of the first best child: no child value beats it, and it strictly beats every earlier child value |
| SearchProperties.MinimaxCharacterized | app.py:51-76 | there is no move exactly when the depth is 0 or the side to move has no moves, and the value is then the evaluation; otherwise the move is the first best child and the value is its child value (the maximum when maximising, the minimum when minimising) |
| SearchProperties.MinimaxMoveIsLegal | app.py:54-76 | a returned move is an element of the side's generated move list, and legal |
| SearchProperties.MinimaxBounded | app.py:51-76 | the search value lies within [-64, 64] at every depth |
| SearchProperties.OnePlyChild | app.py:52 | at depth 1 a child's value is the evaluation of the board after that move |
| SearchProperties.GreedyCapture | app.py:51-76 | on a well-formed board where the side to move has a capture, a one-ply search returns a capture, with the evaluation moved one piece in that side's favour |

## Left out

- The Streamlit interface (app.py:78-134) is not modelled: page setup, styling, session state, click handling, rendering and reset are user-interface plumbing over a library outside the model.
- The board is a flat 64-cell array, with cell (r, c) at index 8*r + c, rather than a list of eight row lists. The cell values and their order are the same.
- `copy.deepcopy` is modelled as the constructor `Board.Checkers.Copy`, which builds a fresh array with the same cells. General object-graph copying is not modelled.
- The infinite starting values `float('-inf')` and `float('inf')` are modelled by "no move chosen yet" (`None`): any first child value replaces it, just as any integer beats the infinite sentinel. Floating point is not modelled.
- Search.Minimax: the maximising and minimising loops of the source are one loop here. `Improves` decides the direction of the comparison: strictly greater when maximising, strictly smaller when minimising.
- Search.Minimax: the depth is a natural number. On a negative depth the source never reaches its depth-0 case and recurses until a side has no moves; that case is not modelled.
- Board.Checkers.MakeMove: requires the move's cells to be on the board. Python would accept a negative index by wrapping around, or raise an error for one that is too large; neither is modelled. Every move the engine generates is on the board.
- The running time of the exponential search is not modelled. Only its result is specified.
