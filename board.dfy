/** The board engine of the checkers game: cell values, the 8x8 grid, moves,
    the simplified move rules (forward diagonal steps and single captures, no
    kings, no forced or chained captures), move application, material
    evaluation, and the class that owns one board and changes it in place.

    The board is kept row-major in one array of 64 cells: cell (r, c) is at
    index 8 * r + c. The pure functions below work on the value of that array
    (a `Grid`) and are the specifications of the class's methods. */
module Board {

  /** Cell values. */
  const EMPTY: int := 0
  const PLAYER: int := 1
  const AI: int := 2

  /** Side length of the board. */
  const BOARD_SIZE: int := 8

  datatype Pos = Pos(row: int, col: int)

  /** A move goes from an origin cell to a destination cell. */
  datatype Move = Move(from: Pos, to: Pos)

  /** The contents of a board, row after row. */
  type Grid = seq<int>

  predicate IsGrid(g: Grid) {
    |g| == BOARD_SIZE * BOARD_SIZE
  }

  predicate InBounds(r: int, c: int) {
    0 <= r < BOARD_SIZE && 0 <= c < BOARD_SIZE
  }

  /** Index of cell (r, c) in the row-major grid. */
  function Idx(r: int, c: int): (i: int)
    requires InBounds(r, c)
    ensures 0 <= i < BOARD_SIZE * BOARD_SIZE
  {
    BOARD_SIZE * r + c
  }

  function At(g: Grid, r: int, c: int): int
    requires IsGrid(g) && InBounds(r, c)
  {
    g[Idx(r, c)]
  }

  /** Every cell holds one of the three cell values. */
  ghost predicate WellFormed(g: Grid) {
    IsGrid(g) && forall i :: 0 <= i < |g| ==> g[i] == EMPTY || g[i] == PLAYER || g[i] == AI
  }

  /** Pieces stand only on the dark squares, those where row + col is odd. */
  ghost predicate OnDarkSquares(g: Grid)
    requires IsGrid(g)
  {
    forall r, c :: InBounds(r, c) && At(g, r, c) != EMPTY ==> (r + c) % 2 == 1
  }

  /** The side that is not `p` (for `p` one of PLAYER, AI). */
  function Opponent(p: int): int {
    if p == AI then PLAYER else AI
  }

  // ---------------------------------------------------------------------
  // Material

  /** Number of cells of `s` that hold `v`. */
  function Count(s: seq<int>, v: int): (n: nat)
    ensures n <= |s|
  {
    if s == [] then 0 else (if s[0] == v then 1 else 0) + Count(s[1..], v)
  }

  /** Static evaluation: AI pieces minus PLAYER pieces (the AI maximises). */
  function Score(g: Grid): (score: int)
    ensures -|g| <= score <= |g|
  {
    Count(g, AI) - Count(g, PLAYER)
  }

  // ---------------------------------------------------------------------
  // Opening layout

  /** The opening value of cell (r, c): PLAYER on the dark squares of rows
      0-2, AI on the dark squares of rows 5-7, EMPTY elsewhere. */
  function InitialCell(r: int, c: int): int {
    if (r + c) % 2 == 1 && 0 <= r < 3 then PLAYER
    else if (r + c) % 2 == 1 && 5 <= r < BOARD_SIZE then AI
    else EMPTY
  }

  /** Row `r` of the opening layout. */
  function InitialRow(r: int): (row: seq<int>)
    ensures |row| == BOARD_SIZE
  {
    seq(BOARD_SIZE, c => InitialCell(r, c))
  }

  /** The first `n` rows of the opening layout. */
  function InitialRows(n: nat): (g: seq<int>)
    ensures |g| == BOARD_SIZE * n
  {
    if n == 0 then [] else InitialRows(n - 1) + InitialRow(n - 1)
  }

  function InitialGrid(): (g: Grid)
    ensures IsGrid(g)
  {
    InitialRows(BOARD_SIZE)
  }

  lemma {:induction false} InitialRowsAt(n: nat, r: int, c: int)
    requires 0 <= r < n && 0 <= c < BOARD_SIZE
    ensures InitialRows(n)[BOARD_SIZE * r + c] == InitialCell(r, c)
  {
    if r < n - 1 {
      InitialRowsAt(n - 1, r, c);
      assert InitialRows(n)[BOARD_SIZE * r + c] == InitialRows(n - 1)[BOARD_SIZE * r + c];
    } else {
      assert InitialRows(n)[BOARD_SIZE * r + c] == InitialRow(r)[c];
    }
  }

  // ---------------------------------------------------------------------
  // Applying a move

  predicate MoveInBounds(m: Move) {
    InBounds(m.from.row, m.from.col) && InBounds(m.to.row, m.to.col)
  }

  /** A move is a capture when it spans two rows. */
  predicate IsCapture(m: Move) {
    m.to.row - m.from.row == 2 || m.to.row - m.from.row == -2
  }

  /** The cell halfway between origin and destination; coordinates here are
      never negative, so `/` agrees with floor division. */
  function Mid(m: Move): Pos {
    Pos((m.from.row + m.to.row) / 2, (m.from.col + m.to.col) / 2)
  }

  /** The board after `m`: the origin is cleared, the piece that stood there
      is written to the destination, and for a capture the midpoint is cleared
      as well. Nothing is re-validated; the caller applies generated moves. */
  function ApplyMove(g: Grid, m: Move): (g': Grid)
    requires IsGrid(g) && MoveInBounds(m)
    ensures IsGrid(g')
    ensures At(g', m.to.row, m.to.col) == At(g, m.from.row, m.from.col)
    ensures m.from != m.to ==> At(g', m.from.row, m.from.col) == EMPTY
    ensures IsCapture(m) ==> At(g', Mid(m).row, Mid(m).col) == EMPTY
    ensures forall r, c ::
              (InBounds(r, c) && Pos(r, c) != m.from && Pos(r, c) != m.to &&
               !(IsCapture(m) && Pos(r, c) == Mid(m))) ==> At(g', r, c) == At(g, r, c)
  {
    var piece := At(g, m.from.row, m.from.col);
    var cleared := g[Idx(m.from.row, m.from.col) := EMPTY];
    var placed := cleared[Idx(m.to.row, m.to.col) := piece];
    if IsCapture(m) then placed[Idx(Mid(m).row, Mid(m).col) := EMPTY] else placed
  }

  // ---------------------------------------------------------------------
  // Move generation

  /** Row direction in which side `p` moves: PLAYER down the rows, every
      other value up. */
  function Forward(p: int): int {
    if p == PLAYER then 1 else -1
  }

  /** The two diagonal directions of side `p`, leftward first. */
  function Directions(p: int): (ds: seq<(int, int)>)
    ensures |ds| == 2
    ensures ds[0] == (Forward(p), -1) && ds[1] == (Forward(p), 1)
  {
    if p == PLAYER then [(1, -1), (1, 1)] else [(-1, -1), (-1, 1)]
  }

  /** What makes `m` a legal move of side `p` on `g`, stated on its own:
      the origin holds `p`, the destination is on the board and empty, and
      the move is one forward diagonal step, or two forward diagonal steps
      over a piece that is neither EMPTY nor `p`. */
  predicate Legal(g: Grid, p: int, m: Move)
    requires IsGrid(g)
  {
    MoveInBounds(m) && At(g, m.from.row, m.from.col) == p && LegalTarget(g, p, m)
  }

  predicate LegalTarget(g: Grid, p: int, m: Move)
    requires IsGrid(g) && MoveInBounds(m)
  {
    var dr, dc := m.to.row - m.from.row, m.to.col - m.from.col;
    At(g, m.to.row, m.to.col) == EMPTY &&
    ((dr == Forward(p) && (dc == -1 || dc == 1)) ||
     (dr == 2 * Forward(p) && (dc == -2 || dc == 2) &&
      At(g, Mid(m).row, Mid(m).col) != EMPTY && At(g, Mid(m).row, Mid(m).col) != p))
  }

  /** Moves from (r, c) in direction (dr, dc): first the step, then the jump,
      each emitted when its own condition holds. */
  function DirMoves(g: Grid, p: int, r: int, c: int, dr: int, dc: int): (ms: seq<Move>)
    requires IsGrid(g) && InBounds(r, c) && dr == Forward(p) && (dc == -1 || dc == 1)
  {
    var nr, nc := r + dr, c + dc;
    var jr, jc := r + 2 * dr, c + 2 * dc;
    var step := if InBounds(nr, nc) && At(g, nr, nc) == EMPTY then [Move(Pos(r, c), Pos(nr, nc))] else [];
    var jump := if InBounds(jr, jc) && At(g, nr, nc) != EMPTY && At(g, nr, nc) != p && At(g, jr, jc) == EMPTY
                then [Move(Pos(r, c), Pos(jr, jc))] else [];
    step + jump
  }

  /** Moves from (r, c) in the first `k` directions of side `p`. */
  function DirsMoves(g: Grid, p: int, r: int, c: int, k: nat): (ms: seq<Move>)
    requires IsGrid(g) && InBounds(r, c) && k <= 2
  {
    if k == 0 then []
    else
      var d := Directions(p)[k - 1];
      DirsMoves(g, p, r, c, k - 1) + DirMoves(g, p, r, c, d.0, d.1)
  }

  /** Moves whose origin is (r, c): none unless that cell holds `p`. */
  function CellMoves(g: Grid, p: int, r: int, c: int): (ms: seq<Move>)
    requires IsGrid(g) && InBounds(r, c)
  {
    if At(g, r, c) == p then DirsMoves(g, p, r, c, 2) else []
  }

  /** Moves whose origin lies in row `r` left of column `c`, in scan order. */
  function ScanRow(g: Grid, p: int, r: int, c: int): (ms: seq<Move>)
    requires IsGrid(g) && 0 <= r < BOARD_SIZE && 0 <= c <= BOARD_SIZE
  {
    if c == 0 then [] else ScanRow(g, p, r, c - 1) + CellMoves(g, p, r, c - 1)
  }

  /** Moves whose origin lies above row `r`, in scan order. */
  function ScanRows(g: Grid, p: int, r: int): (ms: seq<Move>)
    requires IsGrid(g) && 0 <= r <= BOARD_SIZE
  {
    if r == 0 then [] else ScanRows(g, p, r - 1) + ScanRow(g, p, r - 1, BOARD_SIZE)
  }

  /** All moves of side `p` on `g`, origins in row-major order, then the
      leftward direction before the rightward one. */
  function ValidMoves(g: Grid, p: int): (ms: seq<Move>)
    requires IsGrid(g)
    ensures forall m :: m in ms ==> Legal(g, p, m)
  {
    ScanRowsSound(g, p, BOARD_SIZE);
    ScanRows(g, p, BOARD_SIZE)
  }

  // Soundness of the scan: every move it emits is legal.

  lemma {:induction false} DirMovesSound(g: Grid, p: int, r: int, c: int, dr: int, dc: int)
    requires IsGrid(g) && InBounds(r, c) && dr == Forward(p) && (dc == -1 || dc == 1)
    ensures forall m :: m in DirMoves(g, p, r, c, dr, dc) ==>
              m.from == Pos(r, c) && MoveInBounds(m) && LegalTarget(g, p, m)
  {
  }

  lemma {:induction false} DirsMovesSound(g: Grid, p: int, r: int, c: int, k: nat)
    requires IsGrid(g) && InBounds(r, c) && k <= 2
    ensures forall m :: m in DirsMoves(g, p, r, c, k) ==>
              m.from == Pos(r, c) && MoveInBounds(m) && LegalTarget(g, p, m)
  {
    if k > 0 {
      var d := Directions(p)[k - 1];
      DirsMovesSound(g, p, r, c, k - 1);
      DirMovesSound(g, p, r, c, d.0, d.1);
    }
  }

  lemma CellMovesSound(g: Grid, p: int, r: int, c: int)
    requires IsGrid(g) && InBounds(r, c)
    ensures forall m :: m in CellMoves(g, p, r, c) ==> Legal(g, p, m)
  {
    DirsMovesSound(g, p, r, c, 2);
  }

  lemma {:induction false} ScanRowSound(g: Grid, p: int, r: int, c: int)
    requires IsGrid(g) && 0 <= r < BOARD_SIZE && 0 <= c <= BOARD_SIZE
    ensures forall m :: m in ScanRow(g, p, r, c) ==> Legal(g, p, m)
  {
    hide CellMoves;
    if c > 0 {
      ScanRowSound(g, p, r, c - 1);
      CellMovesSound(g, p, r, c - 1);
    }
  }

  lemma {:induction false} ScanRowsSound(g: Grid, p: int, r: int)
    requires IsGrid(g) && 0 <= r <= BOARD_SIZE
    ensures forall m :: m in ScanRows(g, p, r) ==> Legal(g, p, m)
  {
    hide ScanRow, CellMoves;
    if r > 0 {
      ScanRowsSound(g, p, r - 1);
      ScanRowSound(g, p, r - 1, BOARD_SIZE);
    }
  }

  // ---------------------------------------------------------------------
  // The live board

  /** One checkers board, changed in place by MakeMove. */
  class Checkers {
    const board: array<int>

    ghost predicate Valid() {
      board.Length == BOARD_SIZE * BOARD_SIZE
    }

    /** A new game, in the opening layout. */
    constructor ()
      ensures Valid() && fresh(board) && board[..] == InitialGrid()
    {
      var cells := CreateBoard();
      board := cells;
    }

    /** A deep copy of `other`: a new object over a new array with the same
        cells, so that changing one never changes the other. */
    constructor Copy(other: Checkers)
      requires other.Valid()
      ensures Valid() && fresh(board) && board[..] == other.board[..]
    {
      var cells := new int[BOARD_SIZE * BOARD_SIZE];
      forall i | 0 <= i < cells.Length {
        cells[i] := other.board[i];
      }
      board := cells;
    }

    /** Builds the opening layout: an empty board, then PLAYER pieces on the
        dark squares of rows 0-2 and AI pieces on those of rows 5-7. */
    static method CreateBoard() returns (b: array<int>)
      ensures fresh(b) && b.Length == BOARD_SIZE * BOARD_SIZE && b[..] == InitialGrid()
    {
      hide InitialRows;
      b := new int[BOARD_SIZE * BOARD_SIZE](_ => EMPTY);
      for row := 0 to 3
        invariant forall r, c :: InBounds(r, c) ==>
                    b[Idx(r, c)] == if r < row then InitialCell(r, c) else EMPTY
      {
        for col := 0 to BOARD_SIZE
          invariant forall r, c :: InBounds(r, c) ==>
                      b[Idx(r, c)] == if r < row || (r == row && c < col) then InitialCell(r, c) else EMPTY
        {
          if (row + col) % 2 == 1 {
            b[Idx(row, col)] := PLAYER;
          }
        }
      }
      for row := 5 to BOARD_SIZE
        invariant forall r, c :: InBounds(r, c) ==>
                    b[Idx(r, c)] == if r < 3 || 5 <= r < row then InitialCell(r, c) else EMPTY
      {
        for col := 0 to BOARD_SIZE
          invariant forall r, c :: InBounds(r, c) ==>
                      b[Idx(r, c)] == if r < 3 || 5 <= r < row || (r == row && c < col) then InitialCell(r, c) else EMPTY
        {
          if (row + col) % 2 == 1 {
            b[Idx(row, col)] := AI;
          }
        }
      }
      forall i | 0 <= i < b.Length
        ensures b[i] == InitialGrid()[i]
      {
        var r, c := i / BOARD_SIZE, i % BOARD_SIZE;
        assert i == Idx(r, c);
        InitialRowsAt(BOARD_SIZE, r, c);
      }
    }

    /** The moves of side `p`, in scan order: every origin holding `p`,
        row by row and column by column; for each of the side's two
        directions, the step when the adjacent cell is empty, then the jump
        when the adjacent cell holds another piece and the cell beyond it is
        empty. */
    method GetValidMoves(p: int) returns (moves: seq<Move>)
      requires Valid()
      ensures moves == ValidMoves(board[..], p)
    {
      hide CellMoves;
      ghost var g := board[..];
      moves := [];
      for r := 0 to BOARD_SIZE
        invariant moves == ScanRows(g, p, r)
      {
        ghost var above := moves;
        for c := 0 to BOARD_SIZE
          invariant moves == above + ScanRow(g, p, r, c)
        {
          var found := OriginMoves(p, r, c);
          assert ScanRow(g, p, r, c + 1) == ScanRow(g, p, r, c) + found;
          assert (above + ScanRow(g, p, r, c)) + found == above + (ScanRow(g, p, r, c) + found);
          moves := moves + found;
        }
        assert ScanRows(g, p, r + 1) == ScanRows(g, p, r) + ScanRow(g, p, r, BOARD_SIZE);
      }
    }

    /** The moves whose origin is (r, c): none unless the cell holds `p`;
        otherwise those of each of the side's directions in turn. */
    method OriginMoves(p: int, r: int, c: int) returns (moves: seq<Move>)
      requires Valid() && InBounds(r, c)
      ensures moves == CellMoves(board[..], p, r, c)
    {
      moves := [];
      if board[Idx(r, c)] == p {
        var directions := Directions(p);
        for k := 0 to |directions|
          invariant moves == DirsMoves(board[..], p, r, c, k)
        {
          var (dr, dc) := directions[k];
          var found := DirectionMoves(p, r, c, dr, dc);
          moves := moves + found;
        }
      }
    }

    /** The step, then the jump, from (r, c) in direction (dr, dc). */
    method DirectionMoves(p: int, r: int, c: int, dr: int, dc: int) returns (moves: seq<Move>)
      requires Valid() && InBounds(r, c) && dr == Forward(p) && (dc == -1 || dc == 1)
      ensures moves == DirMoves(board[..], p, r, c, dr, dc)
    {
      moves := [];
      var nr, nc := r + dr, c + dc;
      if 0 <= nr < BOARD_SIZE && 0 <= nc < BOARD_SIZE && board[Idx(nr, nc)] == EMPTY {
        moves := moves + [Move(Pos(r, c), Pos(nr, nc))];
      }
      if 0 <= r + 2 * dr < BOARD_SIZE && 0 <= c + 2 * dc < BOARD_SIZE {
        if board[Idx(nr, nc)] != EMPTY && board[Idx(nr, nc)] != p && board[Idx(r + 2 * dr, c + 2 * dc)] == EMPTY {
          moves := moves + [Move(Pos(r, c), Pos(r + 2 * dr, c + 2 * dc))];
        }
      }
    }

    /** Applies `m` in place, as ApplyMove describes. */
    method MakeMove(m: Move)
      requires Valid() && MoveInBounds(m)
      modifies board
      ensures board[..] == ApplyMove(old(board[..]), m)
    {
      var (r1, c1, r2, c2) := (m.from.row, m.from.col, m.to.row, m.to.col);
      var piece := board[Idx(r1, c1)];
      board[Idx(r1, c1)] := EMPTY;
      board[Idx(r2, c2)] := piece;
      if r2 - r1 == 2 || r2 - r1 == -2 {
        board[Idx((r1 + r2) / 2, (c1 + c2) / 2)] := EMPTY;
      }
    }

    /** The static evaluation of the current position. */
    method Evaluate() returns (score: int)
      requires Valid()
      ensures score == Score(board[..])
      ensures -BOARD_SIZE * BOARD_SIZE <= score <= BOARD_SIZE * BOARD_SIZE
    {
      score := Score(board[..]);
    }
  }
}
