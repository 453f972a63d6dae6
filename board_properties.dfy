/** What the board engine guarantees: the opening layout and its material,
    the exact set and order of the generated moves, what applying a
    generated move does to the material, and that pieces stay on the dark
    squares. */
module BoardProperties {
  import opened Board

  // ---------------------------------------------------------------------
  // Opening layout

  lemma InitialAt(r: int, c: int)
    requires InBounds(r, c)
    ensures At(InitialGrid(), r, c) == InitialCell(r, c)
  {
    InitialRowsAt(BOARD_SIZE, r, c);
  }

  /** Number of cells of `a + b` holding `v`. */
  lemma {:induction false} CountAppend(a: seq<int>, b: seq<int>, v: int)
    ensures Count(a + b, v) == Count(a, v) + Count(b, v)
  {
    if a == [] {
      assert a + b == b;
    } else {
      assert (a + b)[0] == a[0] && (a + b)[1..] == a[1..] + b;
      CountAppend(a[1..], b, v);
    }
  }

  // The opening rows written out with the literals 0, 1, 2 for the cell
  // values, so that Dafny evaluates their counts.

  lemma EvenRowShape(r: int)
    requires 0 <= r < BOARD_SIZE && r % 2 == 0
    ensures InitialRow(r) == if r == 0 || r == 2 then [0, 1, 0, 1, 0, 1, 0, 1]
                             else if r == 6 then [0, 2, 0, 2, 0, 2, 0, 2]
                             else [0, 0, 0, 0, 0, 0, 0, 0]
  {
    assert forall c :: 0 <= c < BOARD_SIZE ==> (r + c) % 2 == c % 2;
  }

  lemma OddRowShape(r: int)
    requires 0 <= r < BOARD_SIZE && r % 2 == 1
    ensures InitialRow(r) == if r == 1 then [1, 0, 1, 0, 1, 0, 1, 0]
                             else if r == 5 || r == 7 then [2, 0, 2, 0, 2, 0, 2, 0]
                             else [0, 0, 0, 0, 0, 0, 0, 0]
  {
    assert forall c :: 0 <= c < BOARD_SIZE ==> (r + c) % 2 == 1 - c % 2;
  }

  lemma PlayerRowCounts()
    ensures Count([0, 1, 0, 1, 0, 1, 0, 1], 1) == 4 && Count([0, 1, 0, 1, 0, 1, 0, 1], 2) == 0
    ensures Count([1, 0, 1, 0, 1, 0, 1, 0], 1) == 4 && Count([1, 0, 1, 0, 1, 0, 1, 0], 2) == 0
    ensures Count([0, 0, 0, 0, 0, 0, 0, 0], 1) == 0 && Count([0, 0, 0, 0, 0, 0, 0, 0], 2) == 0
  {
  }

  lemma AiRowCounts()
    ensures Count([2, 0, 2, 0, 2, 0, 2, 0], 1) == 0 && Count([2, 0, 2, 0, 2, 0, 2, 0], 2) == 4
    ensures Count([0, 2, 0, 2, 0, 2, 0, 2], 1) == 0 && Count([0, 2, 0, 2, 0, 2, 0, 2], 2) == 4
  {
  }

  /** Pieces on row `r` of the opening layout. */
  lemma InitialRowCount(r: int)
    requires 0 <= r < BOARD_SIZE
    ensures Count(InitialRow(r), PLAYER) == (if r < 3 then 4 else 0)
    ensures Count(InitialRow(r), AI) == (if r >= 5 then 4 else 0)
  {
    hide InitialRow, Count;
    if r % 2 == 0 { EvenRowShape(r); } else { OddRowShape(r); }
    PlayerRowCounts();
    AiRowCounts();
  }

  lemma {:induction false} InitialRowsCount(n: nat)
    requires n <= BOARD_SIZE
    ensures Count(InitialRows(n), PLAYER) == 4 * (if n < 3 then n else 3)
    ensures Count(InitialRows(n), AI) == 4 * (if n < 5 then 0 else n - 5)
  {
    if n > 0 {
      InitialRowsCount(n - 1);
      InitialRowCount(n - 1);
      CountAppend(InitialRows(n - 1), InitialRow(n - 1), PLAYER);
      CountAppend(InitialRows(n - 1), InitialRow(n - 1), AI);
    }
  }

  /** The opening layout: PLAYER exactly on the dark squares of rows 0-2,
      AI exactly on those of rows 5-7, twelve pieces a side, so the opening
      evaluates to 0. */
  lemma OpeningPosition()
    ensures forall r, c :: InBounds(r, c) ==>
              (At(InitialGrid(), r, c) == PLAYER <==> r < 3 && (r + c) % 2 == 1) &&
              (At(InitialGrid(), r, c) == AI <==> r >= 5 && (r + c) % 2 == 1) &&
              (At(InitialGrid(), r, c) == EMPTY <==> (3 <= r < 5 || (r + c) % 2 == 0))
    ensures WellFormed(InitialGrid()) && OnDarkSquares(InitialGrid())
    ensures Count(InitialGrid(), PLAYER) == 12 && Count(InitialGrid(), AI) == 12
    ensures Score(InitialGrid()) == 0
  {
    forall r, c | InBounds(r, c) {
      InitialAt(r, c);
    }
    var g := InitialGrid();
    forall i | 0 <= i < |g|
      ensures g[i] == EMPTY || g[i] == PLAYER || g[i] == AI
    {
      var r, c := i / BOARD_SIZE, i % BOARD_SIZE;
      assert i == Idx(r, c);
      InitialAt(r, c);
    }
    InitialRowsCount(BOARD_SIZE);
  }

  // ---------------------------------------------------------------------
  // The generated moves are exactly the legal ones

  /** A legal move is emitted for its origin: the leftward direction holds
      it when its column decreases, the rightward one otherwise. */
  lemma CellMovesComplete(g: Grid, p: int, m: Move)
    requires IsGrid(g) && Legal(g, p, m)
    ensures m in CellMoves(g, p, m.from.row, m.from.col)
  {
    var r, c := m.from.row, m.from.col;
    var ds := Directions(p);
    if m.to.col < c {
      assert m in DirMoves(g, p, r, c, ds[0].0, ds[0].1);
      assert DirsMoves(g, p, r, c, 1) == [] + DirMoves(g, p, r, c, ds[0].0, ds[0].1);
    } else {
      assert m in DirMoves(g, p, r, c, ds[1].0, ds[1].1);
    }
  }

  lemma {:induction false} ScanRowComplete(g: Grid, p: int, r: int, c: int, m: Move)
    requires IsGrid(g) && 0 <= r < BOARD_SIZE && 0 <= c <= BOARD_SIZE
    requires Legal(g, p, m) && m.from.row == r && m.from.col < c
    ensures m in ScanRow(g, p, r, c)
  {
    hide CellMoves;
    if m.from.col == c - 1 {
      CellMovesComplete(g, p, m);
    } else {
      ScanRowComplete(g, p, r, c - 1, m);
    }
  }

  lemma {:induction false} ScanRowsComplete(g: Grid, p: int, r: int, m: Move)
    requires IsGrid(g) && 0 <= r <= BOARD_SIZE
    requires Legal(g, p, m) && m.from.row < r
    ensures m in ScanRows(g, p, r)
  {
    hide ScanRow, CellMoves;
    if m.from.row == r - 1 {
      ScanRowComplete(g, p, r - 1, BOARD_SIZE, m);
    } else {
      ScanRowsComplete(g, p, r - 1, m);
    }
  }

  /** Shape of each move: a move is generated for side `p` exactly when the
      origin holds `p`, the destination is on the board and EMPTY, and it is
      one forward diagonal step, or two over a piece that is neither EMPTY
      nor `p`. */
  lemma ValidMovesAreLegal(g: Grid, p: int, m: Move)
    requires IsGrid(g)
    ensures m in ValidMoves(g, p) <==> Legal(g, p, m)
  {
    if Legal(g, p, m) {
      ScanRowsComplete(g, p, BOARD_SIZE, m);
    }
  }

  // ---------------------------------------------------------------------
  // Enumeration order

  /** Position of a move in the scan: origins in row-major order, then the
      leftward direction (column decreasing) before the rightward one. */
  function Key(m: Move): int {
    2 * (BOARD_SIZE * m.from.row + m.from.col) + (if m.to.col < m.from.col then 0 else 1)
  }

  ghost predicate Increasing(ms: seq<Move>) {
    forall i, j :: 0 <= i < j < |ms| ==> Key(ms[i]) < Key(ms[j])
  }

  ghost predicate KeysIn(ms: seq<Move>, lo: int, hi: int) {
    forall i :: 0 <= i < |ms| ==> lo <= Key(ms[i]) < hi
  }

  lemma IncreasingAppend(a: seq<Move>, b: seq<Move>, lo: int, mid: int, hi: int)
    requires lo <= mid <= hi
    requires Increasing(a) && KeysIn(a, lo, mid) && Increasing(b) && KeysIn(b, mid, hi)
    ensures Increasing(a + b) && KeysIn(a + b, lo, hi)
  {
    forall i, j | 0 <= i < j < |a + b|
      ensures Key((a + b)[i]) < Key((a + b)[j])
    {
      if j < |a| {
        assert Key(a[i]) < Key(a[j]);
      } else if i >= |a| {
        assert Key(b[i - |a|]) < Key(b[j - |a|]);
      } else {
        assert Key(a[i]) < mid <= Key(b[j - |a|]);
      }
    }
    forall i | 0 <= i < |a + b|
      ensures lo <= Key((a + b)[i]) < hi
    {
      if i < |a| {
        assert (a + b)[i] == a[i];
      } else {
        assert (a + b)[i] == b[i - |a|];
      }
    }
  }

  /** A step needs the adjacent cell empty and a jump needs it occupied, so
      each direction of each origin yields at most one move. */
  lemma DirMovesAtMostOne(g: Grid, p: int, r: int, c: int, dr: int, dc: int)
    requires IsGrid(g) && InBounds(r, c) && dr == Forward(p) && (dc == -1 || dc == 1)
    ensures |DirMoves(g, p, r, c, dr, dc)| <= 1
  {
  }

  lemma DirMovesKeys(g: Grid, p: int, r: int, c: int, dr: int, dc: int)
    requires IsGrid(g) && InBounds(r, c) && dr == Forward(p) && (dc == -1 || dc == 1)
    ensures |DirMoves(g, p, r, c, dr, dc)| <= 1
    ensures KeysIn(DirMoves(g, p, r, c, dr, dc), Key(Move(Pos(r, c), Pos(r + dr, c + dc))),
                   Key(Move(Pos(r, c), Pos(r + dr, c + dc))) + 1)
  {
    DirMovesAtMostOne(g, p, r, c, dr, dc);
  }

  lemma CellMovesOrdered(g: Grid, p: int, r: int, c: int)
    requires IsGrid(g) && InBounds(r, c)
    ensures Increasing(CellMoves(g, p, r, c))
    ensures KeysIn(CellMoves(g, p, r, c), 2 * Idx(r, c), 2 * Idx(r, c) + 2)
  {
    if At(g, r, c) == p {
      var ds := Directions(p);
      DirMovesKeys(g, p, r, c, ds[0].0, ds[0].1);
      DirMovesKeys(g, p, r, c, ds[1].0, ds[1].1);
      assert DirsMoves(g, p, r, c, 1) == [] + DirMoves(g, p, r, c, ds[0].0, ds[0].1);
      IncreasingAppend(DirsMoves(g, p, r, c, 1), DirMoves(g, p, r, c, ds[1].0, ds[1].1),
                       2 * Idx(r, c), 2 * Idx(r, c) + 1, 2 * Idx(r, c) + 2);
    }
  }

  lemma {:induction false} ScanRowOrdered(g: Grid, p: int, r: int, c: int)
    requires IsGrid(g) && 0 <= r < BOARD_SIZE && 0 <= c <= BOARD_SIZE
    ensures Increasing(ScanRow(g, p, r, c))
    ensures KeysIn(ScanRow(g, p, r, c), 2 * BOARD_SIZE * r, 2 * BOARD_SIZE * r + 2 * c)
  {
    hide CellMoves;
    if c > 0 {
      ScanRowOrdered(g, p, r, c - 1);
      CellMovesOrdered(g, p, r, c - 1);
      IncreasingAppend(ScanRow(g, p, r, c - 1), CellMoves(g, p, r, c - 1),
                       2 * BOARD_SIZE * r, 2 * BOARD_SIZE * r + 2 * (c - 1), 2 * BOARD_SIZE * r + 2 * c);
    }
  }

  lemma {:induction false} ScanRowsOrdered(g: Grid, p: int, r: int)
    requires IsGrid(g) && 0 <= r <= BOARD_SIZE
    ensures Increasing(ScanRows(g, p, r))
    ensures KeysIn(ScanRows(g, p, r), 0, 2 * BOARD_SIZE * r)
  {
    hide ScanRow, CellMoves;
    if r > 0 {
      ScanRowsOrdered(g, p, r - 1);
      ScanRowOrdered(g, p, r - 1, BOARD_SIZE);
      IncreasingAppend(ScanRows(g, p, r - 1), ScanRow(g, p, r - 1, BOARD_SIZE),
                       0, 2 * BOARD_SIZE * (r - 1), 2 * BOARD_SIZE * r);
    }
  }

  /** Enumeration order: the keys of the generated moves strictly increase,
      so the list is in row-major order of origins, leftward before
      rightward, and holds at most one move per origin and direction. With
      ValidMovesAreLegal this fixes the list completely. */
  lemma ValidMovesOrdered(g: Grid, p: int)
    requires IsGrid(g)
    ensures Increasing(ValidMoves(g, p))
  {
    ScanRowsOrdered(g, p, BOARD_SIZE);
  }

  // ---------------------------------------------------------------------
  // Effect of a generated move on the material

  /** Number of cells holding `v` after one cell is overwritten. */
  lemma {:induction false} CountUpdate(s: seq<int>, i: int, x: int, v: int)
    requires 0 <= i < |s|
    ensures Count(s[i := x], v) == Count(s, v) - (if s[i] == v then 1 else 0) + (if x == v then 1 else 0)
  {
    if i == 0 {
      assert s[i := x][1..] == s[1..];
    } else {
      assert s[i := x][1..] == s[1..][i - 1 := x];
      CountUpdate(s[1..], i - 1, x, v);
    }
  }

  /** Effect of moves on material: a generated step keeps both piece counts;
      a generated jump by `p` removes exactly one piece of the other side, so
      the evaluation rises by one for an AI jump and falls by one for a
      PLAYER jump. Every cell still holds one of the three values. */
  lemma MoveMaterial(g: Grid, p: int, m: Move)
    requires WellFormed(g) && (p == PLAYER || p == AI) && m in ValidMoves(g, p)
    ensures WellFormed(ApplyMove(g, m))
    ensures Count(ApplyMove(g, m), p) == Count(g, p)
    ensures Count(ApplyMove(g, m), Opponent(p)) == Count(g, Opponent(p)) - (if IsCapture(m) then 1 else 0)
    ensures Score(ApplyMove(g, m)) == Score(g) + (if !IsCapture(m) then 0 else if p == AI then 1 else -1)
  {
    hide ValidMoves;
    var q := Opponent(p);
    var o, d := Idx(m.from.row, m.from.col), Idx(m.to.row, m.to.col);
    assert g[o] == p && g[d] == EMPTY && o != d;
    var cleared := g[o := EMPTY];
    var placed := cleared[d := p];
    CountUpdate(g, o, EMPTY, p);
    CountUpdate(g, o, EMPTY, q);
    CountUpdate(cleared, d, p, p);
    CountUpdate(cleared, d, p, q);
    if IsCapture(m) {
      var k := Idx(Mid(m).row, Mid(m).col);
      assert k != o && k != d && g[k] == q;
      CountUpdate(placed, k, EMPTY, p);
      CountUpdate(placed, k, EMPTY, q);
      assert ApplyMove(g, m) == placed[k := EMPTY];
    } else {
      assert ApplyMove(g, m) == placed;
    }
  }

  /** A generated move keeps every piece on a dark square. */
  lemma MovePreservesDarkSquares(g: Grid, p: int, m: Move)
    requires IsGrid(g) && OnDarkSquares(g) && m in ValidMoves(g, p)
    ensures OnDarkSquares(ApplyMove(g, m))
  {
    hide ValidMoves;
    var g' := ApplyMove(g, m);
    assert m.from != m.to;
    forall r, c | InBounds(r, c) && At(g', r, c) != EMPTY
      ensures (r + c) % 2 == 1
    {
      if Pos(r, c) == m.to {
        assert At(g, m.from.row, m.from.col) != EMPTY;
        assert (m.from.row + m.from.col) % 2 == 1;
      } else {
        assert At(g', r, c) == At(g, r, c);
      }
    }
  }

  /** From the opening position neither side can capture, so any first move
      leaves the evaluation at 0. */
  lemma OpeningMovesAreSteps(p: int)
    requires p == PLAYER || p == AI
    ensures forall m :: m in ValidMoves(InitialGrid(), p) ==>
              !IsCapture(m) && Score(ApplyMove(InitialGrid(), m)) == 0
  {
    hide ValidMoves, InitialGrid, Score, Count, ApplyMove;
    var g := InitialGrid();
    OpeningPosition();
    forall m | m in ValidMoves(g, p)
      ensures !IsCapture(m) && Score(ApplyMove(g, m)) == 0
    {
      MoveMaterial(g, p, m);
    }
  }
}
