/** Cells, positions and the square board shared by the rules, the opponent
    and the match (components/game-board.tsx). */
module Grid {

  /** Optional value; `None` plays the part of `undefined` in the game code. */
  datatype Option<T> = None | Some(value: T)

  /** The two marks: X is the human player, O the computer opponent. */
  datatype Player = X | O

  /** One square of the board: `Empty` is the game's `null`. */
  datatype Cell = Empty | Mark(owner: Player)

  /** A (row, column) coordinate. Values off the board are representable and
      are rejected by `InBounds`. */
  datatype Pos = Pos(row: int, col: int)

  /** Rows of cells, top to bottom. */
  type Board = seq<seq<Cell>>

  /** `b` is an n-by-n grid. */
  predicate WellFormed(b: Board, n: int) {
    |b| == n && forall r :: 0 <= r < n ==> |b[r]| == n
  }

  predicate InBounds(n: int, q: Pos) {
    0 <= q.row < n && 0 <= q.col < n
  }

  function At(b: Board, n: int, q: Pos): (c: Cell)
    requires WellFormed(b, n) && InBounds(n, q)
  {
    b[q.row][q.col]
  }

  predicate IsEmptyAt(b: Board, n: int, q: Pos)
    requires WellFormed(b, n)
  {
    InBounds(n, q) && At(b, n, q) == Empty
  }

  /** An n-by-n board with every cell empty. */
  ghost predicate Cleared(b: Board, n: int) {
    WellFormed(b, n) && forall q :: InBounds(n, q) ==> At(b, n, q) == Empty
  }

  /** The fresh board a match starts from. */
  function EmptyBoard(n: nat): (b: Board)
    ensures Cleared(b, n)
  {
    seq(n, _ => seq(n, _ => Empty))
  }

  /** The copied board with one cell overwritten. */
  function Place(b: Board, n: int, q: Pos, c: Cell): (b': Board)
    requires WellFormed(b, n) && InBounds(n, q)
    ensures WellFormed(b', n)
    ensures At(b', n, q) == c
    ensures forall q' :: InBounds(n, q') && q' != q ==> At(b', n, q') == At(b, n, q')
  {
    b[q.row := b[q.row][q.col := c]]
  }

  /** No cell of any row is empty. */
  predicate Full(b: Board) {
    forall r, c :: 0 <= r < |b| && 0 <= c < |b[r]| ==> b[r][c] != Empty
  }

  /** The number of cells of a row or line equal to c. */
  function CountOf(s: seq<Cell>, c: Cell): (k: nat) {
    if |s| == 0 then 0 else (if s[0] == c then 1 else 0) + CountOf(s[1..], c)
  }

  /** The number of cells of the board equal to c. */
  function CountBoard(b: Board, c: Cell): (k: nat) {
    if |b| == 0 then 0 else CountOf(b[0], c) + CountBoard(b[1..], c)
  }

  /** Overwriting one cell of a row changes its count of c by at most one. */
  lemma {:induction false} CountOfUpdate(s: seq<Cell>, j: int, v: Cell, c: Cell)
    requires 0 <= j < |s|
    ensures CountOf(s[j := v], c) == CountOf(s, c) - (if s[j] == c then 1 else 0) + (if v == c then 1 else 0)
    decreases j
  {
    if j > 0 {
      assert s[j := v][1..] == s[1..][j - 1 := v];
      CountOfUpdate(s[1..], j - 1, v, c);
    }
  }

  /** Replacing one row changes the board's count by the rows' difference. */
  lemma {:induction false} CountBoardUpdate(b: Board, i: int, row: seq<Cell>, c: Cell)
    requires 0 <= i < |b|
    ensures CountBoard(b[i := row], c) == CountBoard(b, c) - CountOf(b[i], c) + CountOf(row, c)
    decreases i
  {
    if i > 0 {
      assert b[i := row][1..] == b[1..][i - 1 := row];
      CountBoardUpdate(b[1..], i - 1, row, c);
    }
  }

  /** Writing a mark into an empty cell adds one to that mark's count and
      leaves the count of every other non-empty value alone. */
  lemma PlaceCounts(b: Board, n: int, q: Pos, p: Player, c: Cell)
    requires WellFormed(b, n) && IsEmptyAt(b, n, q) && c != Empty
    ensures CountBoard(Place(b, n, q, Mark(p)), c) == CountBoard(b, c) + (if c == Mark(p) then 1 else 0)
  {
    CountOfUpdate(b[q.row], q.col, Mark(p), c);
    CountBoardUpdate(b, q.row, b[q.row][q.col := Mark(p)], c);
  }

  /** An empty board holds no marks. */
  lemma {:induction false} EmptyBoardCounts(n: nat, c: Cell)
    requires c != Empty
    ensures CountBoard(EmptyBoard(n), c) == 0
  {
    var b := EmptyBoard(n);
    forall r | 0 <= r < n ensures CountOf(b[r], c) == 0 {
      NoneOf(b[r], c);
    }
    NoneOfBoard(b, c);
  }

  lemma {:induction false} NoneOf(s: seq<Cell>, c: Cell)
    requires forall k :: 0 <= k < |s| ==> s[k] != c
    ensures CountOf(s, c) == 0
  {
    if |s| > 0 {
      NoneOf(s[1..], c);
    }
  }

  lemma {:induction false} NoneOfBoard(b: Board, c: Cell)
    requires forall r :: 0 <= r < |b| ==> CountOf(b[r], c) == 0
    ensures CountBoard(b, c) == 0
  {
    if |b| > 0 {
      NoneOfBoard(b[1..], c);
    }
  }

  /** Strict row-major order: top to bottom, then left to right. */
  predicate Before(p: Pos, q: Pos) {
    p.row < q.row || (p.row == q.row && p.col < q.col)
  }

  /** Strictly increasing in row-major order (so also free of duplicates). */
  predicate Sorted(s: seq<Pos>) {
    forall i, j :: 0 <= i < j < |s| ==> Before(s[i], s[j])
  }

  /** The empty cells of row r from column c on, left to right. */
  function RowEmpties(b: Board, n: int, r: int, c: int): (e: seq<Pos>)
    requires WellFormed(b, n) && 0 <= r < n && 0 <= c <= n
    decreases n - c
    ensures forall k :: 0 <= k < |e| ==> e[k].row == r && c <= e[k].col && IsEmptyAt(b, n, e[k])
    ensures forall j :: c <= j < n && b[r][j] == Empty ==> Pos(r, j) in e
    ensures Sorted(e)
  {
    if c == n then []
    else if b[r][c] == Empty then [Pos(r, c)] + RowEmpties(b, n, r, c + 1)
    else RowEmpties(b, n, r, c + 1)
  }

  /** The empty cells of rows r, r+1, ..., in row-major order. */
  function EmptiesFrom(b: Board, n: int, r: int): (e: seq<Pos>)
    requires WellFormed(b, n) && 0 <= r <= n
    decreases n - r
    ensures forall k :: 0 <= k < |e| ==> r <= e[k].row && IsEmptyAt(b, n, e[k])
    ensures forall q: Pos :: r <= q.row && IsEmptyAt(b, n, q) ==> q in e
    ensures Sorted(e)
  {
    if r == n then []
    else
      var here := RowEmpties(b, n, r, 0);
      var rest := EmptiesFrom(b, n, r + 1);
      assert forall q: Pos :: r == q.row && IsEmptyAt(b, n, q) ==> q in here by {
        forall q: Pos | r == q.row && IsEmptyAt(b, n, q) ensures q in here {
          assert b[r][q.col] == Empty;
          assert q == Pos(r, q.col);
        }
      }
      here + rest
  }

  /** The `emptyCells` list of the opponent: every empty cell exactly once,
      in the row-major order of the nested scan. */
  function EmptyCells(b: Board, n: int): (e: seq<Pos>)
    requires WellFormed(b, n)
    ensures Sorted(e)
    ensures forall q :: q in e <==> IsEmptyAt(b, n, q)
  {
    EmptiesFrom(b, n, 0)
  }

  /** The board is full exactly when the empty-cell scan finds nothing. */
  lemma FullIffNoEmptyCells(b: Board, n: int)
    requires WellFormed(b, n)
    ensures Full(b) <==> |EmptyCells(b, n)| == 0
  {
    var e := EmptyCells(b, n);
    if !Full(b) {
      var r, c :| 0 <= r < |b| && 0 <= c < |b[r]| && b[r][c] == Empty;
      assert IsEmptyAt(b, n, Pos(r, c));
      assert Pos(r, c) in e;
    }
    if |e| > 0 {
      var q := e[0];
      assert q in e;
      assert b[q.row][q.col] == Empty;
    }
  }
}
