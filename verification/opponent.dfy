/** The computer opponent's move policy: `makeAIMove` and `findForkMove` of
    components/game-board.tsx. Both calls to `Math.random()` are inputs here:
    `gate` decides whether the smart branch runs (`gate < aiDifficulty`) and
    `roll` picks the fallback cell (`floor(roll * |emptyCells|)`); each lies in
    [0, 1) as `Math.random()` does. */
module Opponent {
  import opened Grid
  import opened Rules

  // ---------------------------------------------------------------- win and block

  /** Placing m at the empty cell q makes the trial `checkWinner` report a win
      for m. A trial that reports a draw does not count. */
  predicate Completes(b: Board, n: int, wc: int, q: Pos, m: Player)
    requires WellFormed(b, n)
  {
    && InBounds(n, q)
    && var r := CheckWinner(Place(b, n, q, Mark(m)), n, wc, q.row, q.col);
       r.Win? && r.winner == m
  }

  /** The trial test against the reference definition: for an empty cell and
      wc >= 1, it passes exactly when m at q would stand in a window of wc
      consecutive m marks through q. */
  lemma CompletesIffWins(b: Board, n: int, wc: int, q: Pos, m: Player)
    requires WellFormed(b, n) && IsEmptyAt(b, n, q) && wc >= 1
    ensures Completes(b, n, wc, q, m) <==> WinsThrough(Place(b, n, q, Mark(m)), n, m, q, wc)
  {
    WinDetection(Place(b, n, q, Mark(m)), n, wc, q.row, q.col);
  }

  /** Some empty cell completes a line for m. */
  ghost predicate HasCompleting(b: Board, n: int, wc: int, m: Player)
    requires WellFormed(b, n)
  {
    exists q :: IsEmptyAt(b, n, q) && Completes(b, n, wc, q, m)
  }

  /** q is the first empty cell in row-major order that completes a line for m. */
  ghost predicate FirstCompletingCell(b: Board, n: int, wc: int, m: Player, q: Pos)
    requires WellFormed(b, n)
  {
    && IsEmptyAt(b, n, q)
    && Completes(b, n, wc, q, m)
    && forall q' :: IsEmptyAt(b, n, q') && Before(q', q) ==> !Completes(b, n, wc, q', m)
  }

  /** The `for (const [row, col] of emptyCells)` loops of the win and block
      steps: the first listed cell whose trial placement wins for m. */
  function FirstCompleting(b: Board, n: int, wc: int, cells: seq<Pos>, m: Player): (r: Option<Pos>)
    requires WellFormed(b, n) && Sorted(cells)
    requires forall q :: q in cells ==> IsEmptyAt(b, n, q)
    ensures r.None? <==> forall q :: q in cells ==> !Completes(b, n, wc, q, m)
    ensures r.Some? ==> r.value in cells && Completes(b, n, wc, r.value, m)
    ensures r.Some? ==> forall q :: q in cells && Before(q, r.value) ==> !Completes(b, n, wc, q, m)
  {
    if |cells| == 0 then None
    else if Completes(b, n, wc, cells[0], m) then
      assert forall j :: 0 < j < |cells| ==> Before(cells[0], cells[j]);
      Some(cells[0])
    else
      assert Sorted(cells[1..]);
      assert forall q :: q in cells ==> q == cells[0] || q in cells[1..];
      FirstCompleting(b, n, wc, cells[1..], m)
  }

  /** The win or block step over the whole board. */
  function FindCompleting(b: Board, n: int, wc: int, m: Player): (r: Option<Pos>)
    requires WellFormed(b, n)
    ensures r.None? <==> !HasCompleting(b, n, wc, m)
    ensures r.Some? ==> FirstCompletingCell(b, n, wc, m, r.value)
  {
    var e := EmptyCells(b, n);
    assert forall q :: IsEmptyAt(b, n, q) ==> q in e;
    FirstCompleting(b, n, wc, e, m)
  }

  // ---------------------------------------------------------------- forks

  /** The lines the fork test looks at: a row, a column and the two diagonals. */
  datatype Line = RowLine(i: int) | ColLine(j: int) | MainDiagonal | AntiDiagonalLine

  predicate ValidLine(n: int, l: Line) {
    match l
    case RowLine(i) => 0 <= i < n
    case ColLine(j) => 0 <= j < n
    case _ => true
  }

  /** l is one of the lines the fork test examines for the cell q: its row,
      its column, and a diagonal only when q lies on it. */
  predicate Through(n: int, q: Pos, l: Line) {
    match l
    case RowLine(i) => i == q.row
    case ColLine(j) => j == q.col
    case MainDiagonal => q.row == q.col
    case AntiDiagonalLine => q.row + q.col == n - 1
  }

  /** The cells of a full-width line, in scan order. */
  function LineCells(b: Board, n: int, l: Line): (cells: seq<Cell>)
    requires WellFormed(b, n) && ValidLine(n, l)
    ensures |cells| == n
  {
    match l
    case RowLine(i) => b[i]
    case ColLine(j) => seq(n, r requires 0 <= r < n => b[r][j])
    case MainDiagonal => seq(n, k requires 0 <= k < n => b[k][k])
    case AntiDiagonalLine => seq(n, k requires 0 <= k < n => b[k][n - 1 - k])
  }

  /** No cell of the line holds the other player's mark. */
  predicate NoOpposing(s: seq<Cell>, m: Player) {
    forall k :: 0 <= k < |s| ==> s[k] == Empty || s[k] == Mark(m)
  }

  /** One counting loop of the fork test, from index i with `count` so far:
      m's marks are counted, and an opposing mark sets the count to 0 and
      stops the loop. */
  function ScanLine(line: seq<Cell>, m: Player, i: nat, count: nat): (r: nat)
    requires i <= |line|
    decreases |line| - i
    ensures r == if NoOpposing(line[i..], m) then count + CountOf(line[i..], Mark(m)) else 0
  {
    assert line[i..] == [] || line[i..] == [line[i]] + line[i + 1..];
    if i == |line| then count
    else if line[i] == Mark(m) then ScanLine(line, m, i + 1, count + 1)
    else if line[i] != Empty then 0
    else ScanLine(line, m, i + 1, count)
  }

  /** The test `count > 0 && count === size - 1` applied to a line. */
  predicate Qualifies(line: seq<Cell>, m: Player, n: int) {
    var count := ScanLine(line, m, 0, 0);
    count > 0 && count == n - 1
  }

  /** Reference definition of a threat line: no opposing mark, and all but
      one of its cells (at least one) hold m. */
  ghost predicate Threat(line: seq<Cell>, m: Player) {
    NoOpposing(line, m) && |line| >= 2 && CountOf(line, Mark(m)) == |line| - 1
  }

  /** `winningWays` for the cell q on the board `after` that already holds m
      at q. */
  function WinningWays(after: Board, n: int, m: Player, q: Pos): (w: int)
    requires WellFormed(after, n) && InBounds(n, q)
    ensures 0 <= w <= 4
    ensures q.row != q.col && q.row + q.col != n - 1 ==> w <= 2
  {
    (if Qualifies(LineCells(after, n, RowLine(q.row)), m, n) then 1 else 0)
    + (if Qualifies(LineCells(after, n, ColLine(q.col)), m, n) then 1 else 0)
    + (if q.row == q.col && Qualifies(LineCells(after, n, MainDiagonal), m, n) then 1 else 0)
    + (if q.row + q.col == n - 1 && Qualifies(LineCells(after, n, AntiDiagonalLine), m, n) then 1 else 0)
  }

  /** Reference definition of a fork cell: q is empty, and after m is placed
      there two distinct lines through q are threats for m. */
  ghost predicate IsForkCell(b: Board, n: int, m: Player, q: Pos)
    requires WellFormed(b, n)
  {
    && IsEmptyAt(b, n, q)
    && var after := Place(b, n, q, Mark(m));
       exists l1, l2 ::
         && l1 != l2
         && ValidLine(n, l1) && Through(n, q, l1) && Threat(LineCells(after, n, l1), m)
         && ValidLine(n, l2) && Through(n, q, l2) && Threat(LineCells(after, n, l2), m)
  }

  ghost predicate HasFork(b: Board, n: int, m: Player)
    requires WellFormed(b, n)
  {
    exists q :: IsForkCell(b, n, m, q)
  }

  /** q is the first fork cell for m in row-major order. */
  ghost predicate FirstForkCell(b: Board, n: int, m: Player, q: Pos)
    requires WellFormed(b, n)
  {
    IsForkCell(b, n, m, q) && forall q' :: Before(q', q) ==> !IsForkCell(b, n, m, q')
  }

  /** The code's line test agrees with the reference definition. */
  lemma QualifiesIffThreat(line: seq<Cell>, m: Player, n: int)
    requires |line| == n
    ensures Qualifies(line, m, n) <==> Threat(line, m)
  {
    assert line[0..] == line;
  }

  /** The code's count of winning ways reaches 2 exactly at fork cells. */
  lemma ForkCount(b: Board, n: int, m: Player, q: Pos)
    requires WellFormed(b, n) && IsEmptyAt(b, n, q)
    ensures WinningWays(Place(b, n, q, Mark(m)), n, m, q) >= 2 <==> IsForkCell(b, n, m, q)
  {
    var after := Place(b, n, q, Mark(m));
    var row, col, dia, anti := RowLine(q.row), ColLine(q.col), MainDiagonal, AntiDiagonalLine;
    forall l | ValidLine(n, l) ensures Qualifies(LineCells(after, n, l), m, n) <==> Threat(LineCells(after, n, l), m) {
      QualifiesIffThreat(LineCells(after, n, l), m, n);
    }
    var qr := Threat(LineCells(after, n, row), m);
    var qc := Threat(LineCells(after, n, col), m);
    var qd := q.row == q.col && Threat(LineCells(after, n, dia), m);
    var qa := q.row + q.col == n - 1 && Threat(LineCells(after, n, anti), m);
    if WinningWays(after, n, m, q) >= 2 {
      if qr && qc { assert row != col; }
      else if qr && qd { assert row != dia; }
      else if qr && qa { assert row != anti; }
      else if qc && qd { assert col != dia; }
      else if qc && qa { assert col != anti; }
      else { assert qd && qa && dia != anti; }
    }
    if IsForkCell(b, n, m, q) {
      var l1, l2 :|
        && l1 != l2
        && ValidLine(n, l1) && Through(n, q, l1) && Threat(LineCells(after, n, l1), m)
        && ValidLine(n, l2) && Through(n, q, l2) && Threat(LineCells(after, n, l2), m);
      assert l1 == row || l1 == col || l1 == dia || l1 == anti;
      assert l2 == row || l2 == col || l2 == dia || l2 == anti;
    }
  }

  /** The nested loops of `findForkMove`, over the listed empty cells. */
  function FirstFork(b: Board, n: int, cells: seq<Pos>, m: Player): (r: Option<Pos>)
    requires WellFormed(b, n) && Sorted(cells)
    requires forall q :: q in cells ==> IsEmptyAt(b, n, q)
    ensures r.None? <==> forall q :: q in cells ==> !IsForkCell(b, n, m, q)
    ensures r.Some? ==> r.value in cells && IsForkCell(b, n, m, r.value)
    ensures r.Some? ==> forall q :: q in cells && Before(q, r.value) ==> !IsForkCell(b, n, m, q)
  {
    if |cells| == 0 then None
    else
      var q := cells[0];
      ForkCount(b, n, m, q);
      if WinningWays(Place(b, n, q, Mark(m)), n, m, q) >= 2 then
        assert forall j :: 0 < j < |cells| ==> Before(cells[0], cells[j]);
        Some(q)
      else
        assert Sorted(cells[1..]);
        assert forall q' :: q' in cells ==> q' == cells[0] || q' in cells[1..];
        FirstFork(b, n, cells[1..], m)
  }

  /** `findForkMove(board, player)`: the first cell in row-major order where
      placing m creates two threat lines, or nothing when there is none. */
  function FindForkMove(b: Board, n: int, m: Player): (r: Option<Pos>)
    requires WellFormed(b, n)
    ensures r.None? <==> !HasFork(b, n, m)
    ensures r.Some? ==> FirstForkCell(b, n, m, r.value)
  {
    var e := EmptyCells(b, n);
    var r := FirstFork(b, n, e, m);
    assert forall q :: IsForkCell(b, n, m, q) ==> q in e;
    r
  }

  // ---------------------------------------------------------------- centre and corners

  /** `Math.floor(size / 2)` in both coordinates. */
  function Centre(n: int): (c: Pos) {
    Pos(n / 2, n / 2)
  }

  /** Top-left, top-right, bottom-left, bottom-right. */
  function Corners(n: int): (corners: seq<Pos>) {
    [Pos(0, 0), Pos(0, n - 1), Pos(n - 1, 0), Pos(n - 1, n - 1)]
  }

  /** The first empty cell of a list of on-board cells. */
  function FirstEmpty(b: Board, n: int, cells: seq<Pos>): (r: Option<Pos>)
    requires WellFormed(b, n) && forall k :: 0 <= k < |cells| ==> InBounds(n, cells[k])
    ensures r.None? <==> forall k :: 0 <= k < |cells| ==> At(b, n, cells[k]) != Empty
    ensures r.Some? ==> exists k :: 0 <= k < |cells| && cells[k] == r.value && At(b, n, cells[k]) == Empty
                                    && forall j :: 0 <= j < k ==> At(b, n, cells[j]) != Empty
  {
    if |cells| == 0 then None
    else if At(b, n, cells[0]) == Empty then Some(cells[0])
    else
      var r := FirstEmpty(b, n, cells[1..]);
      assert r.Some? ==> exists k :: 0 <= k < |cells| && cells[k] == r.value && At(b, n, cells[k]) == Empty
                                     && forall j :: 0 <= j < k ==> At(b, n, cells[j]) != Empty by {
        if r.Some? {
          var k :| 0 <= k < |cells[1..]| && cells[1..][k] == r.value && At(b, n, cells[1..][k]) == Empty
                   && forall j :: 0 <= j < k ==> At(b, n, cells[1..][j]) != Empty;
          assert cells[k + 1] == r.value;
        }
      }
      r
  }

  /** The centre-and-corners step: the centre when it is empty, otherwise the
      first empty corner in the order top-left, top-right, bottom-left,
      bottom-right, otherwise nothing. */
  function Strategic(b: Board, n: int): (r: Option<Pos>)
    requires WellFormed(b, n) && n >= 1
    ensures r.Some? ==> IsEmptyAt(b, n, r.value)
    ensures At(b, n, Centre(n)) == Empty ==> r == Some(Centre(n))
    ensures At(b, n, Centre(n)) != Empty ==>
              (r.None? <==> forall k :: 0 <= k < 4 ==> At(b, n, Corners(n)[k]) != Empty)
    ensures At(b, n, Centre(n)) != Empty && r.Some? ==>
              exists k :: 0 <= k < 4 && r.value == Corners(n)[k]
                          && forall j :: 0 <= j < k ==> At(b, n, Corners(n)[j]) != Empty
  {
    if At(b, n, Centre(n)) == Empty then Some(Centre(n))
    else FirstEmpty(b, n, Corners(n))
  }

  // ---------------------------------------------------------------- the policy

  /** The smart branch: win, else block, else (difficulty above 0.7) create a
      fork, else block the player's fork, else (difficulty above 0.8) centre
      and corners. Every step takes the first qualifying cell in row-major
      order; `None` means the random fallback decides. */
  function SmartMove(b: Board, n: int, wc: int, difficulty: real): (r: Option<Pos>)
    requires WellFormed(b, n) && n >= 1
    ensures r.Some? ==> IsEmptyAt(b, n, r.value)
    ensures HasCompleting(b, n, wc, O) ==>
              r.Some? && FirstCompletingCell(b, n, wc, O, r.value)
    ensures !HasCompleting(b, n, wc, O) && HasCompleting(b, n, wc, X) ==>
              r.Some? && FirstCompletingCell(b, n, wc, X, r.value)
    ensures !HasCompleting(b, n, wc, O) && !HasCompleting(b, n, wc, X) && difficulty > 0.7 && HasFork(b, n, O) ==>
              r.Some? && FirstForkCell(b, n, O, r.value)
    ensures !HasCompleting(b, n, wc, O) && !HasCompleting(b, n, wc, X) && difficulty > 0.7
            && !HasFork(b, n, O) && HasFork(b, n, X) ==>
              r.Some? && FirstForkCell(b, n, X, r.value)
    ensures !HasCompleting(b, n, wc, O) && !HasCompleting(b, n, wc, X)
            && (difficulty <= 0.7 || (!HasFork(b, n, O) && !HasFork(b, n, X))) ==>
              r == (if difficulty > 0.8 then Strategic(b, n) else None)
  {
    var win := FindCompleting(b, n, wc, O);
    if win.Some? then win
    else
      var block := FindCompleting(b, n, wc, X);
      if block.Some? then block
      else
        var fork := if difficulty > 0.7 then
                      var own := FindForkMove(b, n, O);
                      if own.Some? then own else FindForkMove(b, n, X)
                    else None;
        if fork.Some? then fork
        else if difficulty > 0.8 then Strategic(b, n)
        else None
  }

  /** `Math.floor(Math.random() * emptyCells.length)`. */
  function RandomIndex(roll: real, len: nat): (k: nat)
    requires 0.0 <= roll < 1.0 && len > 0
    ensures k < len
  {
    assert 0.0 <= roll * len as real < len as real;
    (roll * len as real).Floor
  }

  /** The cell `makeAIMove` writes O into: nothing on a full board; otherwise
      the smart branch when `gate < difficulty` and it finds a cell, else the
      random pick from the empty-cell list. */
  function ChooseMove(b: Board, n: int, wc: int, difficulty: real, gate: real, roll: real): (r: Option<Pos>)
    requires WellFormed(b, n) && 0.0 <= gate < 1.0 && 0.0 <= roll < 1.0
    ensures r.None? <==> Full(b)
    ensures r.Some? ==> IsEmptyAt(b, n, r.value)
    ensures !Full(b) && gate >= difficulty ==>
              r == Some(EmptyCells(b, n)[RandomIndex(roll, |EmptyCells(b, n)|)])
    ensures gate < difficulty && HasCompleting(b, n, wc, O) ==>
              r.Some? && FirstCompletingCell(b, n, wc, O, r.value)
    ensures gate < difficulty && !HasCompleting(b, n, wc, O) && HasCompleting(b, n, wc, X) ==>
              r.Some? && FirstCompletingCell(b, n, wc, X, r.value)
    ensures !Full(b) && gate < difficulty ==>
              && n >= 1
              && var smart := SmartMove(b, n, wc, difficulty);
                 r == if smart.Some? then smart else Some(EmptyCells(b, n)[RandomIndex(roll, |EmptyCells(b, n)|)])
  {
    var e := EmptyCells(b, n);
    FullIffNoEmptyCells(b, n);
    if |e| == 0 then None
    else
      assert e[0] in e;
      var smart := if gate < difficulty then SmartMove(b, n, wc, difficulty) else None;
      if smart.Some? then smart
      else
        var k := RandomIndex(roll, |e|);
        assert e[k] in e;
        Some(e[k])
  }
}
