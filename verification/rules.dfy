/** Win and draw detection: `checkWinner` of components/game-board.tsx, which
    looks only at the four lines through the cell just played. */
module Rules {
  import opened Grid

  /** What `checkWinner` reports. A win carries the cells that made it (the
      game's `winningCells`); a draw and "nothing yet" carry none. */
  datatype Outcome = NoOutcome | Win(winner: Player, cells: seq<Pos>) | Draw

  /** The four scan directions (row step, column step): (0,1), (1,0), (1,1), (1,-1). */
  datatype Dir = Horizontal | Vertical | Diagonal | AntiDiagonal

  /** The order in which the scan tries the directions. */
  const Directions: seq<Dir> := [Horizontal, Vertical, Diagonal, AntiDiagonal]

  /** The cell k steps from `origin` along d; a negative k steps backwards. */
  function Step(origin: Pos, d: Dir, k: int): (q: Pos) {
    match d
    case Horizontal => Pos(origin.row, origin.col + k)
    case Vertical => Pos(origin.row + k, origin.col)
    case Diagonal => Pos(origin.row + k, origin.col + k)
    case AntiDiagonal => Pos(origin.row + k, origin.col - k)
  }

  /** q is on the board and holds m. */
  predicate Holds(b: Board, n: int, q: Pos, m: Player)
    requires WellFormed(b, n)
  {
    InBounds(n, q) && At(b, n, q) == Mark(m)
  }

  function Offset(forward: bool, i: int): (k: int) {
    if forward then i else -i
  }

  /** One of the two inner loops: the cells at steps i, i+1, ... (below
      `limit`) away from `origin`, forwards or backwards, as long as they are
      on the board and hold m. */
  function Ray(b: Board, n: int, m: Player, origin: Pos, d: Dir, forward: bool, i: int, limit: int): (ray: seq<Pos>)
    requires WellFormed(b, n)
    decreases limit - i
    ensures |ray| <= if i < limit then limit - i else 0
    ensures forall k :: 0 <= k < |ray| ==>
              ray[k] == Step(origin, d, Offset(forward, i + k)) && Holds(b, n, ray[k], m)
  {
    if i >= limit then []
    else
      var q := Step(origin, d, Offset(forward, i));
      if Holds(b, n, q, m) then [q] + Ray(b, n, m, origin, d, forward, i + 1, limit) else []
  }

  /** Every cell of `cells` lies on the line through `origin` along d, at
      most wc - 1 steps away from it in either direction. */
  ghost predicate AlongLine(origin: Pos, d: Dir, wc: int, cells: seq<Pos>) {
    forall q :: q in cells ==> exists k :: 1 - wc <= k <= wc - 1 && q == Step(origin, d, k)
  }

  /** A run starting one step out stays within wc - 1 steps of `origin`. */
  lemma RayAlong(b: Board, n: int, m: Player, origin: Pos, d: Dir, forward: bool, wc: int)
    requires WellFormed(b, n)
    ensures AlongLine(origin, d, wc, Ray(b, n, m, origin, d, forward, 1, wc))
  {
    var ray := Ray(b, n, m, origin, d, forward, 1, wc);
    forall q | q in ray ensures exists k :: 1 - wc <= k <= wc - 1 && q == Step(origin, d, k) {
      var i :| 0 <= i < |ray| && ray[i] == q;
      assert q == Step(origin, d, Offset(forward, 1 + i));
    }
  }

  /** The `winCells` list built for one direction: the played cell, then the
      forward run, then the backward run, each run capped at wc - 1 cells. */
  function DirectionCells(b: Board, n: int, wc: int, m: Player, origin: Pos, d: Dir): (cells: seq<Pos>)
    requires WellFormed(b, n)
    ensures |cells| >= 1 && cells[0] == origin
    ensures wc >= 1 ==> |cells| <= 2 * wc - 1
    ensures forall k :: 1 <= k < |cells| ==> Holds(b, n, cells[k], m)
    ensures wc >= 1 ==> AlongLine(origin, d, wc, cells)
  {
    var f := Ray(b, n, m, origin, d, true, 1, wc);
    var g := Ray(b, n, m, origin, d, false, 1, wc);
    RayAlong(b, n, m, origin, d, true, wc);
    RayAlong(b, n, m, origin, d, false, wc);
    assert Step(origin, d, 0) == origin;
    var cells := [origin] + f + g;
    assert forall q :: q in cells ==> q == origin || q in f || q in g;
    cells
  }

  /** The cells at steps s .. s+len-1 from `origin` along d all hold m. */
  ghost predicate Segment(b: Board, n: int, m: Player, origin: Pos, d: Dir, s: int, len: int)
    requires WellFormed(b, n)
  {
    forall k :: s <= k < s + len ==> Holds(b, n, Step(origin, d, k), m)
  }

  /** Reference definition of a win through `origin`: some window of wc
      consecutive cells along d that contains `origin` is all m. */
  ghost predicate LineThrough(b: Board, n: int, m: Player, origin: Pos, d: Dir, wc: int)
    requires WellFormed(b, n)
  {
    exists s :: 1 - wc <= s <= 0 && Segment(b, n, m, origin, d, s, wc)
  }

  /** Some direction has a winning window through `origin` for m. */
  ghost predicate WinsThrough(b: Board, n: int, m: Player, origin: Pos, wc: int)
    requires WellFormed(b, n)
  {
    exists d :: LineThrough(b, n, m, origin, d, wc)
  }

  /** What a reported win promises about its cell list: it lies on one line
      through `origin`, contains it, and holds only m. The list is not trimmed
      to wc cells: it may hold up to 2*wc - 1 of them. */
  ghost predicate WinEvidence(b: Board, n: int, wc: int, origin: Pos, m: Player, cells: seq<Pos>)
    requires WellFormed(b, n)
  {
    && (wc >= 1 ==> exists d :: AlongLine(origin, d, wc, cells))
    && origin in cells
    && (forall q :: q in cells ==> Holds(b, n, q, m))
    && wc <= |cells|
    && (wc >= 1 ==> |cells| <= 2 * wc - 1)
  }

  /** A ray keeps going over every consecutive cell that holds m. */
  lemma {:induction false} RayReaches(b: Board, n: int, m: Player, origin: Pos, d: Dir, forward: bool, i: int, limit: int, t: int)
    requires WellFormed(b, n)
    requires 0 <= t && i + t <= limit
    requires forall k :: i <= k < i + t ==> Holds(b, n, Step(origin, d, Offset(forward, k)), m)
    ensures |Ray(b, n, m, origin, d, forward, i, limit)| >= t
    decreases t
  {
    if t > 0 {
      RayReaches(b, n, m, origin, d, forward, i + 1, limit, t - 1);
    }
  }

  /** The scan's count for one direction reaches wc exactly when a window of
      wc cells through the played cell is all m. */
  lemma DirectionWinsIffLine(b: Board, n: int, wc: int, m: Player, origin: Pos, d: Dir)
    requires WellFormed(b, n) && wc >= 1 && Holds(b, n, origin, m)
    ensures |DirectionCells(b, n, wc, m, origin, d)| >= wc <==> LineThrough(b, n, m, origin, d, wc)
  {
    var f := Ray(b, n, m, origin, d, true, 1, wc);
    var g := Ray(b, n, m, origin, d, false, 1, wc);
    assert Step(origin, d, 0) == origin;
    if 1 + |f| + |g| >= wc {
      var s := -|g|;
      forall k | s <= k < s + wc
        ensures Holds(b, n, Step(origin, d, k), m)
      {
        if k > 0 {
          assert f[k - 1] == Step(origin, d, Offset(true, 1 + (k - 1)));
        } else if k < 0 {
          assert g[-k - 1] == Step(origin, d, Offset(false, 1 + (-k - 1)));
        }
      }
      assert Segment(b, n, m, origin, d, s, wc);
    }
    if LineThrough(b, n, m, origin, d, wc) {
      var s :| 1 - wc <= s <= 0 && Segment(b, n, m, origin, d, s, wc);
      forall k | 1 <= k < 1 + (s + wc - 1)
        ensures Holds(b, n, Step(origin, d, Offset(true, k)), m)
      {
        assert s <= k < s + wc;
      }
      RayReaches(b, n, m, origin, d, true, 1, wc, s + wc - 1);
      forall k | 1 <= k < 1 + -s
        ensures Holds(b, n, Step(origin, d, Offset(false, k)), m)
      {
        assert s <= -k < s + wc;
      }
      RayReaches(b, n, m, origin, d, false, 1, wc, -s);
    }
  }

  /** `cells` is the list of the first direction, from index k on, whose
      list reaches wc cells. */
  ghost predicate RunFrom(b: Board, n: int, wc: int, m: Player, origin: Pos, k: nat, cells: seq<Pos>)
    requires WellFormed(b, n)
  {
    exists j :: k <= j < |Directions| && cells == DirectionCells(b, n, wc, m, origin, Directions[j])
                && forall j' :: k <= j' < j ==> |DirectionCells(b, n, wc, m, origin, Directions[j'])| < wc
  }

  /** `cells` is the list of the first direction, in the order horizontal,
      vertical, diagonal, anti-diagonal, whose list reaches wc cells. */
  ghost predicate FirstRun(b: Board, n: int, wc: int, m: Player, origin: Pos, cells: seq<Pos>)
    requires WellFormed(b, n)
  {
    RunFrom(b, n, wc, m, origin, 0, cells)
  }

  /** The direction loop, from direction index k on: the first direction whose
      count reaches wc wins; after the last one, the draw check. */
  function ScanDirections(b: Board, n: int, wc: int, m: Player, origin: Pos, k: nat): (r: Outcome)
    requires WellFormed(b, n) && Holds(b, n, origin, m) && k <= |Directions|
    decreases |Directions| - k
    ensures r.Win? ==> r.winner == m && WinEvidence(b, n, wc, origin, m, r.cells)
    ensures r.Draw? ==> Full(b)
    ensures r.NoOutcome? ==> !Full(b)
    ensures r.Win? <==> exists j :: k <= j < |Directions| && |DirectionCells(b, n, wc, m, origin, Directions[j])| >= wc
    ensures r.Win? ==> RunFrom(b, n, wc, m, origin, k, r.cells)
  {
    if k == |Directions| then
      if Full(b) then Draw else NoOutcome
    else
      var cells := DirectionCells(b, n, wc, m, origin, Directions[k]);
      if |cells| >= wc then
        assert forall q :: q in cells ==> Holds(b, n, q, m);
        assert wc >= 1 ==> AlongLine(origin, Directions[k], wc, cells);
        Win(m, cells)
      else
        ScanDirections(b, n, wc, m, origin, k + 1)
  }

  /** `checkWinner(board, row, col)`: an empty played cell yields nothing; a
      win names the mark on the played cell together with its evidence; a draw
      is reported only on a full board; "nothing yet" on a non-empty cell means
      the board still has room. */
  function CheckWinner(b: Board, n: int, wc: int, row: int, col: int): (r: Outcome)
    requires WellFormed(b, n) && InBounds(n, Pos(row, col))
    ensures b[row][col] == Empty ==> r == NoOutcome
    ensures r.Win? ==> b[row][col] == Mark(r.winner) && WinEvidence(b, n, wc, Pos(row, col), r.winner, r.cells)
    ensures r.Win? ==> FirstRun(b, n, wc, r.winner, Pos(row, col), r.cells)
    ensures r.Draw? ==> b[row][col] != Empty && Full(b)
    ensures r.NoOutcome? && b[row][col] != Empty ==> !Full(b)
  {
    match b[row][col]
    case Empty => NoOutcome
    case Mark(m) => ScanDirections(b, n, wc, m, Pos(row, col), 0)
  }

  /** Win detection against the reference definition: with wc >= 1, the
      result is a win exactly when some direction holds wc consecutive marks
      through the played cell, a draw exactly when none does and the board is
      full, and nothing otherwise. */
  lemma WinDetection(b: Board, n: int, wc: int, row: int, col: int)
    requires WellFormed(b, n) && InBounds(n, Pos(row, col)) && wc >= 1
    ensures var r := CheckWinner(b, n, wc, row, col);
      && (r.Win? <==> b[row][col] != Empty && WinsThrough(b, n, b[row][col].owner, Pos(row, col), wc))
      && (r.Draw? <==> b[row][col] != Empty && !WinsThrough(b, n, b[row][col].owner, Pos(row, col), wc) && Full(b))
      && (r.NoOutcome? <==> b[row][col] == Empty || (!WinsThrough(b, n, b[row][col].owner, Pos(row, col), wc) && !Full(b)))
  {
    var origin := Pos(row, col);
    if b[row][col] != Empty {
      var m := b[row][col].owner;
      assert Holds(b, n, origin, m);
      forall d ensures |DirectionCells(b, n, wc, m, origin, d)| >= wc <==> LineThrough(b, n, m, origin, d, wc) {
        DirectionWinsIffLine(b, n, wc, m, origin, d);
      }
      var r := ScanDirections(b, n, wc, m, origin, 0);
      if r.Win? {
        var j :| 0 <= j < |Directions| && |DirectionCells(b, n, wc, m, origin, Directions[j])| >= wc;
        assert LineThrough(b, n, m, origin, Directions[j], wc);
      }
      if WinsThrough(b, n, m, origin, wc) {
        var d :| LineThrough(b, n, m, origin, d, wc);
        var j := match d
          case Horizontal => 0
          case Vertical => 1
          case Diagonal => 2
          case AntiDiagonal => 3;
        assert Directions[j] == d;
        assert |DirectionCells(b, n, wc, m, origin, Directions[j])| >= wc;
      }
    }
  }

  /** Three X marks across the top row: the win lists the played corner first,
      then the run walked backwards. */
  lemma RowWinExample()
    ensures CheckWinner([[Mark(X), Mark(X), Mark(X)], [Empty, Empty, Empty], [Empty, Empty, Empty]], 3, 3, 0, 2)
            == Win(X, [Pos(0, 2), Pos(0, 1), Pos(0, 0)])
  {
    var e := [Empty, Empty, Empty];
    var b := [[Mark(X), Mark(X), Mark(X)], e, e];
    assert Ray(b, 3, X, Pos(0, 2), Horizontal, true, 1, 3) == [];
    assert Ray(b, 3, X, Pos(0, 2), Horizontal, false, 2, 3) == [Pos(0, 0)];
    assert Ray(b, 3, X, Pos(0, 2), Horizontal, false, 1, 3) == [Pos(0, 1), Pos(0, 0)];
  }

  /** A full board with no line of three is a draw. */
  lemma DrawExample()
    ensures CheckWinner([[Mark(X), Mark(O), Mark(X)], [Mark(X), Mark(O), Mark(O)], [Mark(O), Mark(X), Mark(X)]], 3, 3, 2, 2)
            == Draw
  {
  }

  /** The win list is not trimmed: four in a row on a board that needs three
      reports all four cells. */
  lemma UntrimmedWinCells()
    ensures var e := [Empty, Empty, Empty, Empty];
      CheckWinner([[Mark(X), Mark(X), Mark(X), Mark(X)], e, e, e], 4, 3, 0, 1)
        == Win(X, [Pos(0, 1), Pos(0, 2), Pos(0, 3), Pos(0, 0)])
  {
    var e := [Empty, Empty, Empty, Empty];
    var b := [[Mark(X), Mark(X), Mark(X), Mark(X)], e, e, e];
    assert Ray(b, 4, X, Pos(0, 1), Horizontal, true, 2, 3) == [Pos(0, 3)];
    assert Ray(b, 4, X, Pos(0, 1), Horizontal, true, 1, 3) == [Pos(0, 2), Pos(0, 3)];
    assert Ray(b, 4, X, Pos(0, 1), Horizontal, false, 1, 3) == [Pos(0, 0)];
  }
}
