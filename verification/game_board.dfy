/** One mounted `GameBoard` (components/game-board.tsx): the board, whose
    turn it is, the outcome with its winning cells, the two score tallies, and
    the transitions the component performs. Timers and effects are explicit
    steps: the 500 ms opponent delay is `OpponentMove`, the 1500 ms auto-reset
    is `AutoReset`, and the `winner` effect is `ScoreOutcome`. */
module GameBoard {
  import opened Grid
  import opened Rules
  import opened Opponent

  /** The props the game logic reads. */
  datatype Config = Config(size: nat, winCondition: int, aiDifficulty: real, stageId: int)

  /** The defaults of the props destructuring: 3x3, three in a row, 0.5, stage 1. */
  const DefaultConfig: Config := Config(3, 3, 0.5, 1)

  /** The component's state. `winner` and `winningCells` are always set
      together, so they are one `Outcome`. */
  datatype Match = Match(
    cfg: Config,
    board: Board,
    turn: Player,
    outcome: Outcome,
    playerScore: nat,
    aiScore: nat)

  /** A transition's new state and whether it called `onStageComplete`. */
  datatype Reaction = Reaction(next: Match, stageComplete: bool)

  function Other(p: Player): (q: Player) {
    if p == X then O else X
  }

  /** The board has the configured size. */
  predicate Shaped(m: Match) {
    WellFormed(m.board, m.cfg.size)
  }

  /** Marks on the board: X has made as many moves as O, or one more. Before
      the outcome it is X's turn exactly when the counts are equal; once the
      match is decided the turn still names whoever made the last move. */
  ghost predicate Balanced(m: Match)
    requires Shaped(m)
  {
    var xs, os := CountBoard(m.board, Mark(X)), CountBoard(m.board, Mark(O));
    if m.outcome.NoOutcome? then
      xs == os + (if m.turn == O then 1 else 0)
    else
      xs == os + (if m.turn == X then 1 else 0)
  }

  /** The invariant of every reachable state: the board has its size, the
      marks are balanced, a pending opponent turn has a cell to play, a draw
      is on a full board, and winning cells hold the winner's mark. */
  ghost predicate Valid(m: Match) {
    && Shaped(m)
    && Balanced(m)
    && (m.turn == O && m.outcome.NoOutcome? ==> !Full(m.board))
    && (m.outcome.Draw? ==> Full(m.board))
    && (m.outcome.Win? ==> forall q :: q in m.outcome.cells ==> Holds(m.board, m.cfg.size, q, m.outcome.winner))
  }

  /** `winsRequired`: 3 for stages up to 3, 4 up to 6, else 5. */
  function WinsRequired(stageId: int): (w: int)
    ensures 3 <= w <= 5
    ensures stageId <= 3 ==> w == 3
  {
    if stageId <= 3 then 3 else if stageId <= 6 then 4 else 5
  }

  /** Later stages never need fewer wins. */
  lemma WinsRequiredMonotone(a: int, b: int)
    requires a <= b
    ensures WinsRequired(a) <= WinsRequired(b)
  {
  }

  /** A freshly mounted board: empty, X to play, no outcome, both scores 0. */
  function NewMatch(cfg: Config): (m: Match)
    ensures Valid(m) && Cleared(m.board, cfg.size)
    ensures m.cfg == cfg && m.turn == X && m.outcome == NoOutcome
    ensures m.playerScore == 0 && m.aiScore == 0
  {
    EmptyBoardCounts(cfg.size, Mark(X));
    EmptyBoardCounts(cfg.size, Mark(O));
    Match(cfg, EmptyBoard(cfg.size), X, NoOutcome, 0, 0)
  }

  /** `resetBoard`: a cleared board, X to play, no outcome; scores kept. */
  function ResetBoard(m: Match): (r: Match)
    ensures Valid(r) && Cleared(r.board, m.cfg.size)
    ensures r.turn == X && r.outcome == NoOutcome
    ensures r.cfg == m.cfg && r.playerScore == m.playerScore && r.aiScore == m.aiScore
  {
    var cleared := NewMatch(m.cfg);
    cleared.(playerScore := m.playerScore, aiScore := m.aiScore)
  }

  /** `resetGame`: `resetBoard` and both scores back to 0, which is the
      freshly mounted state. (It also calls `onReset`; see `Page.ResetAll`.) */
  function ResetGame(m: Match): (r: Match)
    ensures r == NewMatch(m.cfg)
    ensures r.playerScore == 0 && r.aiScore == 0
  {
    ResetBoard(m).(playerScore := 0, aiScore := 0)
  }

  /** r is m after p played the empty cell q: only q changed, the outcome is
      the `checkWinner` verdict for q, and the turn passes to the other
      player unless that verdict ends the match. Scores and props unchanged. */
  ghost predicate Played(m: Match, r: Match, q: Pos, p: Player)
    requires Shaped(m)
  {
    var n := m.cfg.size;
    && IsEmptyAt(m.board, n, q)
    && r.cfg == m.cfg
    && WellFormed(r.board, n)
    && At(r.board, n, q) == Mark(p)
    && (forall q' :: InBounds(n, q') && q' != q ==> At(r.board, n, q') == At(m.board, n, q'))
    && r.outcome == CheckWinner(r.board, n, m.cfg.winCondition, q.row, q.col)
    && r.turn == (if r.outcome.NoOutcome? then Other(p) else p)
    && r.playerScore == m.playerScore && r.aiScore == m.aiScore
  }

  /** Writing p into the empty cell q and evaluating the move. */
  function Move(m: Match, q: Pos, p: Player): (r: Match)
    requires Shaped(m) && IsEmptyAt(m.board, m.cfg.size, q)
    ensures Played(m, r, q, p)
  {
    var n := m.cfg.size;
    var board := Place(m.board, n, q, Mark(p));
    var outcome := CheckWinner(board, n, m.cfg.winCondition, q.row, q.col);
    m.(board := board, outcome := outcome, turn := if outcome.NoOutcome? then Other(p) else p)
  }

  /** A move keeps the invariant when it is the mover's turn and the match is
      undecided. */
  lemma MoveKeepsValid(m: Match, q: Pos, p: Player)
    requires Valid(m) && IsEmptyAt(m.board, m.cfg.size, q)
    requires m.turn == p && m.outcome.NoOutcome?
    ensures Valid(Move(m, q, p))
  {
    var n := m.cfg.size;
    var r := Move(m, q, p);
    PlaceCounts(m.board, n, q, p, Mark(X));
    PlaceCounts(m.board, n, q, p, Mark(O));
    assert r.board[q.row][q.col] != Empty;
  }

  /** `handleCellClick(row, col)`: ignored when the cell is taken, the match
      is decided, or it is not X's turn; otherwise X is written into exactly
      that cell and the move is evaluated. */
  function HandleCellClick(m: Match, row: int, col: int): (r: Match)
    requires Shaped(m) && InBounds(m.cfg.size, Pos(row, col))
    ensures m.board[row][col] != Empty || !m.outcome.NoOutcome? || m.turn != X ==> r == m
    ensures m.board[row][col] == Empty && m.outcome.NoOutcome? && m.turn == X ==> Played(m, r, Pos(row, col), X)
  {
    if m.board[row][col] != Empty || !m.outcome.NoOutcome? || m.turn != X then m
    else Move(m, Pos(row, col), X)
  }

  /** `makeAIMove` with the two random numbers as inputs: nothing on a full
      board; otherwise O is written into the cell the policy chooses. */
  function MakeAiMove(m: Match, gate: real, roll: real): (r: Match)
    requires Shaped(m) && 0.0 <= gate < 1.0 && 0.0 <= roll < 1.0
    ensures Full(m.board) ==> r == m
    ensures !Full(m.board) ==>
              var choice := ChooseMove(m.board, m.cfg.size, m.cfg.winCondition, m.cfg.aiDifficulty, gate, roll);
              choice.Some? && Played(m, r, choice.value, O)
  {
    match ChooseMove(m.board, m.cfg.size, m.cfg.winCondition, m.cfg.aiDifficulty, gate, roll)
    case None => m
    case Some(q) => Move(m, q, O)
  }

  /** The `winner` effect: an X win adds one to the player's score and calls
      `onStageComplete` when the new score reaches the stage's requirement; an
      O win adds one to the opponent's score; a draw changes nothing. */
  function ScoreOutcome(m: Match): (r: Reaction)
    ensures r.next.board == m.board && r.next.turn == m.turn && r.next.outcome == m.outcome && r.next.cfg == m.cfg
    ensures m.outcome.Win? && m.outcome.winner == X ==>
              && r.next.playerScore == m.playerScore + 1 && r.next.aiScore == m.aiScore
              && (r.stageComplete <==> r.next.playerScore >= WinsRequired(m.cfg.stageId))
    ensures m.outcome.Win? && m.outcome.winner == O ==>
              r.next.aiScore == m.aiScore + 1 && r.next.playerScore == m.playerScore && !r.stageComplete
    ensures !m.outcome.Win? ==> r.next == m && !r.stageComplete
  {
    match m.outcome
    case Win(X, _) =>
      Reaction(m.(playerScore := m.playerScore + 1), m.playerScore + 1 >= WinsRequired(m.cfg.stageId))
    case Win(O, _) => Reaction(m.(aiScore := m.aiScore + 1), false)
    case _ => Reaction(m, false)
  }

  /** Runs the `winner` effect when a transition changed the outcome. */
  function Settle(before: Match, after: Match): (r: Reaction)
    ensures r.next.board == after.board && r.next.cfg == after.cfg
    ensures after.outcome != before.outcome ==> r == ScoreOutcome(after)
    ensures after.outcome == before.outcome ==> r == Reaction(after, false)
  {
    if after.outcome != before.outcome then ScoreOutcome(after) else Reaction(after, false)
  }

  /** A click on a cell, followed by the `winner` effect when the click
      decided the match. */
  function PlayerMove(m: Match, row: int, col: int): (r: Reaction)
    requires Shaped(m) && InBounds(m.cfg.size, Pos(row, col))
    ensures r.next.cfg == m.cfg && Shaped(r.next)
    ensures r.stageComplete ==> r.next.outcome.Win? && r.next.outcome.winner == X
                                && r.next.playerScore >= WinsRequired(m.cfg.stageId)
    ensures m.outcome.NoOutcome? && r.next.outcome.Win? && r.next.outcome.winner == X ==>
              && r.next.playerScore == m.playerScore + 1 && r.next.aiScore == m.aiScore
              && (r.stageComplete <==> r.next.playerScore >= WinsRequired(m.cfg.stageId))
    ensures r.next.outcome == m.outcome ==>
              r.next.playerScore == m.playerScore && r.next.aiScore == m.aiScore && !r.stageComplete
  {
    Settle(m, HandleCellClick(m, row, col))
  }

  /** The opponent's delayed move: it runs only while it is O's turn and the
      match is undecided, then the `winner` effect runs if the move decided it. */
  function OpponentMove(m: Match, gate: real, roll: real): (r: Reaction)
    requires Shaped(m) && 0.0 <= gate < 1.0 && 0.0 <= roll < 1.0
    ensures r.next.cfg == m.cfg && Shaped(r.next)
    ensures !r.stageComplete
    ensures m.turn != O || !m.outcome.NoOutcome? ==> r.next == m
    ensures m.turn == O && m.outcome.NoOutcome? ==> r == Settle(m, MakeAiMove(m, gate, roll))
    ensures r.next.outcome.Win? && r.next.outcome.winner == O && m.outcome.NoOutcome? ==>
              r.next.aiScore == m.aiScore + 1 && r.next.playerScore == m.playerScore
  {
    if m.turn == O && m.outcome.NoOutcome? then Settle(m, MakeAiMove(m, gate, roll))
    else Reaction(m, false)
  }

  /** The score effect keeps the invariant: it touches only the tallies. */
  lemma SettleKeepsValid(before: Match, after: Match)
    requires Valid(after)
    ensures Valid(Settle(before, after).next)
  {
  }

  /** A click keeps the invariant of reachable states. */
  lemma PlayerMoveKeepsValid(m: Match, row: int, col: int)
    requires Valid(m) && InBounds(m.cfg.size, Pos(row, col))
    ensures Valid(PlayerMove(m, row, col).next)
  {
    if m.board[row][col] == Empty && m.outcome.NoOutcome? && m.turn == X {
      MoveKeepsValid(m, Pos(row, col), X);
    }
    SettleKeepsValid(m, HandleCellClick(m, row, col));
  }

  /** The opponent's move keeps the invariant of reachable states. */
  lemma OpponentMoveKeepsValid(m: Match, gate: real, roll: real)
    requires Valid(m) && 0.0 <= gate < 1.0 && 0.0 <= roll < 1.0
    ensures Valid(OpponentMove(m, gate, roll).next)
  {
    if m.turn == O && m.outcome.NoOutcome? {
      var q := ChooseMove(m.board, m.cfg.size, m.cfg.winCondition, m.cfg.aiDifficulty, gate, roll).value;
      MoveKeepsValid(m, q, O);
      SettleKeepsValid(m, MakeAiMove(m, gate, roll));
    }
  }

  /** In a reachable state the opponent always finds a cell on its turn: its
      move adds exactly one O and leaves the X marks alone. */
  lemma OpponentAlwaysMoves(m: Match, gate: real, roll: real)
    requires Valid(m) && m.turn == O && m.outcome.NoOutcome?
    requires 0.0 <= gate < 1.0 && 0.0 <= roll < 1.0
    ensures var r := OpponentMove(m, gate, roll).next;
      && CountBoard(r.board, Mark(O)) == CountBoard(m.board, Mark(O)) + 1
      && CountBoard(r.board, Mark(X)) == CountBoard(m.board, Mark(X))
  {
    var q := ChooseMove(m.board, m.cfg.size, m.cfg.winCondition, m.cfg.aiDifficulty, gate, roll).value;
    PlaceCounts(m.board, m.cfg.size, q, O, Mark(O));
    PlaceCounts(m.board, m.cfg.size, q, O, Mark(X));
  }

  /** The 1500 ms timer after a decided match: the board is reset, scores
      kept. Nothing happens while the match is undecided. */
  function AutoReset(m: Match): (r: Match)
    ensures m.outcome.NoOutcome? ==> r == m
    ensures !m.outcome.NoOutcome? ==>
              && Cleared(r.board, m.cfg.size) && r.turn == X && r.outcome == NoOutcome
              && r.cfg == m.cfg && r.playerScore == m.playerScore && r.aiScore == m.aiScore
  {
    if m.outcome.NoOutcome? then m else ResetBoard(m)
  }
}
