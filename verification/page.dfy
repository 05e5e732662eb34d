/** The `TicTacToe` page with its keyed `GameBoard` (components/tic-tac-toe.tsx
    and components/game-board.tsx together): user intents and timers as
    events, one step function, and the invariant every step keeps. */
module Page {
  import opened Grid
  import opened Rules
  import opened GameBoard
  import opened TicTacToe

  /** The props a stage mounts its board with. The page passes size, win
      length and difficulty but no `stageId`, so the board's default of 1
      applies on every stage. */
  function MountConfig(stage: Stage): (cfg: Config)
    ensures cfg.size == stage.size && cfg.winCondition == stage.winCondition
    ensures cfg.aiDifficulty == stage.aiDifficulty && cfg.stageId == DefaultConfig.stageId
  {
    Config(stage.size, stage.winCondition, stage.aiDifficulty, DefaultConfig.stageId)
  }

  /** A board mounted under a new key: fresh state, both scores 0. */
  function Mount(stage: Stage): (m: Match)
    ensures Valid(m) && m == NewMatch(MountConfig(stage))
    ensures Cleared(m.board, stage.size) && m.turn == X && m.outcome == NoOutcome
    ensures m.playerScore == 0 && m.aiScore == 0
  {
    NewMatch(MountConfig(stage))
  }

  /** Because `stageId` is never passed, every stage of the catalog completes
      after three player wins, even where the board's own table says four. */
  lemma EveryStageNeedsThreeWins(i: int)
    requires 0 <= i < |Stages|
    ensures WinsRequired(MountConfig(Stages[i]).stageId) == 3
    ensures Stages[i].id >= 4 ==> WinsRequired(Stages[i].id) == 4
  {
  }

  /** How the catalog meets the opponent's thresholds: the fork steps (above
      0.7) and the centre-and-corners step (above 0.8) are both switched on
      for the last two stages only; the third stage's 0.7 stays below both. */
  lemma StageHeuristics(i: int)
    requires 0 <= i < |Stages|
    ensures Stages[i].aiDifficulty > 0.7 <==> i >= 3
    ensures Stages[i].aiDifficulty > 0.8 <==> i >= 3
  {
  }

  /** The page and the board currently mounted under its key. */
  datatype Game = Game(prog: Progression, board: Match)

  /** First render: stage 1 with a fresh board. */
  const Start: Game := Game(Initial, Mount(Stages[0]))

  /** What can happen: a cell click, the three timers, and the buttons. The
      opponent timer carries the two random numbers its move draws. */
  datatype Event =
    | Click(row: int, col: int)
    | OpponentTimer(gate: real, roll: real)
    | AutoResetTimer
    | ResetButton
    | CelebrationTimer
    | NextStageButton
    | StageButton(index: int)

  /** `Math.random()` never leaves [0, 1). */
  predicate Possible(e: Event) {
    e.OpponentTimer? ==> 0.0 <= e.gate < 1.0 && 0.0 <= e.roll < 1.0
  }

  /** The invariant of every reachable page state: the current stage is a
      catalog index, stage select is open only while a next stage exists, the
      completed list holds distinct catalog ids, and the board is a reachable
      board of the current stage. */
  ghost predicate Inv(g: Game) {
    && Mounted(g)
    && (g.prog.showStageSelect ==> g.prog.currentStage < |Stages| - 1)
  }

  /** The invariant without its stage-select clause: the current stage is a
      catalog index, the completed list holds distinct catalog ids, and the
      board is a reachable board of the current stage. */
  ghost predicate Mounted(g: Game) {
    && 0 <= g.prog.currentStage < |Stages|
    && NoDuplicates(g.prog.completed)
    && (forall k :: 0 <= k < |g.prog.completed| ==> IsStageId(g.prog.completed[k]))
    && Valid(g.board)
    && g.board.cfg == MountConfig(Stages[g.prog.currentStage])
  }

  /** The start state is reachable. */
  lemma StartInv()
    ensures Inv(Start)
  {
  }

  /** Hands a board transition to the page: on `onStageComplete` the current
      stage's id is recorded. */
  function Report(g: Game, r: Reaction): (g': Game)
    requires 0 <= g.prog.currentStage < |Stages|
    ensures g'.board == r.next
    ensures !r.stageComplete ==> g'.prog == g.prog
    ensures r.stageComplete ==> g'.prog == HandleStageComplete(g.prog, Stages[g.prog.currentStage].id)
    ensures r.stageComplete ==> Stages[g.prog.currentStage].id in g'.prog.completed && g'.prog.showCelebration
    ensures g'.prog.currentStage == g.prog.currentStage && g'.prog.showStageSelect == g.prog.showStageSelect
  {
    if r.stageComplete then Game(HandleStageComplete(g.prog, Stages[g.prog.currentStage].id), r.next)
    else Game(g.prog, r.next)
  }

  /** Leaves stage select for the state's current stage with a new board. */
  function Enter(p: Progression): (g: Game)
    requires 0 <= p.currentStage < |Stages|
    ensures g.prog == p && g.board == Mount(Stages[p.currentStage])
    ensures g.board.cfg.size == Stages[p.currentStage].size && Cleared(g.board.board, Stages[p.currentStage].size)
    ensures g.board.playerScore == 0 && g.board.aiScore == 0
  {
    Game(p, Mount(Stages[p.currentStage]))
  }

  /** The events the page handles the same way whichever celebration timeout
      it runs: everything but that timeout and the next-stage button. While
      stage select is open the board is unmounted, so clicks, its timers and
      its reset button do nothing, and only the stage buttons act. */
  function Shared(g: Game, e: Event): (g': Game)
    requires Mounted(g) && Possible(e) && !e.CelebrationTimer? && !e.NextStageButton?
    ensures Mounted(g')
    ensures g'.prog.showStageSelect ==> g.prog.showStageSelect && g'.prog.currentStage == g.prog.currentStage
    ensures g'.prog.gameKey == g.prog.gameKey || g'.prog.gameKey == g.prog.gameKey + 1
    ensures g'.prog.gameKey == g.prog.gameKey + 1 ==> g'.board == Mount(Stages[g'.prog.currentStage])
    ensures !g.prog.showStageSelect ==> g'.prog.currentStage == g.prog.currentStage
    ensures |g.prog.completed| <= |g'.prog.completed| && g'.prog.completed[..|g.prog.completed|] == g.prog.completed
    ensures g.prog.showStageSelect && !e.StageButton? ==> g' == g
    ensures e.Click? && !g.prog.showStageSelect && InBounds(g.board.cfg.size, Pos(e.row, e.col)) ==>
              g' == Report(g, PlayerMove(g.board, e.row, e.col))
    ensures e.OpponentTimer? && !g.prog.showStageSelect ==> g' == Report(g, OpponentMove(g.board, e.gate, e.roll))
    ensures e.AutoResetTimer? && !g.prog.showStageSelect ==> g'.prog == g.prog && g'.board == AutoReset(g.board)
    ensures e.ResetButton? && !g.prog.showStageSelect ==> g'.prog == g.prog && g'.board == ResetBoard(g.board)
    ensures e.StageButton? && g.prog.showStageSelect && 0 <= e.index < |Stages| ==>
              g'.prog == SelectStage(g.prog, e.index) && g'.board == Mount(Stages[e.index])
  {
    var unmounted := g.prog.showStageSelect;
    match e
    case Click(row, col) =>
      if unmounted || !InBounds(g.board.cfg.size, Pos(row, col)) then g
      else
        PlayerMoveKeepsValid(g.board, row, col);
        Report(g, PlayerMove(g.board, row, col))
    case OpponentTimer(gate, roll) =>
      if unmounted then g
      else
        OpponentMoveKeepsValid(g.board, gate, roll);
        Report(g, OpponentMove(g.board, gate, roll))
    case AutoResetTimer => if unmounted then g else g.(board := AutoReset(g.board))
    case ResetButton => if unmounted then g else g.(board := ResetBoard(g.board))
    case StageButton(i) => if unmounted && 0 <= i < |Stages| then Enter(SelectStage(g.prog, i)) else g
  }

  /** One event, with the corrected celebration timeout. */
  function Step(g: Game, e: Event): (g': Game)
    requires Inv(g) && Possible(e)
    ensures Inv(g')
    ensures g'.prog.gameKey == g.prog.gameKey || g'.prog.gameKey == g.prog.gameKey + 1
    ensures g'.prog.gameKey == g.prog.gameKey + 1 ==> g'.board == Mount(Stages[g'.prog.currentStage])
    ensures |g.prog.completed| <= |g'.prog.completed| && g'.prog.completed[..|g.prog.completed|] == g.prog.completed
    ensures e.CelebrationTimer? ==> g'.prog == CelebrationEnds(g.prog) && g'.board == g.board
    ensures e.NextStageButton? && g.prog.showStageSelect ==>
              g'.prog == StartNextStage(g.prog) && g'.board == Mount(Stages[g.prog.currentStage + 1])
    ensures e.NextStageButton? && !g.prog.showStageSelect ==> g' == g
    ensures !e.CelebrationTimer? && !e.NextStageButton? ==> g' == Shared(g, e)
  {
    match e
    case CelebrationTimer => g.(prog := CelebrationEnds(g.prog))
    case NextStageButton => if g.prog.showStageSelect then Enter(StartNextStage(g.prog)) else g
    case _ => Shared(g, e)
  }

  /** One event, with the celebration timeout as written. Stage select can
      then be open on the last stage, and the next-stage button there moves
      past the catalog: rendering `stages[currentStage]` reads an entry that
      does not exist, which is `None` here. On every other event, and from
      every state of the invariant, it agrees with `Step`. */
  function StepAsWritten(g: Game, e: Event): (r: Option<Game>)
    requires Mounted(g) && Possible(e)
    ensures r.None? <==> e.NextStageButton? && g.prog.showStageSelect && g.prog.currentStage == |Stages| - 1
    ensures r.Some? ==> Mounted(r.value)
    ensures Inv(g) && !e.CelebrationTimer? ==> r == Some(Step(g, e))
  {
    match e
    case CelebrationTimer => Some(g.(prog := CelebrationEndsAsWritten(g.prog)))
    case NextStageButton =>
      if !g.prog.showStageSelect then Some(g)
      else if g.prog.currentStage + 1 < |Stages| then Some(Enter(StartNextStage(g.prog)))
      else None
    case _ => Some(Shared(g, e))
  }

  /** The state `TicTacToe.StaleTimeoutLeavesCatalog` reaches after moving on
      to the last stage, with the second timeout of the fourth stage still
      pending, satisfies the invariant. As written, that timeout opens stage
      select on the last stage, which breaks the invariant, and the
      next-stage button then leaves the catalog. The corrected timeout keeps
      stage select closed. */
  lemma StaleTimeoutBreaksPage()
    ensures var g := Game(Progression(4, [1, 4], false, 2, false, [3]), Mount(Stages[4]));
      && Inv(g)
      && (var w := StepAsWritten(g, CelebrationTimer);
          && w.Some? && w.value.prog.showStageSelect && !Inv(w.value)
          && StepAsWritten(w.value, NextStageButton).None?)
      && !Step(g, CelebrationTimer).prog.showStageSelect
  {
    var g := Game(Progression(4, [1, 4], false, 2, false, [3]), Mount(Stages[4]));
    assert IsStageId(1) by { assert Stages[0].id == 1; }
    assert IsStageId(4) by { assert Stages[3].id == 4; }
  }

  /** Moving on from stage select: the next stage, with a fresh board whose
      scores are 0, and the completed list untouched. */
  lemma NextStageFresh(g: Game)
    requires Inv(g) && g.prog.showStageSelect
    ensures var g' := Step(g, NextStageButton);
      && g'.prog.currentStage == g.prog.currentStage + 1
      && !g'.prog.showStageSelect
      && g'.prog.completed == g.prog.completed
      && g'.board.playerScore == 0 && g'.board.aiScore == 0
      && g'.board.outcome == NoOutcome && g'.board.turn == X
  {
  }

  /** The progress bar stays within [0, 100] in every reachable state, with
      the celebration timeout as written as well as corrected: it needs only
      the invariant without its stage-select clause. */
  lemma ReachableProgressBounded(g: Game)
    requires Mounted(g)
    ensures 0.0 <= Progress(g.prog) <= 100.0
  {
    ProgressBounds(g.prog);
  }

  /** The board's reset game: both scores back to 0 and `onReset`, whose new
      key mounts a fresh board for the same stage. */
  function ResetAll(g: Game): (g': Game)
    requires Inv(g)
    ensures Inv(g')
    ensures g'.prog == TicTacToe.ResetGame(g.prog)
    ensures g'.prog.currentStage == g.prog.currentStage && g'.prog.completed == g.prog.completed
    ensures g'.board == GameBoard.ResetGame(g.board)
  {
    Game(TicTacToe.ResetGame(g.prog), GameBoard.ResetGame(g.board))
  }
}
