# Dark Tic-Tac-Toe: game engine and stage progression in Dafny

This project models the game logic of a browser tic-tac-toe game. The game has
a human player (X), a computer opponent (O), and a ladder of five stages.

- **The board component** (`GameBoard`). It holds an N×N board, whose turn it
  is, the outcome, and two score tallies.
- **Win detection** (`checkWinner`). It looks only at the four lines through
  the cell just played.
- **The player's move** (`handleCellClick`).
- **The opponent's move policy** (`makeAIMove` and `findForkMove`). The
  opponent tries, in order:
  1. an immediate win;
  2. a block;
  3. its own fork;
  4. a block of the player's fork;
  5. centre, then corners;
  6. a random empty cell.
- **The score effect.** It tallies each result and reports completion of the
  stage to the page.
- **The page component** (`TicTacToe`). It holds the stage catalog, the list
  of completed stages, the celebration and stage-select screens, the board
  key, and the progress bar.

Modules, in dependency order:

| module | file | what it holds |
|---|---|---|
| `Grid` | grid.dfy | cells, positions, the square board, mark counts, the row-major empty-cell scan |
| `Rules` | rules.dfy | `checkWinner`, and a reference definition of "m has wc in a row through the played cell" |
| `Opponent` | opponent.dfy | the win/block search, the fork search with a reference definition of a fork, centre and corners, the whole policy |
| `GameBoard` | game_board.dfy | the board component's state, its transitions and the invariant of reachable states |
| `TicTacToe` | tic_tac_toe.dfy | the stage catalog and the page's progression state |
| `Page` | page.dfy | the page and its keyed board together: events, one step function, and the invariant every step keeps |

How the model represents the program:

- **Random numbers.** `Math.random()` is called twice and becomes two inputs
  in [0, 1):
  - `gate` decides whether the smart branch runs (`gate < aiDifficulty`);
  - `roll` picks the fallback cell (`floor(roll * |emptyCells|)`).
- **Timers and effects.** These are explicit events or steps: the 500 ms
  opponent delay, the 1500 ms auto-reset, the 3000 ms celebration timeout, and
  the `winner` effect. No time is modelled.
- **The outcome.** `winner` and `winningCells` are always set together, so
  they are one `Outcome` value (`NoOutcome`, `Win(winner, cells)` or `Draw`).
- **Remounting.** A new `gameKey` mounts a fresh board. The page keeps the
  board that is currently mounted, and rebuilds it from the current stage's
  props whenever the key changes.

In these places the code does something a reader might not expect, and the
model follows it:

- `selectStage` checks no lock. Any stage button works, completed or not.
- The list of winning cells is not trimmed to `winCondition` cells. One
  direction may report up to `2*winCondition - 1` cells.
- The fork test counts a line as a threat when it has `size - 1` own marks
  (and no opposing mark). The `winCondition` plays no part in it.
- The page never passes `stageId` to the board. Every stage therefore runs
  with the default `stageId = 1` and completes after three player wins
  (`Page.EveryStageNeedsThreeWins`).
- The celebration timeout decides on the stage its closure captured. This is
  a defect (see "## Findings"). The model states it as written
  (`TicTacToe.CelebrationEndsAsWritten`, `Page.StepAsWritten`). Its main page
  step, `Page.Step`, runs the corrected timeout (`TicTacToe.CelebrationEnds`).

## Model

| member | source | states |
|---|---|---|
| `Rules.CheckWinner` | components/game-board.tsx:94-146 | An empty played cell yields no outcome. A win names the mark on the played cell. Its cell list is the list of the first direction, in the order horizontal, vertical, diagonal, anti-diagonal, that collects at least wc cells. That list contains the played cell and holds only that mark. It has at least wc cells. For wc >= 1 it lies on one line through the played cell and has at most 2*wc-1 cells. A draw is reported only on a full board. No outcome on a non-empty cell means the board is not full. |
| `Rules.WinDetection` | components/game-board.tsx:94-146 | Against a reference definition, for wc >= 1. The result is a win exactly when some direction has a window of wc consecutive cells through the played cell that all hold its mark. It is a draw exactly when no direction does and the board is full. Otherwise there is no outcome. |
| `Rules.DirectionWinsIffLine` | components/game-board.tsx:106-136 | For one direction, the two bounded walks collect at least wc cells exactly when some window of wc consecutive cells along that direction contains the played cell and holds the same mark throughout. |
| `Rules.Ray` | components/game-board.tsx:110-132 | One inner walk never takes more than its bound allows. Its k-th cell is the k-th next step along the direction, on the board and holding the mark. |
| `Rules.RayReaches` | components/game-board.tsx:110-132 | A walk does not stop early: if the next t steps all hold the mark and fit under the bound, the walk collects at least t cells. |
| `Rules.ScanDirections` | components/game-board.tsx:106-145 | The result is a win exactly when some remaining direction collects at least wc cells. The win carries the cell list of the first such direction in the list order: every earlier direction collected fewer. With no win, it is a draw only on a full board, and no outcome only on a board that is not full. |
| `Rules.DirectionCells` | components/game-board.tsx:107-133 | One direction's list starts with the played cell, and every later cell holds the mark. Every cell lies on the line through the played cell, at most wc-1 steps away (for wc >= 1). There are at most 2*wc-1 of them. |
| `Rules.RayAlong` | components/game-board.tsx:111-132 | Each walk stays on its line, within wc-1 steps of the played cell. |
| `Rules.RowWinExample` | components/game-board.tsx:106-136 | Three X marks across the top row, with the top-right cell played last, win with the cells (0,2), (0,1), (0,0) in that order. |
| `Rules.DrawExample` | components/game-board.tsx:139-143 | A full 3x3 board with no line of three is a draw. |
| `Rules.UntrimmedWinCells` | components/game-board.tsx:107-135 | Four X marks in a row on a 4x4 board that needs three in a row give a win list of four cells. The list is not trimmed. |
| `Grid.EmptyCells` | components/game-board.tsx:166-174 | The empty-cell list holds every empty cell and nothing else, in strictly increasing row-major order, so with no repeats. |
| `Grid.FullIffNoEmptyCells` | components/game-board.tsx:166-176 | The board is full exactly when the empty-cell list is empty. This is why the draw check and the opponent's early return agree. |
| `Grid.EmptyBoard` | components/game-board.tsx:27-31 | The initial board, and the one `resetBoard` builds (lines 77-81), is n by n with every cell empty. |
| `Grid.Place` | components/game-board.tsx:151-152 | Writing into the copied board sets exactly the chosen cell and leaves every other cell alone. |
| `Grid.PlaceCounts` | components/game-board.tsx:151-152 | Writing a mark into an empty cell adds one to that mark's count and leaves the other mark's count unchanged. |
| `Opponent.CompletesIffWins` | components/game-board.tsx:184-199 | The trial placement test (`checkWinner` on a copy with m written in, compared with m) agrees with the reference definition. For an empty cell and wc >= 1, it passes exactly when m there stands in a window of wc consecutive m marks. |
| `Opponent.FirstCompleting` | components/game-board.tsx:183-191 | Over a row-major list of empty cells: the result is the first cell whose trial placement wins for the mover, or nothing when no cell does. |
| `Opponent.FindCompleting` | components/game-board.tsx:181-204 | The win or block search finds nothing exactly when no empty cell completes a line for the mark. Otherwise it finds the first such cell in row-major order. A trial that only fills the board (a draw) does not count. |
| `Opponent.ScanLine` | components/game-board.tsx:285-292 | One counting loop of the fork test returns the number of own marks in the line when the line holds no opposing mark, and 0 when it does. |
| `Opponent.QualifiesIffThreat` | components/game-board.tsx:293 | The test `count > 0 && count === size - 1` holds exactly when the line has no opposing mark and all but one of its cells (at least one) hold the mark. |
| `Opponent.WinningWays` | components/game-board.tsx:281-331 | The count of qualifying lines is between 0 and 4. Off both diagonals only the row and the column are examined, so it is at most 2. |
| `Opponent.ForkCount` | components/game-board.tsx:280-332 | For an empty cell, the winning-ways count reaches 2 exactly when, after the mark is placed there, two distinct lines through the cell are threats. The lines are the row, the column, and a diagonal only when the cell lies on it. |
| `Opponent.FirstFork` | components/game-board.tsx:274-337 | Over a row-major list of empty cells: the result is the first fork cell, or nothing when the list has none. |
| `Opponent.FindForkMove` | components/game-board.tsx:272-340 | `findForkMove` returns nothing exactly when the board has no fork cell for the mark. Otherwise it returns the first fork cell in row-major order. |
| `Opponent.FirstEmpty` | components/game-board.tsx:239-245 | The corner loop takes the first empty corner of the list, and nothing when all of them are taken. |
| `Opponent.Strategic` | components/game-board.tsx:224-247 | The centre (floor(size/2) in both coordinates) when it is empty. Otherwise the first empty corner in the order top-left, top-right, bottom-left, bottom-right. Otherwise nothing. Any cell chosen is empty. |
| `Opponent.SmartMove` | components/game-board.tsx:180-248 | The smart branch's priorities, each step taking the first qualifying cell in row-major order. A win for O beats a block of X. A block beats forks. O's fork beats blocking X's fork, and both need difficulty above 0.7. Centre and corners come last and need difficulty above 0.8. Otherwise nothing. |
| `Opponent.RandomIndex` | components/game-board.tsx:252 | The random index is always a valid index into the empty-cell list. |
| `Opponent.ChooseMove` | components/game-board.tsx:165-254 | No move exactly when the board is full. A chosen cell is always empty. When `gate >= difficulty` the random pick decides. When `gate < difficulty`, a win comes first, then a block, and a smart-branch miss falls back to the random pick. |
| `GameBoard.NewMatch` | components/game-board.tsx:27-36 | A mounted board is empty, X is to play, there is no outcome, both scores are 0, and the state satisfies the invariant of reachable states. |
| `GameBoard.ResetBoard` | components/game-board.tsx:76-85 | Clears the board, the outcome and the winning cells, gives the turn to X, and keeps both scores. |
| `GameBoard.ResetGame` | components/game-board.tsx:87-92 | The reset board with both scores 0, which is exactly a freshly mounted board. |
| `GameBoard.WinsRequired` | components/game-board.tsx:56 | The wins required lie between 3 and 5, and are 3 for every stage id up to 3. |
| `GameBoard.WinsRequiredMonotone` | components/game-board.tsx:56 | A later stage id never needs fewer wins. |
| `GameBoard.Move` | components/game-board.tsx:151-162 | A move changes exactly the played cell. The outcome is the `checkWinner` verdict for that cell. The turn passes to the other player only while there is no outcome. Scores and props are unchanged. |
| `GameBoard.MoveKeepsValid` | components/game-board.tsx:148-163 | A move by the player whose turn it is, into an empty cell of an undecided match, keeps the invariant: mark counts balanced, a draw on a full board, winning cells holding the winner's mark. |
| `GameBoard.HandleCellClick` | components/game-board.tsx:148-163 | If the cell is taken, the match is decided, or it is not X's turn, the state is unchanged. Otherwise X is written into exactly that cell and the move is evaluated. |
| `GameBoard.MakeAiMove` | components/game-board.tsx:165-269 | On a full board nothing changes. Otherwise O is written into the one empty cell the policy chooses, every other cell is unchanged, and the turn passes to X unless the move decided the match. |
| `GameBoard.ScoreOutcome` | components/game-board.tsx:52-63 | An X win adds one to the player's score and reports stage completion exactly when the new score reaches the stage's requirement. An O win adds one to the opponent's score. A draw or no outcome changes nothing. |
| `GameBoard.Settle` | components/game-board.tsx:52-63 | The score effect runs exactly when a transition changed the outcome: then the result is the tally and completion test of `GameBoard.ScoreOutcome`, otherwise nothing changes and no completion is reported. It never touches the board or the props. |
| `GameBoard.SettleKeepsValid` | components/game-board.tsx:52-63 | The score effect keeps the invariant of reachable states. |
| `GameBoard.PlayerMove` | components/game-board.tsx:148-163 | A click followed by the score effect. Completion is reported only after an X win that brings the player's score to the requirement. Conversely, a click that wins for X in an undecided match adds exactly one to the player's score, leaves the opponent's alone, and reports completion exactly when the new score reaches the requirement. A click that leaves the outcome as it was changes no score and reports nothing. |
| `GameBoard.OpponentMove` | components/game-board.tsx:44-50 | The delayed opponent move acts only while it is O's turn and the match is undecided. Then it is `makeAIMove` (`GameBoard.MakeAiMove`) followed by the score effect, so an O win adds one to the opponent's score and leaves the player's alone. It never reports stage completion. |
| `GameBoard.PlayerMoveKeepsValid` | components/game-board.tsx:148-163 | A click, with its score effect, keeps the invariant of reachable states. |
| `GameBoard.OpponentMoveKeepsValid` | components/game-board.tsx:165-269 | The opponent's move, with its score effect, keeps the invariant of reachable states. |
| `GameBoard.OpponentAlwaysMoves` | components/game-board.tsx:165-268 | In a reachable state where O is to move, the move always happens: the O count rises by one and the X count is unchanged. |
| `GameBoard.AutoReset` | components/game-board.tsx:65-74 | After a decided match the timer clears the board and the outcome and gives X the turn. The scores and props stay. On an undecided match it does nothing. |
| `TicTacToe.CatalogShape` | components/tic-tac-toe.tsx:12-18 | Five stages with ids 1..5 in order. Each board is 3x3 or 4x4, and each win length is between 1 and the board size. Difficulties lie in [0, 1] and never decrease. |
| `TicTacToe.HandleStageComplete` | components/tic-tac-toe.tsx:27-31 | The id ends up in the completed list. It is appended only when absent, so the old list is a prefix and the list stays free of duplicates. The celebration starts and a timeout is scheduled that remembers the current stage. |
| `TicTacToe.CompletionIdempotent` | components/tic-tac-toe.tsx:27-30 | Completing a stage twice leaves the same completed list as completing it once. |
| `TicTacToe.CelebrationEndsAsWritten` | components/tic-tac-toe.tsx:34-40 | The timeout as the code has it: it ends the celebration and opens stage select when the stage its closure captured was not the last one. |
| `TicTacToe.CelebrationEnds` | components/tic-tac-toe.tsx:34-40 | The timeout deciding on the stage current when it fires. It ends the celebration, opens stage select only while a next stage exists, and so keeps "stage select only before the last stage". |
| `TicTacToe.StartNextStage` | components/tic-tac-toe.tsx:43-47 | Advances the current stage by exactly one, hides stage select, bumps the board key, and leaves the completed list alone. |
| `TicTacToe.SelectStage` | components/tic-tac-toe.tsx:49-53 | Goes to any catalog index, completed or not (no lock check), hides stage select, and bumps the board key. |
| `TicTacToe.ResetGame` | components/tic-tac-toe.tsx:55-57 | Only the board key changes. The current stage, the completed list and both screens stay as they were. |
| `TicTacToe.DistinctBound` | components/tic-tac-toe.tsx:28-29 | A duplicate-free list drawn from a finite set of ids is no longer than the set. |
| `TicTacToe.Progress` | components/tic-tac-toe.tsx:60 | Each completed stage is worth 20 percent of the bar, since the catalog has five stages. |
| `TicTacToe.ProgressBounds` | components/tic-tac-toe.tsx:60 | With distinct catalog ids completed, progress lies in [0, 100]. It is 100 exactly when all five stages are complete. |
| `TicTacToe.StaleTimeoutLeavesCatalog` | components/tic-tac-toe.tsx:27-47 | With the timeout as written, this trace reaches a current stage equal to the catalog length. The steps are: two completions on the fourth stage; moving on to the last stage; then the stale second timeout reopening stage select. |
| `Page.MountConfig` | components/tic-tac-toe.tsx:113-120 | A stage's board gets its size, win length and difficulty, and the default `stageId` of 1. |
| `Page.Mount` | components/tic-tac-toe.tsx:113-120 | A board mounted under a new key has the stage's size with every cell empty. X is to play, there is no outcome, and both scores are 0. |
| `Page.EveryStageNeedsThreeWins` | components/tic-tac-toe.tsx:113-120 | Because `stageId` is never passed, every catalog stage completes after 3 wins, although the board's own table would ask 4 of stages 4 and 5. |
| `Page.StageHeuristics` | components/game-board.tsx:207-224 | For the catalog, the fork steps (above 0.7) and centre and corners (above 0.8) are both on for the last two stages only. |
| `Page.StartInv` | components/tic-tac-toe.tsx:20-25 | The first render satisfies the page invariant. |
| `Page.Report` | components/tic-tac-toe.tsx:118 | A board's `onStageComplete` puts the current stage's id in the completed list and starts the celebration. Without it the page state is unchanged. The current stage and the stage-select screen never change here. |
| `Page.Enter` | components/tic-tac-toe.tsx:113-120 | Leaving stage select mounts a board of the new current stage's size, all cells empty, both scores 0. |
| `Page.Shared` | components/tic-tac-toe.tsx:85-121 | Each event other than the celebration timeout and the next-stage button runs its own handler. An on-board click runs `handleCellClick` with its score effect (game-board.tsx:371, 148-163). The opponent timer runs `makeAIMove` with its score effect (game-board.tsx:45-49). The auto-reset timer and RESET run the board's resets (game-board.tsx:66-73, 398). A stage button runs `selectStage` and mounts a fresh board for that stage (tic-tac-toe.tsx:103). While stage select is open the board is unmounted, so every other event leaves the page unchanged. With stage select closed the stage never changes. Completed ids are only ever appended. The invariant without its stage-select clause is kept, and a new key comes with a fresh board. |
| `Page.Step` | components/tic-tac-toe.tsx:34-121 | With the corrected celebration timeout, every event keeps the page invariant: the current stage is a catalog index; stage select shows only before the last stage; completed ids are distinct catalog ids; the board is a reachable board of the current stage. The celebration timer runs `TicTacToe.CelebrationEnds` and leaves the board alone. NEXT STAGE from stage select runs `startNextStage` and mounts a fresh board for the next stage, and does nothing elsewhere. Every other event is `Page.Shared`. Completed ids are only ever appended, and the key grows by at most one. |
| `Page.StepAsWritten` | components/tic-tac-toe.tsx:34-47 | With the celebration timeout as written, the page fails exactly when the next-stage button is pressed while stage select is open on the last stage. Otherwise the step keeps the invariant without its stage-select clause. From an invariant state it agrees with `Page.Step` on every event but the celebration timeout. |
| `Page.StaleTimeoutBreaksPage` | components/tic-tac-toe.tsx:34-47 | A state of the invariant, reached by the trace of `TicTacToe.StaleTimeoutLeavesCatalog`, in which the as-written timeout opens stage select on the last stage and breaks the invariant. The next-stage button then fails. The corrected timeout keeps stage select closed. |
| `Page.NextStageFresh` | components/tic-tac-toe.tsx:43-47 | The next-stage button moves exactly one stage on, closes stage select, keeps the completed list, and mounts a board with both scores 0, X to play and no outcome. |
| `Page.ReachableProgressBounded` | components/tic-tac-toe.tsx:60 | The progress bar lies in [0, 100] in every reachable state of both page versions. It needs only the invariant without its stage-select clause, which `Page.Step` and `Page.StepAsWritten` both keep. |
| `Page.ResetAll` | components/game-board.tsx:87-92 | The board's reset game zeroes both scores and bumps the page's key. The stage and the completed list are kept, and the page invariant holds. |

## Left out

- components/celebration.tsx is not part of this model. It holds the confetti animation, its floating-point particle counts and the `canvas-confetti` library.
- app/page.tsx is not part of this model. It is layout only.
- Rendering is left out: `renderCell`, the CSS classes, and the status, score and remaining-wins text (components/game-board.tsx:342-466, components/tic-tac-toe.tsx:62-124). It is presentation only. The remaining-wins text goes negative once the score passes the requirement; nothing in the logic depends on it.
- Timer durations (500 ms, 1500 ms, 3000 ms) are left out. So are React's batching and effect scheduling. Timers are events that may fire in any order the state allows.
- Timers have no identities in the model. A timer event acts on the current state whenever its guard holds, as the live timer does, and a cleared timer never fires. The opponent event reads the current board. The live timer's closure holds the board of the render that armed it. While O is to move and the match is undecided, the only other board change is `resetBoard`. It gives X the turn, which clears that timer. So the board the live timer holds is the current board when it fires.
- The distribution of `Math.random()` is left out. Only its range [0, 1) is assumed.
- The unused `currentStageData` state of the board (components/game-board.tsx:37) is left out.
- The mount-time `useEffect` that calls `resetBoard` (components/game-board.tsx:40-42) is left out. It leaves a freshly mounted board as it is.
- Clicks on cells off the board are left out: only on-board cells are rendered. `Page.Step` ignores them.
- `GameBoard.resetGame` is not wired to any control in the rendered markup, whose reset button calls `resetBoard`. It is modelled anyway, as `GameBoard.ResetGame` and `Page.ResetAll`.
- Rules.WinDetection: requires `winCondition >= 1`, because the reference definition of a window needs a positive length. `Rules.CheckWinner` itself takes any win length; with one below 1 it reports a win for any mark.
- GameBoard.WinsRequired: its contract states only the range and the `stageId <= 3` case. The 4-or-5 split for higher ids is reached only through `Page.EveryStageNeedsThreeWins`, because no stage ever passes a higher id.
- Page.Step: runs the corrected celebration timeout `TicTacToe.CelebrationEnds`, not the one the code has. With the timeout as written, two clauses of its invariant fail: "stage select shows only before the last stage", and after one more next-stage press "the current stage is a catalog index". `Page.StepAsWritten` and `Page.StaleTimeoutBreaksPage` state that behaviour.
- Opponent.ChooseMove: for the fork and centre-and-corners steps it refers to `Opponent.SmartMove`, whose contract states them. It does not repeat them.

## Findings

| source | as written | input that shows it | evidently intended | confidence | as-written member | corrected member |
|---|---|---|---|---|---|---|
| components/tic-tac-toe.tsx:34-40 | The celebration timeout tests the `currentStage` its closure captured when the stage was completed. Once the score reaches the requirement, every further X win completes the stage again, so several timeouts can be pending. A stale one reopens stage select after the player has moved on to the last stage, and `startNextStage` then sets `currentStage` to 5. `stages[5]` is undefined, so `currentStageData.id` (line 73) fails. The traces are `TicTacToe.StaleTimeoutLeavesCatalog` and `Page.StaleTimeoutBreaksPage`. | Complete stage 1; select the fourth stage; win there three times, and a fourth time within 3 s of the third, before the first celebration timeout opens stage select and unmounts the board; when the first timeout opens stage select, press NEXT STAGE; the second timeout opens stage select again; press NEXT STAGE. | Stage select opens only while the stage current at that moment has a successor, so `currentStage` stays a catalog index. That is `TicTacToe.CelebrationEnds`, which `Page.Step` runs. | medium; not executed | `Page.StepAsWritten` | `Page.Step` |
