/** The stage catalog and the progression state of the `TicTacToe` page
    (components/tic-tac-toe.tsx). The 3000 ms celebration timeout is an
    explicit step; each pending timeout remembers the `currentStage` its
    closure captured. */
module TicTacToe {

  /** One catalog entry. */
  datatype Stage = Stage(id: int, name: string, size: nat, winCondition: int, aiDifficulty: real)

  /** The fixed five-stage catalog. */
  const Stages: seq<Stage> := [
    Stage(1, "INIT", 3, 3, 0.2),
    Stage(2, "LEVEL 1", 3, 3, 0.5),
    Stage(3, "LEVEL 2", 3, 3, 0.7),
    Stage(4, "LEVEL 3", 3, 3, 0.9),
    Stage(5, "FINAL", 4, 4, 0.9)
  ]

  /** The shape of the catalog: ids 1..5 in order, 3x3 or 4x4 boards, a win
      length that fits the board, and difficulties in [0, 1] that never drop. */
  lemma CatalogShape()
    ensures |Stages| == 5
    ensures forall i :: 0 <= i < |Stages| ==> Stages[i].id == i + 1
    ensures forall i :: 0 <= i < |Stages| ==> (Stages[i].size == 3 || Stages[i].size == 4)
    ensures forall i :: 0 <= i < |Stages| ==> 1 <= Stages[i].winCondition <= Stages[i].size
    ensures forall i :: 0 <= i < |Stages| ==> 0.0 <= Stages[i].aiDifficulty <= 1.0
    ensures forall i, j :: 0 <= i <= j < |Stages| ==> Stages[i].aiDifficulty <= Stages[j].aiDifficulty
  {
  }

  /** The page's state. `pending` lists the celebration timeouts not yet
      fired, oldest first, each with the `currentStage` it captured. */
  datatype Progression = Progression(
    currentStage: int,
    completed: seq<int>,
    showCelebration: bool,
    gameKey: nat,
    showStageSelect: bool,
    pending: seq<int>)

  /** The state on first render. */
  const Initial: Progression := Progression(0, [], false, 0, false, [])

  predicate NoDuplicates(s: seq<int>) {
    forall i, j :: 0 <= i < j < |s| ==> s[i] != s[j]
  }

  /** id belongs to some catalog entry. */
  predicate IsStageId(id: int) {
    exists i :: 0 <= i < |Stages| && Stages[i].id == id
  }

  /** `handleStageComplete(stageId)`: the id is appended to the completed list
      only when it is not there yet; the celebration starts and its timeout is
      scheduled with the current stage captured. */
  function HandleStageComplete(s: Progression, id: int): (r: Progression)
    ensures id in r.completed
    ensures forall x :: x in r.completed <==> x in s.completed || x == id
    ensures |r.completed| == |s.completed| + (if id in s.completed then 0 else 1)
    ensures r.completed[..|s.completed|] == s.completed
    ensures NoDuplicates(s.completed) ==> NoDuplicates(r.completed)
    ensures r.showCelebration && r.pending == s.pending + [s.currentStage]
    ensures r.currentStage == s.currentStage && r.gameKey == s.gameKey && r.showStageSelect == s.showStageSelect
  {
    var completed := if id in s.completed then s.completed else s.completed + [id];
    s.(completed := completed, showCelebration := true, pending := s.pending + [s.currentStage])
  }

  /** Completing a stage a second time leaves the completed list as the first
      completion left it. */
  lemma CompletionIdempotent(s: Progression, id: int)
    ensures HandleStageComplete(HandleStageComplete(s, id), id).completed == HandleStageComplete(s, id).completed
  {
  }

  /** The celebration timeout as written: it ends the celebration and opens
      stage select when the stage its closure captured was not the last one,
      whatever the current stage is by now. */
  function CelebrationEndsAsWritten(s: Progression): (r: Progression)
    ensures |s.pending| == 0 ==> r == s
    ensures |s.pending| > 0 ==>
              && r.pending == s.pending[1..] && !r.showCelebration
              && r.showStageSelect == (s.showStageSelect || s.pending[0] < |Stages| - 1)
              && r.currentStage == s.currentStage && r.completed == s.completed && r.gameKey == s.gameKey
  {
    if |s.pending| == 0 then s
    else
      var captured := s.pending[0];
      s.(showCelebration := false,
         showStageSelect := if captured < |Stages| - 1 then true else s.showStageSelect,
         pending := s.pending[1..])
  }

  /** The celebration timeout with the check made against the stage current
      when it fires: stage select opens only while a next stage exists. */
  function CelebrationEnds(s: Progression): (r: Progression)
    ensures |s.pending| == 0 ==> r == s
    ensures |s.pending| > 0 ==>
              && r.pending == s.pending[1..] && !r.showCelebration
              && r.showStageSelect == (s.showStageSelect || s.currentStage < |Stages| - 1)
              && r.currentStage == s.currentStage && r.completed == s.completed && r.gameKey == s.gameKey
    ensures (s.showStageSelect ==> s.currentStage < |Stages| - 1) ==>
              (r.showStageSelect ==> r.currentStage < |Stages| - 1)
  {
    if |s.pending| == 0 then s
    else
      s.(showCelebration := false,
         showStageSelect := if s.currentStage < |Stages| - 1 then true else s.showStageSelect,
         pending := s.pending[1..])
  }

  /** `startNextStage`: one stage on, stage select closed, a new board key. */
  function StartNextStage(s: Progression): (r: Progression)
    ensures r.currentStage == s.currentStage + 1 && !r.showStageSelect && r.gameKey == s.gameKey + 1
    ensures r.completed == s.completed && r.pending == s.pending && r.showCelebration == s.showCelebration
  {
    s.(currentStage := s.currentStage + 1, showStageSelect := false, gameKey := s.gameKey + 1)
  }

  /** `selectStage(index)`: any catalog index, completed or not (there is no
      lock check), stage select closed, a new board key. */
  function SelectStage(s: Progression, index: int): (r: Progression)
    requires 0 <= index < |Stages|
    ensures r.currentStage == index && !r.showStageSelect && r.gameKey == s.gameKey + 1
    ensures r.completed == s.completed && r.pending == s.pending && r.showCelebration == s.showCelebration
  {
    s.(currentStage := index, showStageSelect := false, gameKey := s.gameKey + 1)
  }

  /** `resetGame`: only a new board key. */
  function ResetGame(s: Progression): (r: Progression)
    ensures r.gameKey == s.gameKey + 1
    ensures r.currentStage == s.currentStage && r.completed == s.completed
    ensures r.showStageSelect == s.showStageSelect && r.showCelebration == s.showCelebration && r.pending == s.pending
  {
    s.(gameKey := s.gameKey + 1)
  }

  /** `progress`: the completed share of the catalog, in percent. With five
      stages each completed stage is worth 20 percent. */
  function Progress(s: Progression): (p: real)
    ensures p == 20.0 * |s.completed| as real
  {
    (|s.completed| as real / |Stages| as real) * 100.0
  }

  /** A list of distinct values drawn from a finite set is no longer than it. */
  lemma {:induction false} DistinctBound(s: seq<int>, ids: set<int>)
    requires NoDuplicates(s) && forall k :: 0 <= k < |s| ==> s[k] in ids
    ensures |s| <= |ids|
    decreases |s|
  {
    if |s| > 0 {
      var x := s[|s| - 1];
      var rest := s[..|s| - 1];
      forall k | 0 <= k < |rest| ensures rest[k] in ids - {x} {
        assert rest[k] == s[k] && s[k] != s[|s| - 1];
      }
      DistinctBound(rest, ids - {x});
    }
  }

  /** Progress lies in [0, 100] as long as the completed ids are distinct
      catalog ids. */
  lemma ProgressBounds(s: Progression)
    requires NoDuplicates(s.completed)
    requires forall k :: 0 <= k < |s.completed| ==> IsStageId(s.completed[k])
    ensures 0.0 <= Progress(s) <= 100.0
    ensures Progress(s) == 100.0 <==> |s.completed| == |Stages|
  {
    var ids := {1, 2, 3, 4, 5};
    CatalogShape();
    forall k | 0 <= k < |s.completed| ensures s.completed[k] in ids {
      var i :| 0 <= i < |Stages| && Stages[i].id == s.completed[k];
    }
    DistinctBound(s.completed, ids);
  }

  /** The timeout as written can open stage select on the last stage: two
      completions on the fourth stage schedule two timeouts, the first one
      opens stage select, the player moves on to the last stage, and the
      second timeout, still holding the fourth stage, opens stage select
      again, from which `startNextStage` leaves the catalog. */
  lemma StaleTimeoutLeavesCatalog()
    ensures var s1 := CelebrationEndsAsWritten(HandleStageComplete(Initial, 1));
            var s2 := SelectStage(s1, 3);
            var s3 := HandleStageComplete(HandleStageComplete(s2, 4), 4);
            var s4 := StartNextStage(CelebrationEndsAsWritten(s3));
            var s5 := CelebrationEndsAsWritten(s4);
            && s1.showStageSelect && CelebrationEndsAsWritten(s3).showStageSelect
            && s4.currentStage == |Stages| - 1
            && s4 == Progression(4, [1, 4], false, 2, false, [3])
            && s5.showStageSelect
            && StartNextStage(s5).currentStage == |Stages|
  {
    var s1 := CelebrationEndsAsWritten(HandleStageComplete(Initial, 1));
    var s2 := SelectStage(s1, 3);
    var s3 := HandleStageComplete(HandleStageComplete(s2, 4), 4);
    assert s3.pending == [3, 3];
    var s4 := StartNextStage(CelebrationEndsAsWritten(s3));
    assert s4.pending == [3];
  }
}
