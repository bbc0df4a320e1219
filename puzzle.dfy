/** The puzzle state machine as functions on a snapshot of its state: what
    `shuffleRows`, `loadLevel`, `switchRow` and `updateLevel` make of the
    state, and the properties of those transitions. The class in module Game
    runs the same transitions imperatively and is proved to agree with them. */
module Puzzle {
  import opened Stage

  /** Milliseconds per simulation frame. */
  const FrameTime: int := 33
  /** Milliseconds a solved stage stays on screen before the next one. */
  const SuccessCooldown: int := 1500
  const MaxFingerprints: int := 8
  const MaxDifficulty: int := 4

  /** The puzzle's state: the pattern ids of the level, the stage index, the
      row arrangement, the cursor, the solved flag, the cooldown, the level's
      start time and the last computed solving time. */
  datatype Snapshot = Snapshot(
    fingerprints: seq<int>,
    fingerprintCol: int,
    shuffledRows: seq<int>,
    selectedRow: int,
    solved: bool,
    cooldown: int,
    levelStartTime: int,
    solvingTime: int)

  /** The state before the first level is loaded. */
  const Initial: Snapshot := Snapshot([], 0, [], 0, false, 0, 0, 0)

  /** The state every reachable configuration satisfies. */
  predicate WellFormed(s: Snapshot, difficulty: int)
  {
    && 1 <= difficulty <= MaxDifficulty
    && |s.fingerprints| == difficulty && InRange(s.fingerprints, MaxFingerprints)
    && 0 <= s.fingerprintCol < difficulty
    && |s.shuffledRows| == MaxRows && InRange(s.shuffledRows, MaxRows)
    && 0 <= s.selectedRow < MaxRows
    && 0 <= s.cooldown <= SuccessCooldown
    && (s.solved ==> 0 < s.cooldown)
  }

  /** The draws `Math.floor(Math.random() * 8)` of one level start: one pattern id per stage. */
  predicate ValidPatternDraws(draws: seq<int>, difficulty: int)
  {
    |draws| == difficulty && InRange(draws, MaxFingerprints)
  }

  /** JavaScript's `%` on integers: the remainder has the sign of the dividend. */
  function JsRemainder(a: int, b: int): int
    requires b > 0
  {
    if a >= 0 then a % b else -((-a) % b)
  }

  /** `shuffleRows`: a fresh arrangement for the current stage, cursor on row 0, unsolved. */
  function ShuffleRows(s: Snapshot, draws: seq<int>): Snapshot
    requires ValidDraws(draws) && 0 <= s.fingerprintCol < |NRandRowsTable|
  {
    s.(shuffledRows := GenerateStage(draws, s.fingerprintCol), solved := false, selectedRow := 0)
  }

  /** `loadLevel`: stage 0 of a level with freshly drawn pattern ids, timed from `now`. */
  function LoadLevel(s: Snapshot, now: int, patternDraws: seq<int>, draws: seq<int>): Snapshot
    requires ValidDraws(draws)
  {
    ShuffleRows(s.(fingerprintCol := 0, fingerprints := patternDraws, levelStartTime := now), draws)
  }

  /** `switchRow(xSign, ySign)`: nothing once solved; with `xSign == 0` the
      cursor moves by `ySign`, otherwise the selected row rotates by `xSign`,
      both wrapping around the eight rows. */
  function SwitchRow(s: Snapshot, xSign: int, ySign: int): Snapshot
    requires 0 <= s.selectedRow < |s.shuffledRows|
  {
    if s.solved then s
    else if xSign == 0 then
      s.(selectedRow := JsRemainder(MaxRows + s.selectedRow + ySign, MaxRows))
    else
      var row := s.shuffledRows[s.selectedRow];
      s.(shuffledRows := s.shuffledRows[s.selectedRow := JsRemainder(MaxRows + row + xSign, MaxRows)])
  }

  /** `updateLevel(nFrames)` at time `now`: an unsolved stage recomputes the
      solving time and checks whether it is solved; a solved one counts its
      cooldown down by `nFrames` frames and, once that has run out, moves to
      the next stage or starts a new level. */
  function UpdateLevel(s: Snapshot, difficulty: int, nFrames: int, now: int,
                       patternDraws: seq<int>, draws: seq<int>): Snapshot
    requires ValidDraws(draws) && 0 <= s.fingerprintCol < difficulty <= MaxDifficulty
  {
    if s.solved then
      var cooldown := s.cooldown - nFrames * FrameTime;
      if cooldown <= 0 then
        var next := s.(cooldown := 0, fingerprintCol := s.fingerprintCol + 1);
        if next.fingerprintCol == difficulty then LoadLevel(next, now, patternDraws, draws)
        else ShuffleRows(next, draws)
      else s.(cooldown := cooldown)
    else
      var timed := s.(solvingTime := now - s.levelStartTime - s.fingerprintCol * SuccessCooldown);
      if IsIdentity(s.shuffledRows) then timed.(solved := true, cooldown := SuccessCooldown)
      else timed
  }

  // ---------------------------------------------------------------------
  // Stage start

  /** A freshly generated stage is unsolved, has its cursor on row 0, fixes
      the rows from `nRandRows[stage]` on and is not the solved arrangement. */
  lemma ShuffleRowsStartsStage(s: Snapshot, draws: seq<int>)
    requires ValidDraws(draws) && 0 <= s.fingerprintCol < |NRandRowsTable|
    ensures var r := ShuffleRows(s, draws);
      && !r.solved && r.selectedRow == 0
      && r.fingerprintCol == s.fingerprintCol && r.fingerprints == s.fingerprints
      && !IsIdentity(r.shuffledRows)
      && forall k :: NRandRows(s.fingerprintCol) <= k < MaxRows ==> r.shuffledRows[k] == k
  {
  }

  /** A new level: stage 0, the drawn pattern ids, timed from `now`. */
  lemma LoadLevelStartsLevel(s: Snapshot, difficulty: int, now: int, patternDraws: seq<int>, draws: seq<int>)
    requires ValidDraws(draws) && ValidPatternDraws(patternDraws, difficulty)
    requires 1 <= difficulty <= MaxDifficulty && 0 <= s.cooldown <= SuccessCooldown
    ensures var r := LoadLevel(s, now, patternDraws, draws);
      && WellFormed(r, difficulty)
      && r.fingerprintCol == 0 && r.fingerprints == patternDraws && r.levelStartTime == now
      && !r.solved && r.selectedRow == 0 && r.shuffledRows == GenerateStage(draws, 0)
  {
  }

  /** An update right after a stage was generated leaves it unsolved: a stage
      is never solved before the player has moved a row. */
  lemma FreshStageNotSolved(s: Snapshot, difficulty: int, draws: seq<int>, nFrames: int, now: int,
                            patternDraws: seq<int>, later: seq<int>)
    requires ValidDraws(draws) && ValidDraws(later)
    requires 0 <= s.fingerprintCol < difficulty <= MaxDifficulty
    ensures var started := ShuffleRows(s, draws);
      var r := UpdateLevel(started, difficulty, nFrames, now, patternDraws, later);
      !r.solved && r.shuffledRows == started.shuffledRows
  {
    var started := ShuffleRows(s, draws);
    assert !IsIdentity(started.shuffledRows);
  }

  /** The first wake-up after a new level meets an unsolved stage, so an
      update there only records the time elapsed since the level was loaded. */
  lemma FirstUpdateOnlyTimes(s: Snapshot, difficulty: int, nFrames: int, loadNow: int, wakeNow: int,
                             patternDraws: seq<int>, draws: seq<int>)
    requires ValidDraws(draws) && 1 <= difficulty <= MaxDifficulty
    ensures var loaded := LoadLevel(s, loadNow, patternDraws, draws);
      UpdateLevel(loaded, difficulty, nFrames, wakeNow, patternDraws, draws)
        == loaded.(solvingTime := wakeNow - loadNow)
  {
    ShuffleRowsStartsStage(s.(fingerprintCol := 0, fingerprints := patternDraws, levelStartTime := loadNow), draws);
  }

  // ---------------------------------------------------------------------
  // Input

  lemma SwitchRowWhenSolved(s: Snapshot, xSign: int, ySign: int)
    requires 0 <= s.selectedRow < |s.shuffledRows| && s.solved
    ensures SwitchRow(s, xSign, ySign) == s
  {
  }

  /** With `xSign == 0` only the cursor changes, by `ySign` modulo 8. */
  lemma SwitchRowMoves(s: Snapshot, ySign: int)
    requires |s.shuffledRows| == MaxRows && 0 <= s.selectedRow < MaxRows && !s.solved
    requires ySign + MaxRows >= 0
    ensures var r := SwitchRow(s, 0, ySign);
      && r == s.(selectedRow := (s.selectedRow + ySign) % MaxRows)
      && 0 <= r.selectedRow < MaxRows
  {
  }

  /** With `xSign != 0` only the selected row changes, by `xSign` modulo 8. */
  lemma SwitchRowRotates(s: Snapshot, xSign: int, ySign: int)
    requires |s.shuffledRows| == MaxRows && 0 <= s.selectedRow < MaxRows && !s.solved
    requires InRange(s.shuffledRows, MaxRows) && xSign != 0 && xSign + MaxRows >= 0
    ensures var r := SwitchRow(s, xSign, ySign);
      && r.selectedRow == s.selectedRow && |r.shuffledRows| == MaxRows
      && r.shuffledRows[s.selectedRow] == (s.shuffledRows[s.selectedRow] + xSign) % MaxRows
      && (forall k :: 0 <= k < MaxRows && k != s.selectedRow ==> r.shuffledRows[k] == s.shuffledRows[k])
      && r == s.(shuffledRows := r.shuffledRows)
  {
  }

  /** Rotating the selected row right and then left restores every row. */
  lemma RotateRoundTrip(s: Snapshot)
    requires |s.shuffledRows| == MaxRows && 0 <= s.selectedRow < MaxRows && !s.solved
    requires InRange(s.shuffledRows, MaxRows)
    ensures var right := SwitchRow(s, 1, 0);
      && InRange(right.shuffledRows, MaxRows)
      && SwitchRow(right, -1, 0) == s
  {
    var right := SwitchRow(s, 1, 0);
    var i := s.selectedRow;
    assert right.shuffledRows[i] == (MaxRows + s.shuffledRows[i] + 1) % MaxRows;
    assert right.shuffledRows[i := (MaxRows + right.shuffledRows[i] - 1) % MaxRows] == s.shuffledRows;
  }

  /** Moving the cursor down and then up puts it back. */
  lemma MoveRoundTrip(s: Snapshot)
    requires |s.shuffledRows| == MaxRows && 0 <= s.selectedRow < MaxRows && !s.solved
    ensures SwitchRow(SwitchRow(s, 0, 1), 0, -1) == s
  {
  }

  /** Unit moves and rotations keep the state well formed. */
  lemma SwitchRowKeepsWellFormed(s: Snapshot, difficulty: int, xSign: int, ySign: int)
    requires WellFormed(s, difficulty)
    requires -1 <= xSign <= 1 && -1 <= ySign <= 1
    ensures WellFormed(SwitchRow(s, xSign, ySign), difficulty)
  {
  }

  // ---------------------------------------------------------------------
  // Updates

  /** On an unsolved stage the update solves it exactly when every row shows
      its own slice, and sets the cooldown to 1500 ms then; it touches neither
      the rows nor the stage index, and the solving time is the time since
      the level started less one cooldown per stage already solved. */
  lemma SolvedCheck(s: Snapshot, difficulty: int, nFrames: int, now: int,
                    patternDraws: seq<int>, draws: seq<int>)
    requires ValidDraws(draws) && 0 <= s.fingerprintCol < difficulty <= MaxDifficulty
    requires !s.solved
    ensures var r := UpdateLevel(s, difficulty, nFrames, now, patternDraws, draws);
      && (r.solved <==> IsIdentity(s.shuffledRows))
      && (r.solved ==> r.cooldown == SuccessCooldown)
      && (!r.solved ==> r.cooldown == s.cooldown)
      && r.shuffledRows == s.shuffledRows && r.fingerprintCol == s.fingerprintCol
      && r.fingerprints == s.fingerprints && r.selectedRow == s.selectedRow
      && r.solvingTime == now - s.levelStartTime - s.fingerprintCol * SuccessCooldown
  {
  }

  /** While the cooldown lasts, the update only lowers it, by `nFrames` frames. */
  lemma CooldownCountsDown(s: Snapshot, difficulty: int, nFrames: int, now: int,
                           patternDraws: seq<int>, draws: seq<int>)
    requires ValidDraws(draws) && 0 <= s.fingerprintCol < difficulty <= MaxDifficulty
    requires s.solved && nFrames >= 1 && s.cooldown > nFrames * FrameTime
    ensures var r := UpdateLevel(s, difficulty, nFrames, now, patternDraws, draws);
      && r == s.(cooldown := s.cooldown - nFrames * FrameTime)
      && 0 < r.cooldown < s.cooldown
  {
  }

  /** When the cooldown runs out the stage index advances exactly once,
      however many frames the batch held; after the last stage a new level
      starts at stage 0 with the drawn pattern ids. */
  lemma CooldownExpiryAdvancesOnce(s: Snapshot, difficulty: int, nFrames: int, now: int,
                                   patternDraws: seq<int>, draws: seq<int>)
    requires ValidDraws(draws) && 0 <= s.fingerprintCol < difficulty <= MaxDifficulty
    requires s.solved && s.cooldown <= nFrames * FrameTime
    ensures var r := UpdateLevel(s, difficulty, nFrames, now, patternDraws, draws);
      && r.cooldown == 0 && !r.solved && r.selectedRow == 0 && !IsIdentity(r.shuffledRows)
      && (s.fingerprintCol + 1 < difficulty ==>
            && r.fingerprintCol == s.fingerprintCol + 1
            && r.fingerprints == s.fingerprints && r.levelStartTime == s.levelStartTime
            && r.shuffledRows == GenerateStage(draws, s.fingerprintCol + 1))
      && (s.fingerprintCol + 1 == difficulty ==>
            && r.fingerprintCol == 0
            && r.fingerprints == patternDraws && r.levelStartTime == now
            && r.shuffledRows == GenerateStage(draws, 0))
  {
  }

  /** A batch of three frames against 50 ms of cooldown still advances one stage. */
  lemma ThreeFramesAdvanceOneStage(s: Snapshot, difficulty: int, now: int,
                                   patternDraws: seq<int>, draws: seq<int>)
    requires ValidDraws(draws) && WellFormed(s, difficulty)
    requires s.solved && s.cooldown == 50 && s.fingerprintCol + 1 < difficulty
    ensures var r := UpdateLevel(s, difficulty, 3, now, patternDraws, draws);
      r.fingerprintCol == s.fingerprintCol + 1 && r.cooldown == 0 && !r.solved
  {
    CooldownExpiryAdvancesOnce(s, difficulty, 3, now, patternDraws, draws);
  }

  /** Updates keep the state well formed: in particular the stage index stays
      in `[0, difficulty)` and a solved stage always has cooldown left. */
  lemma UpdateKeepsWellFormed(s: Snapshot, difficulty: int, nFrames: int, now: int,
                              patternDraws: seq<int>, draws: seq<int>)
    requires WellFormed(s, difficulty) && nFrames >= 1
    requires ValidDraws(draws) && ValidPatternDraws(patternDraws, difficulty)
    ensures WellFormed(UpdateLevel(s, difficulty, nFrames, now, patternDraws, draws), difficulty)
  {
  }
}
