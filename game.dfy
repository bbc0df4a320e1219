/** The game as the program runs it: the module-level variables of the
    script bundled in one object, the operations that assign them step by
    step, the fixed-timestep frame loop and the key handler. Every method is
    proved to leave the puzzle state that the functions of module Puzzle
    describe. */
module Game {
  import opened Stage
  import opened Puzzle

  /** The keys the handler reacts to; every other key is `OtherKey`. */
  datatype Key = KeyA | KeyD | KeyW | KeyS | Backspace | OtherKey

  /** `Math.floor(elapsed / FRAME_TIME)`: the frame the clock has reached. */
  function NextFrame(elapsed: nat): nat
  {
    elapsed / FrameTime
  }

  /** `FRAME_TIME - elapsed % FRAME_TIME`: the delay until the next frame boundary. */
  function TimeToNext(elapsed: nat): int
  {
    FrameTime - elapsed % FrameTime
  }

  /** The frame reached lies on the grid of whole frames, and the delay lands
      exactly on the next boundary, so the loop never drifts off the grid and
      never skips a frame number. */
  lemma FrameGrid(elapsed: nat)
    ensures NextFrame(elapsed) * FrameTime <= elapsed < (NextFrame(elapsed) + 1) * FrameTime
    ensures 0 < TimeToNext(elapsed) <= FrameTime
    ensures (elapsed + TimeToNext(elapsed)) % FrameTime == 0
    ensures NextFrame(elapsed + TimeToNext(elapsed)) == NextFrame(elapsed) + 1
  {
    var f, r := elapsed / FrameTime, elapsed % FrameTime;
    assert elapsed == f * FrameTime + r;
    assert elapsed + TimeToNext(elapsed) == (f + 1) * FrameTime;
  }

  /** The first two loops of `shuffleRows`: the identity arrangement, then
      the forward Fisher-Yates pass, step `i` swapping row `i` with row
      `i + draws[i]`. */
  method FisherYatesPass(draws: seq<int>) returns (rows: seq<int>)
    requires ValidDraws(draws)
    ensures rows == FisherYates(draws)
    ensures multiset(rows) == multiset(Identity(MaxRows))
  {
    rows := [];
    for i := 0 to MaxRows
      invariant rows == Identity(i)
    {
      rows := rows + [i];
    }
    for i := 0 to MaxRows
      invariant rows == ShufflePrefix(draws, i)
    {
      var randRow := i + draws[i];
      var temp := rows[i];
      rows := rows[i := rows[randRow]];
      rows := rows[randRow := temp];
    }
    ShufflePrefixPermutes(draws, |draws|);
  }

  /** The third loop of `shuffleRows`: every row from `from` on is set back to
      its own index, the others keep their value. */
  method ResetRows(s: seq<int>, from: int) returns (rows: seq<int>)
    requires 0 <= from <= |s|
    ensures rows == ResetTail(s, from)
    ensures |rows| == |s| && forall k :: 0 <= k < |s| ==> rows[k] == if k >= from then k else s[k]
  {
    rows := s;
    for i := from to |s|
      invariant |rows| == |s|
      invariant forall k :: 0 <= k < |s| ==> rows[k] == if from <= k < i then k else s[k]
    {
      rows := rows[i := i];
    }
  }

  /** The sortedness scan of `shuffleRows` and the solved check of
      `updateLevel`: true exactly when every row shows its own slice. */
  method IsOrdered(rows: seq<int>) returns (ordered: bool)
    ensures ordered <==> IsIdentity(rows)
  {
    ordered := true;
    for i := 0 to |rows|
      invariant ordered == SortedUpTo(rows, i)
    {
      SortedUpToStep(rows, i);
      if rows[i] != i {
        ordered := false;
      }
    }
  }

  class Session {
    /** `difficulty`: the number of stages per level (nRandRows has four entries). */
    const difficulty: int

    var fingerprintCol: int
    var selectedRow: int
    var shuffledRows: seq<int>
    var fingerprints: seq<int>
    var solved: bool
    var levelStartTime: int
    var solvingTime: int
    var cooldown: int

    /** The frame loop's start time and the number of frames it has simulated. */
    var startTime: int
    var frameCount: int
    /** How many times `updateLevel` has run since the last reset. */
    ghost var updates: int

    function Snap(): Snapshot
      reads this`fingerprints, this`fingerprintCol, this`shuffledRows, this`selectedRow
      reads this`solved, this`cooldown, this`levelStartTime, this`solvingTime
    {
      Snapshot(fingerprints, fingerprintCol, shuffledRows, selectedRow, solved,
               cooldown, levelStartTime, solvingTime)
    }

    ghost predicate Valid()
      reads this
    {
      && WellFormed(Snap(), difficulty)
      && 0 <= updates <= frameCount
    }

    /** The script's start: the variables at their initial values, then
        `startFrameLoop` once the assets are in. */
    constructor (difficulty: int, loadNow: int, startNow: int, wakeNow: int,
                 patternDraws: seq<int>, rowDraws: seq<int>)
      requires 1 <= difficulty <= MaxDifficulty
      requires ValidPatternDraws(patternDraws, difficulty) && ValidDraws(rowDraws)
      requires loadNow <= startNow <= wakeNow
      ensures Valid() && this.difficulty == difficulty
      ensures startTime == startNow && frameCount == NextFrame(wakeNow - startNow)
      ensures var loaded := Puzzle.LoadLevel(Initial, loadNow, patternDraws, rowDraws);
        Snap() == if frameCount > 0 then loaded.(solvingTime := wakeNow - loadNow) else loaded
    {
      this.difficulty := difficulty;
      fingerprintCol, selectedRow := 0, 0;
      shuffledRows, fingerprints := [], [];
      solved := false;
      levelStartTime, solvingTime, cooldown := 0, 0, 0;
      startTime, frameCount := 0, 0;
      updates := 0;
      new;
      var delay := StartFrameLoop(loadNow, startNow, wakeNow, patternDraws, rowDraws);
    }

    /** `shuffleRows`, drawing the Fisher-Yates pass from `draws`. */
    method ShuffleRows(draws: seq<int>)
      requires ValidDraws(draws) && 0 <= fingerprintCol < |NRandRowsTable|
      modifies this`shuffledRows, this`solved, this`selectedRow
      ensures Snap() == Puzzle.ShuffleRows(old(Snap()), draws)
      ensures !solved && selectedRow == 0 && !IsIdentity(shuffledRows)
    {
      solved := false;
      selectedRow := 0;
      var rows := FisherYatesPass(draws);
      rows := ResetRows(rows, NRandRows(fingerprintCol));
      var isOrdered := IsOrdered(rows);
      if isOrdered {
        rows := rows[0 := 1];
      }
      shuffledRows := rows;
    }

    /** `loadLevel`: stage 0, `difficulty` pattern ids drawn from `patternDraws`,
        the level timed from `now`, and a fresh stage. */
    method LoadLevel(now: int, patternDraws: seq<int>, rowDraws: seq<int>)
      requires 1 <= difficulty <= MaxDifficulty
      requires ValidPatternDraws(patternDraws, difficulty) && ValidDraws(rowDraws)
      modifies this`fingerprintCol, this`fingerprints, this`levelStartTime
      modifies this`shuffledRows, this`solved, this`selectedRow
      ensures Snap() == Puzzle.LoadLevel(old(Snap()), now, patternDraws, rowDraws)
    {
      fingerprintCol := 0;
      fingerprints := [];
      for i := 0 to difficulty
        modifies this`fingerprints
        invariant fingerprints == patternDraws[..i]
      {
        fingerprints := fingerprints + [patternDraws[i]];
      }
      assert fingerprints == patternDraws;
      levelStartTime := now;
      ghost var level := Snap();
      assert level == old(Snap()).(fingerprintCol := 0, fingerprints := patternDraws, levelStartTime := now);
      ShuffleRows(rowDraws);
    }

    /** `switchRow(xSign, ySign)` for the unit steps the keys send. */
    method SwitchRow(xSign: int, ySign: int)
      requires Valid() && -1 <= xSign <= 1 && -1 <= ySign <= 1
      modifies this`selectedRow, this`shuffledRows
      ensures Valid()
      ensures Snap() == Puzzle.SwitchRow(old(Snap()), xSign, ySign)
    {
      SwitchRowKeepsWellFormed(Snap(), difficulty, xSign, ySign);
      if solved {
        return;
      }
      if xSign == 0 {
        selectedRow := JsRemainder(MaxRows + selectedRow + ySign, MaxRows);
      } else {
        shuffledRows := shuffledRows[selectedRow := JsRemainder(MaxRows + shuffledRows[selectedRow] + xSign, MaxRows)];
      }
    }

    /** `updateLevel(nFrames)` at time `now`; a stage or level that starts
        takes its random values from `patternDraws` and `rowDraws`. */
    method UpdateLevel(nFrames: int, now: int, patternDraws: seq<int>, rowDraws: seq<int>)
      requires WellFormed(Snap(), difficulty) && nFrames >= 1
      requires ValidPatternDraws(patternDraws, difficulty) && ValidDraws(rowDraws)
      modifies this`cooldown, this`fingerprintCol, this`fingerprints, this`levelStartTime
      modifies this`shuffledRows, this`solved, this`selectedRow, this`solvingTime
      ensures Snap() == Puzzle.UpdateLevel(old(Snap()), difficulty, nFrames, now, patternDraws, rowDraws)
    {
      ghost var before := Snap();
      ghost var after := Puzzle.UpdateLevel(before, difficulty, nFrames, now, patternDraws, rowDraws);
      if solved {
        cooldown := cooldown - nFrames * FrameTime;
        if cooldown <= 0 {
          cooldown := 0;
          fingerprintCol := fingerprintCol + 1;
          ghost var next := Snap();
          assert next == before.(cooldown := 0, fingerprintCol := before.fingerprintCol + 1);
          if fingerprintCol == difficulty {
            assert after == Puzzle.LoadLevel(next, now, patternDraws, rowDraws);
            LoadLevel(now, patternDraws, rowDraws);
          } else {
            assert after == Puzzle.ShuffleRows(next, rowDraws);
            ShuffleRows(rowDraws);
          }
        } else {
          assert Snap() == after;
        }
      } else {
        solvingTime := now - levelStartTime - fingerprintCol * SuccessCooldown;
        var tempSolved := IsOrdered(shuffledRows);
        if tempSolved {
          solved := true;
          cooldown := SuccessCooldown;
        }
        assert Snap() == after;
      }
    }

    /** One wake-up of the frame loop at time `now`: when the clock has passed
        one or more frame boundaries since the last update, one `updateLevel`
        for the whole batch, and then the delay to the next boundary. */
    method Loop(now: int, patternDraws: seq<int>, rowDraws: seq<int>) returns (timeToNext: int)
      requires Valid() && startTime <= now
      requires ValidPatternDraws(patternDraws, difficulty) && ValidDraws(rowDraws)
      modifies this`cooldown, this`fingerprintCol, this`fingerprints, this`levelStartTime
      modifies this`shuffledRows, this`solved, this`selectedRow, this`solvingTime
      modifies this`frameCount, this`updates
      ensures Valid()
      ensures timeToNext == TimeToNext(now - startTime)
      ensures frameCount == if NextFrame(now - startTime) > old(frameCount) then NextFrame(now - startTime) else old(frameCount)
      ensures frameCount > old(frameCount) ==>
        && updates == old(updates) + 1
        && Snap() == Puzzle.UpdateLevel(old(Snap()), difficulty, frameCount - old(frameCount),
                                        now, patternDraws, rowDraws)
      ensures frameCount == old(frameCount) ==> updates == old(updates) && Snap() == old(Snap())
    {
      var elapsed := now - startTime;
      var nextFrame := NextFrame(elapsed);
      if nextFrame > frameCount {
        var nFrames := nextFrame - frameCount;
        UpdateKeepsWellFormed(Snap(), difficulty, nFrames, now, patternDraws, rowDraws);
        UpdateLevel(nFrames, now, patternDraws, rowDraws);
        updates := updates + 1;
        frameCount := nextFrame;
      }
      timeToNext := TimeToNext(elapsed);
    }

    /** The first four statements of `startFrameLoop`: a new level loaded at
        `loadNow`, then the frame clock restarted at `startNow`. */
    method Restart(loadNow: int, startNow: int, patternDraws: seq<int>, rowDraws: seq<int>)
      requires 1 <= difficulty <= MaxDifficulty && 0 <= cooldown <= SuccessCooldown
      requires ValidPatternDraws(patternDraws, difficulty) && ValidDraws(rowDraws)
      modifies this
      ensures Valid()
      ensures Snap() == Puzzle.LoadLevel(old(Snap()), loadNow, patternDraws, rowDraws)
      ensures startTime == startNow && frameCount == 0 && updates == 0
    {
      LoadLevelStartsLevel(Snap(), difficulty, loadNow, patternDraws, rowDraws);
      LoadLevel(loadNow, patternDraws, rowDraws);
      startTime := startNow;
      frameCount := 0;
      updates := 0;
    }

    /** `startFrameLoop`, with its three readings of the clock: `loadNow` in
        `loadLevel`, `startNow` for `startTime` once the level is drawn, and
        `wakeNow` in the first run of `loop`. The first wake-up updates only
        when a whole frame went by in between, and then only records the
        solving time, since a fresh stage is never solved. */
    method StartFrameLoop(loadNow: int, startNow: int, wakeNow: int, patternDraws: seq<int>, rowDraws: seq<int>)
      returns (timeToNext: int)
      requires 1 <= difficulty <= MaxDifficulty && 0 <= cooldown <= SuccessCooldown
      requires ValidPatternDraws(patternDraws, difficulty) && ValidDraws(rowDraws)
      requires loadNow <= startNow <= wakeNow
      modifies this
      ensures Valid()
      ensures startTime == startNow && frameCount == NextFrame(wakeNow - startNow)
      ensures updates == if frameCount > 0 then 1 else 0
      ensures timeToNext == TimeToNext(wakeNow - startNow)
      ensures var loaded := Puzzle.LoadLevel(old(Snap()), loadNow, patternDraws, rowDraws);
        Snap() == if frameCount > 0 then loaded.(solvingTime := wakeNow - loadNow) else loaded
    {
      Restart(loadNow, startNow, patternDraws, rowDraws);
      ghost var loaded := Snap();
      timeToNext := Loop(wakeNow, patternDraws, rowDraws);
      if frameCount > 0 {
        FirstUpdateOnlyTimes(old(Snap()), difficulty, frameCount, loadNow, wakeNow, patternDraws, rowDraws);
      }
    }

    /** The keydown handler: A and D rotate the selected row left and right,
        W and S move the cursor up and down, Backspace restarts the loop,
        which reads the clock at `loadNow`, `startNow` and `wakeNow`. */
    method KeyDown(key: Key, loadNow: int, startNow: int, wakeNow: int,
                   patternDraws: seq<int>, rowDraws: seq<int>)
      requires Valid()
      requires ValidPatternDraws(patternDraws, difficulty) && ValidDraws(rowDraws)
      requires loadNow <= startNow <= wakeNow
      modifies this
      ensures Valid()
      ensures key != Backspace ==> startTime == old(startTime) && frameCount == old(frameCount)
      ensures match key
        case KeyA => Snap() == Puzzle.SwitchRow(old(Snap()), -1, 0)
        case KeyD => Snap() == Puzzle.SwitchRow(old(Snap()), 1, 0)
        case KeyW => Snap() == Puzzle.SwitchRow(old(Snap()), 0, -1)
        case KeyS => Snap() == Puzzle.SwitchRow(old(Snap()), 0, 1)
        case Backspace =>
          var loaded := Puzzle.LoadLevel(old(Snap()), loadNow, patternDraws, rowDraws);
          && Snap() == (if frameCount > 0 then loaded.(solvingTime := wakeNow - loadNow) else loaded)
          && startTime == startNow && frameCount == NextFrame(wakeNow - startNow)
        case OtherKey => Snap() == old(Snap())
    {
      match key
      case KeyA => SwitchRow(-1, 0);
      case KeyD => SwitchRow(1, 0);
      case KeyW => SwitchRow(0, -1);
      case KeyS => SwitchRow(0, 1);
      case Backspace =>
        var delay := StartFrameLoop(loadNow, startNow, wakeNow, patternDraws, rowDraws);
      case OtherKey =>
    }
  }
}
