# Print cloner puzzle: a verified model

The game shows a fingerprint cut into eight horizontal slices. Each row of the
puzzle shows one slice. The player moves a cursor over the rows (W, S) and
rotates the slice shown in the selected row (A, D). A stage is solved when
every row shows its own slice. After a 1500 ms success cooldown the next stage
of the level starts. A level has `difficulty` stages (four in the game). Later
stages shuffle more rows: the table `nRandRows = [4, 5, 6, 8]` is indexed by
the stage. After the last stage a new level starts with freshly drawn pattern
ids. A fixed-timestep frame loop drives the updates (33 ms per frame). The
screen shows the solving time as `MM:SS:CC`.

The model has five modules:

- `Timing`: `formatTimeInterval`. It covers decimal digits, `padStart`, and
  reading an `MM:SS:CC` text back into milliseconds.
- `Display`: the two integer computations of the drawing step. One is the
  elapsed-time text with its `"99:59:99"` sentinel. The other is the index of
  the success image.
- `Stage`: `shuffleRows` as a function of its random draws. It runs a forward
  Fisher-Yates pass, resets the tail rows, then applies the sorted guard.
- `Puzzle`: a `Snapshot` datatype of the puzzle's variables. The functions
  `ShuffleRows`, `LoadLevel`, `SwitchRow` and `UpdateLevel` give what each
  operation makes of the state. Lemmas state the transitions' properties.
- `Game`: the script's module-level variables as the fields of one class.
  Each operation is a method that assigns these fields step by step, using the
  loops the script has. Each method is proved to leave the state that the
  matching `Puzzle` function gives (`Snap() == Puzzle.X(old(Snap()), ...)`).
  `Valid()` is the invariant the methods keep. It says the snapshot is well
  formed and that `updateLevel` has run no more often than there were frames.

Replacements for what the model cannot see:

- `Math.random()` draws are sequence parameters. For the rows, draw `i` lies
  in `[0, 8 - i)`; for the pattern ids, each draw lies in `[0, 8)`.
- Each `performance.now()` reading is an integer parameter. `startFrameLoop`
  reads the clock three times (in `loadLevel`, for `startTime`, and in the
  first `loop`); these are `loadNow <= startNow <= wakeNow`.
- Times are whole milliseconds.

## Model

| member | source | states |
|---|---|---|
| Timing.DecimalRoundTrip | script.js:73 | `String(n)` of a natural reads back as `n` |
| Timing.DecimalLength | script.js:73 | `String(n)` is one character exactly below 10, at most two exactly below 100 |
| Timing.PadStartShape | script.js:73 | `padStart` yields at least `width` characters: copies of the fill, then the original string |
| Timing.PadDigits | script.js:73 | `pad(n)` is all digits and at least two long; it is exactly two long iff `n < 100`, and then it reads back as `n` |
| Timing.PadSmall | script.js:73 | below 100, `pad(n)` is the tens digit followed by the units digit |
| Timing.FormatLength | script.js:65-76 | the text is at least 8 characters; exactly 8 iff the difference is under 100 minutes (seconds stay below 60, centiseconds below 100) |
| Timing.FieldBounds | script.js:68-71 | seconds < 60, centiseconds < 100, minutes < 100 iff the difference is under 6 000 000 ms |
| Timing.FieldArithmetic | script.js:66-71 | the three fields give back the difference truncated to a multiple of 10 ms |
| Timing.FormatRoundTrip | script.js:65-76 | under 100 minutes the text reads back, with a seconds field below 60, as the absolute difference truncated to whole centiseconds |
| Timing.ParseDisplayInjective | script.js:65-76 | two `MM:SS:CC` texts (seconds below 60) that read back as the same value are the same text, so the value fixes the text |
| Timing.FormatSymmetric | script.js:66 | swapping the two arguments gives the same text (`Math.abs`) |
| Timing.FormatZero | script.js:65-76 | a zero difference is `"00:00:00"` |
| Timing.FormatExample | script.js:65-76 | 61 234 ms is `"01:01:23"`; -500 and 500 format alike |
| Display.ElapsedText | script.js:288-290 | the drawn text is always 8 characters; it reads back as the solving time's magnitude truncated to centiseconds, saturated at 99:59:99 |
| Display.ElapsedTextDetermined | script.js:288-290 | the text that contract describes is unique: any text reading back as that value is the drawn text |
| Display.TruncationBound | script.js:288-290 | below 6 000 000 ms the truncated time is at most 5 999 990; from there on it is above |
| Display.SentinelReadsBack | script.js:290 | `"99:59:99"` reads back as 5 999 990 ms |
| Display.DigitsAtPlaces | script.js:291-297 | every text that reads back has a digit at each place but 2 and 5 and a colon at those, so each character picks a digit image or the colon image |
| Display.SuccessImage | script.js:299-302 | the success image index is 0 or 1 |
| Display.SuccessImageAlternates | script.js:300 | during the cooldown, the image switches every 500 ms |
| Stage.NRandRows | script.js:171-173 | the number of shuffled rows for the stage lies in `(0, 8]` |
| Stage.SortedUpToStep | script.js:176-178 | the flag of the sortedness scan after row `i` is the old flag and row `i` showing slice `i` |
| Stage.SwapPermutes | script.js:166-169 | one swap step keeps the multiset of rows |
| Stage.ShufflePrefixPermutes | script.js:162-170 | after every step of the Fisher-Yates pass, the rows are a permutation of `0 .. 7` |
| Stage.PermutationInRange | script.js:162-170 | a permutation of `0 .. n-1` holds only values in `[0, n)` |
| Stage.GenerateStage | script.js:159-181 | a stage has 8 rows with slices in `[0, 8)`; every row from `nRandRows[stage]` on shows its own slice; it is never the solved arrangement |
| Stage.GuardOnlyWhenSorted | script.js:175-180 | the guard changes a sorted arrangement only in row 0, to slice 1; any other arrangement is left as it is |
| Stage.LastStageIsPermutation | script.js:171-173 | in the last stage no row is reset, so unless the pass left the rows sorted, the stage is a permutation |
| Stage.ZeroDrawsKeepIdentity | script.js:165-170 | all-zero draws leave the identity after every step |
| Stage.AllZeroDraws | script.js:159-181 | all-zero draws give `[1,1,2,3,4,5,6,7]` in every stage |
| Stage.SevenThenZerosPrefix | script.js:165-170 | the draws `[7,0,...,0]` give `[7,1,2,3,4,5,6,0]` after every step |
| Stage.ResetCanRepeatASlice | script.js:171-173 | in stage 0 those draws give `[7,1,2,3,4,5,6,7]`, which is not a permutation |
| Puzzle.ShuffleRowsStartsStage | script.js:159-181 | a new stage is unsolved, with the cursor on row 0, the stage index and pattern ids unchanged, the tail fixed, and not the solved arrangement |
| Puzzle.LoadLevelStartsLevel | script.js:219-226 | a new level is well formed: stage 0, the drawn pattern ids, timed from `now`, the first stage generated |
| Puzzle.FreshStageNotSolved | script.js:206-216 | an update right after a stage is generated leaves it unsolved |
| Puzzle.FirstUpdateOnlyTimes | script.js:206-216 | an update right after a new level only sets the solving time to the time since the level was loaded |
| Puzzle.SwitchRowWhenSolved | script.js:184-185 | once solved, `switchRow` changes nothing |
| Puzzle.SwitchRowMoves | script.js:186-188 | with `xSign == 0`, only the cursor changes, to `(selectedRow + ySign) mod 8` in `[0, 8)` |
| Puzzle.SwitchRowRotates | script.js:189-191 | with `xSign != 0`, only the selected row changes, to `(old + xSign) mod 8`; the other rows and the cursor stay |
| Puzzle.RotateRoundTrip | script.js:190 | rotating right and then left restores every row, and all values stay in `[0, 8)` |
| Puzzle.MoveRoundTrip | script.js:187 | moving the cursor down and then up puts it back |
| Puzzle.SwitchRowKeepsWellFormed | script.js:183-192 | unit moves and rotations keep the state well formed |
| Puzzle.SolvedCheck | script.js:206-216 | unsolved: `solved` becomes true, with cooldown 1500, iff every row shows its own slice; the rows, stage, pattern ids and cursor stay; the solving time is `now - levelStartTime - stage * 1500` |
| Puzzle.CooldownCountsDown | script.js:195-196 | while the cooldown lasts, the update only lowers it by `nFrames * 33` |
| Puzzle.CooldownExpiryAdvancesOnce | script.js:195-205 | on expiry the cooldown is 0 and the stage advances exactly once, whatever `nFrames`; after the last stage, a level starts at stage 0 with the drawn pattern ids |
| Puzzle.ThreeFramesAdvanceOneStage | script.js:195-205 | three frames against 50 ms of cooldown advance one stage |
| Puzzle.UpdateKeepsWellFormed | script.js:194-217 | updates keep `0 <= stage < difficulty`, the row and pattern ranges, and `solved ==> 0 < cooldown <= 1500` |
| Game.FrameGrid | script.js:310-327 | `nextFrame * 33 <= elapsed < (nextFrame + 1) * 33`; the delay lies in `(0, 33]` and lands on the next frame boundary |
| Game.FisherYatesPass | script.js:162-170 | the push loop and the swap loop yield the Fisher-Yates arrangement, a permutation of `0 .. 7` |
| Game.ResetRows | script.js:171-173 | the reset loop sets every row from `from` on to its own index and keeps the others |
| Game.IsOrdered | script.js:175-178 | the scan's flag (also the solved scan at lines 208-211) is true iff every row shows its own slice |
| Game.Session.constructor | script.js:54-62 | the initial variables, then `startFrameLoop`: the first level is loaded at the first clock reading, the frame clock starts at the second, and the state is valid |
| Game.Session.ShuffleRows | script.js:159-181 | the fields become exactly `Puzzle.ShuffleRows` of the old state: unsolved, cursor 0, never sorted |
| Game.Session.LoadLevel | script.js:219-226 | the fields become exactly `Puzzle.LoadLevel` of the old state |
| Game.Session.SwitchRow | script.js:183-192 | the fields become exactly `Puzzle.SwitchRow` of the old state, and stay valid |
| Game.Session.UpdateLevel | script.js:194-217 | the fields become exactly `Puzzle.UpdateLevel` of the old state |
| Game.Session.Loop | script.js:309-328 | moves `frameCount` to `nextFrame` only when that is ahead; then `updateLevel` runs once with `nFrames = nextFrame - frameCount`, otherwise nothing changes; the state stays valid; the delay is `33 - elapsed % 33` |
| Game.Session.Restart | script.js:331-334 | a new level timed from `loadNow`, then the frame clock restarted at `startNow` with `frameCount` zero; the state is valid |
| Game.Session.StartFrameLoop | script.js:331-335 | a new level timed from `loadNow`, the frame clock started at `startNow`, then the first wake-up at `wakeNow`: `frameCount` becomes the frames elapsed since `startNow`; when that is positive the one update only records the solving time `wakeNow - loadNow`; the delay is `33 - (wakeNow - startNow) % 33` |
| Game.Session.KeyDown | script.js:367-390 | A, D, W and S are `switchRow(-1,0)`, `(1,0)`, `(0,-1)` and `(0,1)`; Backspace restarts the loop as `StartFrameLoop` does; other keys change nothing |

The accounting of frames follows from `Game.Session.Loop` and
`Game.Session.StartFrameLoop`. The reset sets `frameCount` to 0. Each wake-up
either leaves `frameCount` alone or raises it by exactly the batch handed to
`updateLevel`. So `frameCount` equals the sum of all batches since the last
reset, and it never decreases.

Where the code and its documentation could be read differently, the model
follows the code:

- `nRandRows` is indexed by the stage index `fingerprintCol`, not by the
  difficulty.
- After the tail reset, a stage need not be a permutation of the slices. The
  first pass can move a slice into a leading row that the reset then shows
  again in its own row. `Stage.ResetCanRepeatASlice` gives such draws.
- `updateLevel` stores the solving time on every unsolved frame.
  `loadLevel` runs inside `updateLevel` when the last stage's cooldown
  expires.
- Nothing checks `difficulty` at run time.
- Backspace during a cooldown restarts the level. `loadLevel` does not reset
  the cooldown, so an unsolved state can carry a nonzero cooldown. The
  invariant is therefore only `solved ==> 0 < cooldown <= 1500`.

## Left out

- Asset loading (`loadAssets`, `loadImage`): asynchronous I/O.
- `getTintedImage`: pixel tinting through the canvas API, in floating point.
- Drawing (`drawLevel`, `drawCentered`, `drawKeysMenu`) and the resize
  listener: canvas layout in floating point. Only the elapsed-time text with
  its sentinel, the digit places and the success image index are modelled.
- `setTimeout`, `clearTimeout` and `stopFrameLoop`: timers. The model keeps
  the arithmetic of one wake-up and its returned delay.
- The `changeLevel` branch of the frame loop: its guard is the constant
  `false`, so it never runs.
- The `keys` map, the keyup and blur listeners, and the arrow keys: nothing
  reads them.
- `Math.random()` and `performance.now()` are parameters. The clock is taken
  as never running backwards across one wake-up (`startTime <= now`).
- Times are whole milliseconds. The browser's fractional milliseconds are not
  modelled, so `Math.floor` of a fraction does not arise.
- `difficulty` is a constructor parameter in `[1, 4]`; the script fixes it at 4.
- Game.Session.SwitchRow: requires unit signs (`-1 <= xSign, ySign <= 1`). The
  keys only send those; the general case is covered by `Puzzle.SwitchRowMoves`
  and `Puzzle.SwitchRowRotates` for any sign not below -8.
- Game.Session.Loop: the clock reading of `updateLevel` (line 207) is taken to
  be the loop's own reading (line 309), as nothing runs between the two.
- Game.Session.Loop: the sum of the batches since the reset is not kept as a
  ghost list. The invariant keeps the number of updates at or below
  `frameCount`, and each wake-up states the exact batch it adds.
