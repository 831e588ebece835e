# Hello Flappy, modelled in Dafny

Hello Flappy is a terminal Flappy-Bird clone on an 80×50 character grid.
Each frame the window library calls `tick`, which dispatches on the game
mode:

- **Menu**: `P` starts a round and `Q` quits.
- **Playing**: `Space` flaps. A frame-time accumulator runs one physics step
  once it exceeds 60 ms.
- **End**: any key returns to the menu.

A physics step does the following:

1. It pulls the player down under a capped gravity.
2. It moves every obstacle one column left.
3. When the front obstacle has left the screen, it recycles it to the back at
   a random spacing.
4. For each obstacle in the player's column, it scores a point when the
   player is in the gap, and ends the round otherwise. Leaving the screen
   vertically also ends the round.

The model follows `src/main.rs` item by item:

- `Config` holds the compiled-in constants.
- `Obstacles` models the `Obstacle` struct. An obstacle is a value held in a
  sequence.
- `Players` models the `Player` struct as a class with `x`, `y` and `speedY`
  fields. `Pose` gives the value view of a player.
- `Course` holds value-level definitions of the obstacle vector:
  - `Build`: what the restart loop lays;
  - `Shift`, `Recycle` and `Advance`: what a physics step does to the vector;
  - `Passed` and `Crashed`: the scoring and collision pass.

  It also holds the lemmas that the vector keeps its shape.
- `Game` holds the game state as a value (`GameView`), the invariant `Inv`,
  one function per handler and the lemmas about the mode machine.
- `GameState.State` models `struct State` as a class. Its methods (`Restart`,
  `FixedUpdate`, `MainMenu`, `PlayingFrame`, `EndScreen`, `Tick`) update the
  fields in place with the source's loops. Each method is proved equal to the
  matching `Game` function on the old state.

Random draws are parameters. A `Draw` is one obstacle's three values, in the
order the program draws them: the spacing in [20,40], then `gap_size` in
[7,13], then `gap_y` in [10,40]. A restart takes a sequence of draws. The
restart loop uses at most eight of them, because each spacing is at least 20
and the loop stops at 160. A physics step takes one draw, which it uses only
when it recycles an obstacle. Frame time is a natural number of
milliseconds. The key is `Option<Key>`, where `Key` has the values `P`, `Q`,
`Space` and `Other`.

The `unwrap` calls in `fixed_update` (src/main.rs:142, 148) panic on an empty
vector, or on one that becomes empty after the removal. The model turns that
case into the precondition `StepDefined`, and
`Course.AdvanceKeepsCourse` proves that every state reachable in a round
meets it. A round keeps between 4 and 8 obstacles:

- the first at `x >= 0`;
- successive ones 20 to 40 columns apart;
- every gap within the drawn ranges.

Two observations about the source are proved as lemmas rather than corrected:

- The collision test lets a player through at rows `gap_y+1 ..= gap_y+gap_size`.
  `Obstacle::render` leaves the rows `gap_y .. gap_y+gap_size` open. The
  passable rows are therefore the drawn opening moved down by one
  (`Obstacles.PassableRowsAreDrawnGapShifted`).
- `gap_y + gap_size` can reach 53, while row 50 is the last row the boundary
  test accepts (the grid itself shows rows 0 to 49). A player in rows 51 to
  53 of such a gap scores and also ends the round
  (`Game.AlignedObstacleDecides`).

## Model

| member | source | states |
|---|---|---|
| Obstacles.New | src/main.rs:232-237 | `Obstacle::new(x)` keeps `x` and has `gap_size` in [7,13] and `gap_y` in [10,40], the values drawn |
| Obstacles.Obstacle.FixedUpdate | src/main.rs:228-230 | an obstacle step moves `x` left by exactly one, leaves the gap unchanged and keeps the gap within its ranges |
| Obstacles.PassableRowsAreDrawnGapShifted | src/main.rs:166 | the rows the collision test lets through are the rows `render` leaves open, moved down by one; the top drawn gap row collides, and the wall row just below the gap passes |
| Players.Fall | src/main.rs:200-211 | a player update leaves `x` alone and ends with `y >= 0`, `y` = old `y` + new speed clamped at 0; the speed rises by one exactly when it was below 2, and otherwise stays; the range [-4,2] is preserved |
| Players.Flapped | src/main.rs:213-215 | a flap sets the speed to -4, inside the speed range, and keeps the player's cell |
| Players.Player.constructor | src/main.rs:196-198 | a new player stands at the given cell with speed 0 |
| Players.Player.FixedUpdate | src/main.rs:200-211 | the in-place update leaves the fields equal to `Fall` of the old fields |
| Players.Player.Flap | src/main.rs:213-215 | a flap sets the speed to -4 and leaves `x` and `y` untouched |
| Course.Build | src/main.rs:118-128 | the obstacles the restart loop lays from position `pos`: none exactly when `pos` is already at or past 160, and otherwise the first lies one drawn spacing past `pos` with a valid gap |
| Course.BuildUnfold | src/main.rs:121-127 | one turn of the restart loop below 160 appends the obstacle of the next draw, one spacing further on |
| Course.BuildLength | src/main.rs:118-128 | the restart loop yields at most one obstacle per draw, none exactly when it starts at or past 160, and obstacle k carries the gap of draw k |
| Course.BuildPositions | src/main.rs:119-128 | obstacle k lies 20(k+1) to 40(k+1) past the start; all but the last lie before 160, the last at or beyond |
| Course.BuildSpaced | src/main.rs:121-127 | successive laid obstacles are 20 to 40 columns apart |
| Course.RestartBuildsCourse | src/main.rs:118-128 | a restart lays 4 to 8 obstacles, spaced 20 to 40 apart with valid gaps; the first x is in [20,40] and the last x is at least 160 |
| Course.Shift | src/main.rs:136-138 | the first loop of a step moves every obstacle one column left and keeps the count |
| Course.Recycle | src/main.rs:142-155 | dropping the front obstacle and appending a new one keeps the count |
| Course.Advance | src/main.rs:136-155 | the obstacle part of a physics step (shift every obstacle, then recycle the front one) keeps the count |
| Course.ShiftKeepsShape | src/main.rs:136-138 | shifting every obstacle keeps the spacing and the gap ranges |
| Course.SpacedTail | src/main.rs:145 | removing the front obstacle keeps the spacing and the gap ranges |
| Course.SpacedAppend | src/main.rs:148-154 | appending an obstacle one drawn spacing after the last one keeps the spacing and the gap ranges |
| Course.RecycleKeepsShape | src/main.rs:142-155 | after the shift, recycling yields a course again: the front is dropped only when its x < 0, and the new last obstacle is the old last obstacle plus the drawn spacing |
| Course.AdvanceKeepsCourse | src/main.rs:136-155 | on a course, the unwraps of a step cannot panic, and a step keeps the count, the 20-40 spacing (hence ascending x), the gap ranges and a first x >= 0 |
| Course.AdvanceMoves | src/main.rs:136-155 | after a step, either every obstacle moved one left, or the front one (then at x < 0) is gone, the others moved one left, and the appended one lies at the shifted last x plus the drawn spacing with the drawn gap |
| Course.Passed | src/main.rs:159-167 | the points one scoring pass adds are positive exactly when some obstacle in the player's column lets the player's row through |
| Course.Crashed | src/main.rs:159-170 | one scoring pass sets End exactly when some obstacle in the player's column blocks the player's row |
| Course.PassedMeansScoring | src/main.rs:159-167 | the scoring pass adds points exactly when some obstacle in the player's column holds the player strictly below `gap_y` and at most `gap_y + gap_size` |
| Course.CrashedMeansHit | src/main.rs:159-170 | the pass ends the round exactly when some obstacle in the player's column does not hold the player |
| Course.SpacedAscending | src/main.rs:149-154 | on a spaced course, obstacles j > i lie at least 20(j-i) further right |
| Course.AtMostOneAligned | src/main.rs:160-161 | on a spaced course, at most one obstacle is in the player's column |
| Course.OneOutcomePerPass | src/main.rs:159-172 | on a spaced course, one scoring pass adds at most one point and never both scores and collides |
| Game.Initial | src/main.rs:55-63 | `State::new` starts in the menu with score 0, no obstacles and the invariant holding |
| Game.Restarted | src/main.rs:112-129 | a restart gives Playing, the player at (5,25) with speed 0, score 0, accumulator 0, a first obstacle in [20,40], a last one at or past 160, and the invariant |
| Game.Stepped | src/main.rs:131-176 | a physics step never lowers the score, either keeps the mode or ends the round, and keeps the obstacle count |
| Game.AfterMenu | src/main.rs:71-79 | P gives a fresh round (Playing, score 0, player at rest at (5,25)); any other key, or none, leaves the state as it was; the invariant is kept |
| Game.AfterPlaying | src/main.rs:82-93 | after a frame in play the accumulator lies in [0,60] |
| Game.AfterEnd | src/main.rs:104-109 | any key sets the mode to Menu and no key keeps it; player, accumulator, obstacles and score are untouched; the invariant is kept |
| Game.AfterTick | src/main.rs:40-46 | a frame keeps the mode or moves it one place along Menu -> Playing -> End -> Menu, and outside the menu never lowers the score |
| Game.SteppedKeepsInv | src/main.rs:131-176 | a physics step keeps the invariant: player column 5, `y >= 0`, speed in range, in play not below row 50, and the obstacles a course |
| Game.SteppedScore | src/main.rs:159-172 | in a round a step adds 0 or 1 to the score, and adds 1 exactly when an obstacle in the player's column holds the player |
| Game.SteppedMode | src/main.rs:166-175 | a step ends the round exactly when it was over already, an aligned obstacle misses the player, or the player's row is outside [0,50]; otherwise it keeps the mode |
| Game.SteppedScoresOrHits | src/main.rs:159-175 | a step in play that scores leaves the round on unless the player left the screen |
| Game.AlignedObstacleDecides | src/main.rs:159-175 | with an obstacle in the player's column, a player in its gap scores exactly one and plays on iff still on screen; a player outside it ends the round with the score unchanged |
| Game.FrameStepsOnceOverTick | src/main.rs:88-93 | once the accumulated time passes 60 ms, exactly one physics step runs and the accumulator is 0 (61 ms from 0 gives 0, not 1); otherwise the frame only accumulates and leaves course, score and mode alone |
| Game.TickKeepsInv | src/main.rs:40-46 | every frame, in every mode, keeps the invariant |
| Game.TickModeCycle | src/main.rs:40-46 | the modes cycle Menu -> Playing -> End -> Menu: P leaves the menu for a fresh round and any other key stays; play stays or ends; End goes to the menu exactly on a key; the score never falls outside the menu and is frozen in End |
| Game.FallingOffEnds | src/main.rs:173-175 | a step whose fall takes the player past row 50, the last row the boundary test accepts (to row 51, say), ends the round in that step |
| Game.RestartForgetsState | src/main.rs:112-129 | the state after a restart depends only on the draws, not on the state before it, so two restarts in a row with the same draws give the state of one |
| GameState.State.constructor | src/main.rs:55-63 | `State::new` builds the menu state with a fresh player, satisfying the invariant |
| GameState.State.Restart | src/main.rs:112-129 | the in-place restart leaves exactly the state `Restarted` describes, with a fresh player, and the invariant holds |
| GameState.State.LayObstacles | src/main.rs:118-128 | the clear-and-push loop leaves the vector equal to `Build` from position 0 |
| GameState.State.FixedUpdate | src/main.rs:131-176 | the in-place step leaves the state `Stepped` describes, keeps the same player object, and keeps the invariant |
| GameState.State.MoveObstacles | src/main.rs:135-155 | the shift loop and the recycling leave the vector equal to `Advance` of the old one |
| GameState.State.ScoreAndCollide | src/main.rs:157-175 | the scoring loop adds `Passed` to the score and sets End exactly on a collision or an off-screen row, leaving the mode alone otherwise |
| GameState.State.MainMenu | src/main.rs:65-80 | P restarts, anything else leaves the state unchanged, and a quit is requested exactly on Q |
| GameState.State.PlayingFrame | src/main.rs:82-97 | a frame in play changes the state as `AfterPlaying` says: a flap on Space, then accumulate, or reset and step |
| GameState.State.EndScreen | src/main.rs:99-110 | any key sets the mode to Menu and nothing else changes, the player object included |
| GameState.State.Tick | src/main.rs:40-46 | one frame changes the state as `AfterTick` says for the current mode, keeps the invariant, keeps the player object unless the menu restarts on P, and requests a quit exactly on Q in the menu |

## Left out

- Rendering: `State::render`, `Player::render`, `Obstacle::render` and the screen text of `main_menu` and `end` are draw calls into the window library. Of `Obstacle::render`, only its gap mask is kept, as `Obstacle.IsWall`.
- `main`, `BTermBuilder` and `main_loop` are window and process setup in a foreign library. Setting `ctx.quitting` is modelled as the `quit` result of `MainMenu` and `Tick`.
- `rand::thread_rng()`: each draw is a `Draw` parameter limited to its inclusive range. The generator itself is not modelled.
- GameState.State.Restart: the program draws exactly as many spacings as its loop needs. The model takes at least eight draws, which is the most the loop can use, and reads a prefix of them.
- GameState.State.Tick: one frame consumes at most one draw sequence. A frame in play uses only its first draw, and only when it recycles an obstacle.
- GameState.State.PlayingFrame: the accumulator is an `f32` compared after an `as i32` cast. It is modelled as whole milliseconds, so fractional frame times and float rounding are not modelled.
- GameState.State.FixedUpdate: the panics of `first().unwrap()` and `last().unwrap()` are a precondition, not an error path. `Course.AdvanceKeepsCourse` proves they never occur in a round.
- GameState.State.ScoreAndCollide: the `i32` score is an unbounded integer, so overflow after 2^31 points is not modelled. Positions, speeds and the accumulator stay far inside `i32`.
- Key codes: `VirtualKeyCode` is reduced to the three keys the program tests and `Other`.
- The unused `std::any` and `std::io` imports have no behaviour.
