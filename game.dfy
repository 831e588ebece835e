/**
 * The game's state machine on values: what one frame does to the whole
 * state in each mode, and the properties the round keeps.
 */
module Game {
  import opened Config
  import opened Obstacles
  import opened Players
  import opened Course

  datatype Mode = Menu | Playing | End

  /** The keys the program tells apart; every other key behaves alike. */
  datatype Key = P | Q | Space | Other

  datatype Option<T> = None | Some(value: T)

  /** The value of every field of `State`. */
  datatype GameView = GameView(mode: Mode, player: Pose, accumulatorMs: int, obstacles: seq<Obstacle>, score: int)

  /**
   * What holds of the state between frames: the player stays in its column,
   * at or below row 0 and within the speed range, in play at most at row
   * SCREEN_HEIGHT (the last row the boundary test accepts);
   * the accumulator never holds more than one tick; the obstacles are none
   * (before the first round) or form a course, and a round has them.
   */
  predicate Inv(g: GameView)
  {
    && g.player.x == PLAYER_START_X
    && g.player.y >= 0
    && SpeedInRange(g.player.speedY)
    && 0 <= g.accumulatorMs <= MS_PER_TICK
    && g.score >= 0
    && (g.obstacles == [] || IsCourse(g.obstacles))
    && (g.mode != Menu ==> g.obstacles != [])
    && (g.mode == Playing ==> g.player.y <= SCREEN_HEIGHT)
  }

  /** `State::new`. */
  function Initial(): (g: GameView)
    ensures Inv(g)
    ensures g.mode == Menu && g.score == 0 && g.obstacles == []
  {
    GameView(Menu, Pose(PLAYER_START_X, PLAYER_START_Y, 0), 0, [], 0)
  }

  /** `State::restart`, given the draws the generator will yield. */
  function Restarted(draws: seq<Draw>): (g: GameView)
    requires AllValid(draws) && |draws| >= MAX_COURSE_LENGTH
    ensures Inv(g)
    ensures g.mode == Playing && g.player == Pose(PLAYER_START_X, PLAYER_START_Y, 0)
    ensures g.score == 0 && g.accumulatorMs == 0
    ensures MIN_SPACE_BETWEEN_OBSTACLE <= g.obstacles[0].x <= MAX_SPACE_BETWEEN_OBSTACLE
    ensures Last(g.obstacles).x >= COURSE_END
  {
    RestartBuildsCourse(draws);
    GameView(Playing, Pose(PLAYER_START_X, PLAYER_START_Y, 0), 0, Build(0, draws), 0)
  }

  /** The player's row is outside the rows [0, SCREEN_HEIGHT] the boundary test accepts. */
  predicate OutOfBounds(p: Pose)
  {
    p.y < 0 || p.y > SCREEN_HEIGHT
  }

  /**
   * `State::fixed_update`: the player falls, the obstacles advance, then the
   * scoring pass and the boundary check run on the new positions.
   */
  function Stepped(g: GameView, d: Draw): (r: GameView)
    requires StepDefined(g.obstacles) && d.Valid()
    ensures r.score >= g.score
    ensures r.mode == g.mode || r.mode == End
    ensures r.accumulatorMs == g.accumulatorMs
    ensures |r.obstacles| == |g.obstacles|
  {
    var p := Fall(g.player);
    var obs := Advance(g.obstacles, d);
    GameView(
      if Crashed(obs, p.x, p.y) || OutOfBounds(p) then End else g.mode,
      p,
      g.accumulatorMs,
      obs,
      g.score + Passed(obs, p.x, p.y))
  }

  /** `State::main_menu`: P restarts the round, anything else leaves the state alone. */
  function AfterMenu(g: GameView, key: Option<Key>, draws: seq<Draw>): (r: GameView)
    requires AllValid(draws) && |draws| >= MAX_COURSE_LENGTH
    ensures key == Some(P) ==> r.mode == Playing && r.score == 0 && r.player == Pose(PLAYER_START_X, PLAYER_START_Y, 0)
    ensures key != Some(P) ==> r == g
    ensures Inv(g) ==> Inv(r)
  {
    if key == Some(P) then Restarted(draws) else g
  }

  /** `State::main_menu` asks the window to close on Q. */
  predicate QuitRequested(mode: Mode, key: Option<Key>)
  {
    mode == Menu && key == Some(Q)
  }

  /**
   * `State::playing`: Space flaps; the frame time is added to the
   * accumulator, and once it passes one tick a single physics step runs
   * and the accumulator restarts from zero.
   */
  function AfterPlaying(g: GameView, key: Option<Key>, frameMs: nat, d: Draw): (r: GameView)
    requires g.accumulatorMs + frameMs > MS_PER_TICK ==> StepDefined(g.obstacles)
    requires d.Valid()
    ensures g.accumulatorMs >= 0 ==> 0 <= r.accumulatorMs <= MS_PER_TICK
  {
    var g1 := if key == Some(Space) then g.(player := Flapped(g.player)) else g;
    var acc := g1.accumulatorMs + frameMs;
    if acc > MS_PER_TICK then Stepped(g1.(accumulatorMs := 0), d)
    else g1.(accumulatorMs := acc)
  }

  /** `State::end`: any key returns to the menu. */
  function AfterEnd(g: GameView, key: Option<Key>): (r: GameView)
    ensures r.mode == (if key.Some? then Menu else g.mode)
    ensures r.player == g.player && r.accumulatorMs == g.accumulatorMs
    ensures r.obstacles == g.obstacles && r.score == g.score
    ensures Inv(g) ==> Inv(r)
  {
    if key.Some? then g.(mode := Menu) else g
  }

  /** The mode a frame may pass to: it stays, or takes the next one in Menu -> Playing -> End -> Menu. */
  predicate Follows(before: Mode, after: Mode)
  {
    after == before ||
    (before == Menu && after == Playing) ||
    (before == Playing && after == End) ||
    (before == End && after == Menu)
  }

  /** `GameState::tick`: dispatch on the mode. */
  function AfterTick(g: GameView, key: Option<Key>, frameMs: nat, draws: seq<Draw>): (r: GameView)
    requires Inv(g)
    requires AllValid(draws) && |draws| >= MAX_COURSE_LENGTH
    ensures Follows(g.mode, r.mode)
    ensures g.mode != Menu ==> r.score >= g.score
  {
    match g.mode
    case Menu => AfterMenu(g, key, draws)
    case Playing =>
      AdvanceKeepsCourse(g.obstacles, draws[0]);
      AfterPlaying(g, key, frameMs, draws[0])
    case End => AfterEnd(g, key)
  }

  /** A physics step keeps the invariant. */
  lemma {:induction false} SteppedKeepsInv(g: GameView, d: Draw)
    requires Inv(g) && StepDefined(g.obstacles) && d.Valid()
    ensures Inv(Stepped(g, d))
  {
    AdvanceKeepsCourse(g.obstacles, d);
  }

  /**
   * In a round, a physics step adds one point exactly when an obstacle in
   * the player's column holds the player in its gap, and none otherwise.
   */
  lemma {:induction false} SteppedScore(g: GameView, d: Draw)
    requires Inv(g) && g.obstacles != [] && d.Valid()
    ensures StepDefined(g.obstacles)
    ensures var r := Stepped(g, d);
      && (r.score == g.score || r.score == g.score + 1)
      && (r.score == g.score + 1 <==>
            exists k :: 0 <= k < |r.obstacles| && Scores(r.obstacles[k], r.player.x, r.player.y))
  {
    AdvanceKeepsCourse(g.obstacles, d);
    var r := Stepped(g, d);
    OneOutcomePerPass(r.obstacles, |r.obstacles|, r.player.x, r.player.y);
    PassedMeansScoring(r.obstacles, |r.obstacles|, r.player.x, r.player.y);
  }

  /**
   * A physics step ends the round exactly when an obstacle in the player's
   * column does not hold the player, or the player leaves the screen
   * vertically; otherwise the mode stays as it was.
   */
  lemma {:induction false} SteppedMode(g: GameView, d: Draw)
    requires StepDefined(g.obstacles) && d.Valid()
    ensures var r := Stepped(g, d);
      && (r.mode == End <==>
            g.mode == End || OutOfBounds(r.player) ||
            exists k :: 0 <= k < |r.obstacles| && Hits(r.obstacles[k], r.player.x, r.player.y))
      && (r.mode != End ==> r.mode == g.mode)
  {
    var r := Stepped(g, d);
    CrashedMeansHit(r.obstacles, |r.obstacles|, r.player.x, r.player.y);
  }

  /** A physics step never both scores and ends the round through a collision. */
  lemma {:induction false} SteppedScoresOrHits(g: GameView, d: Draw)
    requires Inv(g) && g.mode == Playing && d.Valid()
    ensures StepDefined(g.obstacles)
    ensures var r := Stepped(g, d);
      r.score == g.score + 1 ==> r.mode == Playing || OutOfBounds(r.player)
  {
    AdvanceKeepsCourse(g.obstacles, d);
    var r := Stepped(g, d);
    OneOutcomePerPass(r.obstacles, |r.obstacles|, r.player.x, r.player.y);
  }

  /**
   * An aligned obstacle decides the step: a player in its gap scores exactly
   * one point and plays on unless the boundary test fails (the gap may reach
   * rows 51 to 53, past row 50, the last row that test accepts); a player outside its gap
   * ends the round without a point.
   */
  lemma {:induction false} AlignedObstacleDecides(g: GameView, d: Draw, k: int)
    requires Inv(g) && g.mode == Playing && d.Valid()
    ensures StepDefined(g.obstacles)
    ensures var r := Stepped(g, d);
      0 <= k < |r.obstacles| && r.obstacles[k].x == r.player.x ==>
        && (r.obstacles[k].LetsThrough(r.player.y) ==>
              r.score == g.score + 1 && (r.mode == Playing <==> !OutOfBounds(r.player)))
        && (!r.obstacles[k].LetsThrough(r.player.y) ==> r.score == g.score && r.mode == End)
  {
    AdvanceKeepsCourse(g.obstacles, d);
    var r := Stepped(g, d);
    if 0 <= k < |r.obstacles| && r.obstacles[k].x == r.player.x {
      OneOutcomePerPass(r.obstacles, |r.obstacles|, r.player.x, r.player.y);
      PassedMeansScoring(r.obstacles, |r.obstacles|, r.player.x, r.player.y);
      CrashedMeansHit(r.obstacles, |r.obstacles|, r.player.x, r.player.y);
      if r.obstacles[k].LetsThrough(r.player.y) {
        assert Scores(r.obstacles[k], r.player.x, r.player.y);
      } else {
        assert Hits(r.obstacles[k], r.player.x, r.player.y);
      }
    }
  }

  /**
   * The fixed-step gate of a frame in play: once the accumulated time passes
   * one tick, exactly one physics step runs and the accumulator is zero
   * afterwards (a frame of 61 ms from an empty accumulator leaves 0, not 1);
   * otherwise the frame only accumulates, and the course, score and mode
   * stay as they were.
   */
  lemma {:induction false} FrameStepsOnceOverTick(g: GameView, key: Option<Key>, frameMs: nat, draws: seq<Draw>)
    requires Inv(g) && g.mode == Playing
    requires AllValid(draws) && |draws| >= MAX_COURSE_LENGTH
    ensures var r := AfterTick(g, key, frameMs, draws);
      var g1 := if key == Some(Space) then g.(player := Flapped(g.player)) else g;
      && (g.accumulatorMs + frameMs > MS_PER_TICK ==>
            StepDefined(g.obstacles) && r == Stepped(g1.(accumulatorMs := 0), draws[0]) && r.accumulatorMs == 0)
      && (g.accumulatorMs + frameMs <= MS_PER_TICK ==>
            r.accumulatorMs == g.accumulatorMs + frameMs && r.obstacles == g.obstacles &&
            r.score == g.score && r.mode == Playing)
  {
    AdvanceKeepsCourse(g.obstacles, draws[0]);
  }

  /** Every frame keeps the invariant. */
  lemma {:induction false} TickKeepsInv(g: GameView, key: Option<Key>, frameMs: nat, draws: seq<Draw>)
    requires Inv(g)
    requires AllValid(draws) && |draws| >= MAX_COURSE_LENGTH
    ensures Inv(AfterTick(g, key, frameMs, draws))
  {
    if g.mode == Playing {
      var g1 := if key == Some(Space) then g.(player := Flapped(g.player)) else g;
      if g1.accumulatorMs + frameMs > MS_PER_TICK {
        SteppedKeepsInv(g1.(accumulatorMs := 0), draws[0]);
      }
    }
  }

  /**
   * The modes cycle Menu -> Playing -> End -> Menu: a frame stays in its
   * mode or takes the next one, the round starts afresh only from the menu
   * on P, and the score never falls outside the menu.
   */
  lemma {:induction false} TickModeCycle(g: GameView, key: Option<Key>, frameMs: nat, draws: seq<Draw>)
    requires Inv(g)
    requires AllValid(draws) && |draws| >= MAX_COURSE_LENGTH
    ensures var r := AfterTick(g, key, frameMs, draws);
      && (g.mode == Menu ==> (r.mode == Playing <==> key == Some(P)) && (r.mode == Menu <==> key != Some(P)))
      && (g.mode == Menu && key == Some(P) ==> r.score == 0 && r.player == Pose(PLAYER_START_X, PLAYER_START_Y, 0))
      && (g.mode == Playing ==> r.mode == Playing || r.mode == End)
      && (g.mode == End ==> (r.mode == Menu <==> key.Some?) && (r.mode == End <==> key.None?))
      && (g.mode != Menu ==> r.score >= g.score)
      && (g.mode == End ==> r.score == g.score)
  {
  }

  /**
   * A step whose fall takes the player past row SCREEN_HEIGHT, the last row
   * the boundary test accepts (for example to row SCREEN_HEIGHT + 1), ends
   * the round in that same step.
   */
  lemma {:induction false} FallingOffEnds(g: GameView, d: Draw)
    requires StepDefined(g.obstacles) && d.Valid()
    requires Fall(g.player).y > SCREEN_HEIGHT
    ensures Stepped(g, d).mode == End
  {
  }

  /**
   * The state after a restart does not depend on the state before it, only
   * on the draws; in particular a second restart with the same draws
   * changes nothing.
   */
  lemma {:induction false} RestartForgetsState(g: GameView, g': GameView, draws: seq<Draw>)
    requires AllValid(draws) && |draws| >= MAX_COURSE_LENGTH
    ensures AfterMenu(g, Some(P), draws) == AfterMenu(g', Some(P), draws)
  {
  }
}
