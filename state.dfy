/** `struct State` and its methods: the game as the program runs it, field by field. */
module GameState {
  import opened Config
  import opened Obstacles
  import opened Players
  import opened Course
  import opened Game

  class State {
    var mode: Mode
    var player: Player
    var accumulatorMs: int
    var obstacles: seq<Obstacle>
    var score: int

    function View(): GameView
      reads this, player
    {
      GameView(mode, player.View(), accumulatorMs, obstacles, score)
    }

    predicate Valid()
      reads this, player
    {
      Inv(View())
    }

    /** `State::new`: the menu, before any round. */
    constructor ()
      ensures Valid() && fresh(player)
      ensures View() == Initial()
    {
      mode := Menu;
      player := new Player(PLAYER_START_X, PLAYER_START_Y);
      accumulatorMs := 0;
      obstacles := [];
      score := 0;
    }

    /**
     * `State::restart`: a new player and score, then the obstacles laid
     * afresh. `draws` are the generator's next values.
     */
    method Restart(draws: seq<Draw>)
      requires AllValid(draws) && |draws| >= MAX_COURSE_LENGTH
      modifies this
      ensures fresh(player)
      ensures View() == Restarted(draws)
      ensures Valid()
    {
      mode := Playing;
      player := new Player(PLAYER_START_X, PLAYER_START_Y);
      accumulatorMs := 0;
      score := 0;
      LayObstacles(draws);
    }

    /**
     * The loop of `State::restart`: the obstacles are cleared, then laid
     * from position 0, each one drawn spacing after the previous, until the
     * position reaches two screen widths. The loop uses at most
     * MAX_COURSE_LENGTH draws, since each spacing is at least 20.
     */
    method LayObstacles(draws: seq<Draw>)
      requires AllValid(draws) && |draws| >= MAX_COURSE_LENGTH
      modifies this`obstacles
      ensures obstacles == Build(0, draws)
    {
      obstacles := [];
      var nextPos := 0;
      var i := 0;
      while nextPos < COURSE_END
        invariant 0 <= i <= |draws|
        invariant MIN_SPACE_BETWEEN_OBSTACLE * i <= nextPos
        invariant nextPos + MIN_SPACE_BETWEEN_OBSTACLE * |draws[i..]| >= COURSE_END
        invariant obstacles + Build(nextPos, draws[i..]) == Build(0, draws)
        decreases COURSE_END - nextPos
      {
        var d := draws[i];
        BuildUnfold(nextPos, draws[i..], obstacles);
        assert draws[i..][1..] == draws[i + 1..];
        nextPos := nextPos + d.space;
        obstacles := obstacles + [New(nextPos, d.gapSize, d.gapY)];
        i := i + 1;
      }
    }

    /**
     * `State::fixed_update`, given the draw for a recycled obstacle: the
     * player falls, the obstacles move and recycle, then the scoring pass
     * and the boundary check run. The program does this in one function;
     * here its two passes over the obstacles are the methods below.
     */
    method FixedUpdate(d: Draw)
      requires StepDefined(obstacles) && d.Valid()
      modifies this, player
      ensures player == old(player)
      ensures View() == Stepped(old(View()), d)
      ensures old(Valid()) ==> Valid()
    {
      player.FixedUpdate();
      MoveObstacles(d);
      ScoreAndCollide();
      if old(Valid()) {
        SteppedKeepsInv(old(View()), d);
      }
    }

    /**
     * The obstacle part of `State::fixed_update`: every obstacle moves one
     * column left; a front obstacle past the left edge is removed and a new
     * one appended one drawn spacing after the last. Without a first
     * obstacle, or without a last one after the removal, the program panics.
     */
    method MoveObstacles(d: Draw)
      requires StepDefined(obstacles) && d.Valid()
      modifies this`obstacles
      ensures obstacles == Advance(old(obstacles), d)
    {
      var moved := obstacles;
      var i := 0;
      while i < |moved|
        invariant 0 <= i <= |moved| == |obstacles|
        invariant forall k :: 0 <= k < i ==> moved[k] == obstacles[k].FixedUpdate()
        invariant forall k :: i <= k < |moved| ==> moved[k] == obstacles[k]
      {
        moved := moved[i := moved[i].FixedUpdate()];
        i := i + 1;
      }
      assert moved == Shift(obstacles);

      if moved[0].x < 0 {
        var kept := moved[1..];
        var last := kept[|kept| - 1];
        obstacles := kept + [New(last.x + d.space, d.gapSize, d.gapY)];
      } else {
        obstacles := moved;
      }
    }

    /**
     * The checks that end `State::fixed_update`: each obstacle in the
     * player's column adds a point if its gap holds the player and ends the
     * round otherwise; leaving the screen vertically ends the round too.
     */
    method ScoreAndCollide()
      modifies this`score, this`mode
      ensures score == old(score) + Passed(obstacles, player.x, player.y)
      ensures mode == if Crashed(obstacles, player.x, player.y) || OutOfBounds(player.View()) then End else old(mode)
    {
      var playerX := player.x;
      var i := 0;
      while i < |obstacles|
        invariant 0 <= i <= |obstacles|
        invariant score == old(score) + PassedUpTo(obstacles, i, playerX, player.y)
        invariant mode == if CrashedUpTo(obstacles, i, playerX, player.y) then End else old(mode)
      {
        var o := obstacles[i];
        if o.x == playerX {
          var playerY := player.y;
          if o.gapY < playerY && playerY <= o.gapY + o.gapSize {
            score := score + 1;
          } else {
            mode := End;
          }
        }
        i := i + 1;
      }
      if player.y < 0 || player.y > SCREEN_HEIGHT {
        mode := End;
      }
    }

    /** `State::main_menu`: P restarts, Q asks to quit, anything else does nothing. */
    method MainMenu(key: Option<Key>, draws: seq<Draw>) returns (quit: bool)
      requires Valid()
      requires AllValid(draws) && |draws| >= MAX_COURSE_LENGTH
      modifies this
      ensures key != Some(P) ==> player == old(player)
      ensures View() == AfterMenu(old(View()), key, draws)
      ensures Valid()
      ensures quit <==> key == Some(Q)
    {
      quit := false;
      match key {
        case Some(P) => Restart(draws);
        case Some(Q) => quit := true;
        case _ =>
      }
    }

    /**
     * `State::playing` without its drawing: Space flaps, then the frame
     * time accumulates and, past one tick, resets and runs one physics step.
     */
    method PlayingFrame(key: Option<Key>, frameMs: nat, d: Draw)
      requires d.Valid()
      requires accumulatorMs + frameMs > MS_PER_TICK ==> StepDefined(obstacles)
      modifies this, player
      ensures player == old(player)
      ensures View() == AfterPlaying(old(View()), key, frameMs, d)
    {
      if key == Some(Space) {
        player.Flap();
      }
      accumulatorMs := accumulatorMs + frameMs;
      if accumulatorMs > MS_PER_TICK {
        accumulatorMs := 0;
        FixedUpdate(d);
      }
    }

    /** `State::end` without its drawing: any key goes back to the menu. */
    method EndScreen(key: Option<Key>)
      requires Valid()
      modifies this
      ensures player == old(player)
      ensures View() == AfterEnd(old(View()), key)
      ensures Valid()
    {
      if key.Some? {
        mode := Menu;
      }
    }

    /**
     * `GameState::tick`: one frame of the mode in force. `quit` is the
     * window's quit request.
     */
    method Tick(key: Option<Key>, frameMs: nat, draws: seq<Draw>) returns (quit: bool)
      requires Valid()
      requires AllValid(draws) && |draws| >= MAX_COURSE_LENGTH
      modifies this, player
      ensures old(mode) != Menu || key != Some(P) ==> player == old(player)
      ensures View() == AfterTick(old(View()), key, frameMs, draws)
      ensures Valid()
      ensures quit == QuitRequested(old(mode), key)
    {
      TickKeepsInv(View(), key, frameMs, draws);
      match mode {
        case Menu =>
          quit := MainMenu(key, draws);
        case Playing =>
          AdvanceKeepsCourse(obstacles, draws[0]);
          PlayingFrame(key, frameMs, draws[0]);
          quit := false;
        case End =>
          EndScreen(key);
          quit := false;
      }
    }
  }
}
