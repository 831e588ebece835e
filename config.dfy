/** The compiled-in constants of the game (all `i32` in the program). */
module Config {
  const SCREEN_WIDTH := 80
  const SCREEN_HEIGHT := 50
  const MS_PER_TICK := 60
  const GRAVITY := 1
  /** Also the distance an obstacle moves left per physics step. */
  const PLAYER_SPEED_X := 1
  const PLAYER_FLAP_Y := 4
  const PLAYER_START_X := 5
  const PLAYER_START_Y := 25
  const MIN_SPACE_BETWEEN_OBSTACLE := 20
  const MAX_SPACE_BETWEEN_OBSTACLE := 40
  const MIN_OBSTACLE_GAP_Y := 10
  const MAX_OBSTACLE_GAP_Y := SCREEN_HEIGHT - 10
  const MIN_OBSTACLE_GAP := 7
  const MAX_OBSTACLE_GAP := 13

  /** The literal velocity cap in the player's update: faster than this is damped by one. */
  const SPEED_CAP := 2
  /** A restart lays obstacles until the next position reaches two screen widths. */
  const COURSE_END := SCREEN_WIDTH * 2
  /** Bounds on the number of obstacles a restart lays (and the count play keeps). */
  const MIN_COURSE_LENGTH := COURSE_END / MAX_SPACE_BETWEEN_OBSTACLE
  const MAX_COURSE_LENGTH := COURSE_END / MIN_SPACE_BETWEEN_OBSTACLE
}
