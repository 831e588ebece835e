/** One wall of the course (`struct Obstacle`). */
module Obstacles {
  import opened Config

  /** A column at `x` that blocks the player except within its gap. */
  datatype Obstacle = Obstacle(x: int, gapY: int, gapSize: int)
  {
    /** The gap parameters lie in the ranges the generator draws them from. */
    predicate HasValidGap()
    {
      MIN_OBSTACLE_GAP <= gapSize <= MAX_OBSTACLE_GAP &&
      MIN_OBSTACLE_GAP_Y <= gapY <= MAX_OBSTACLE_GAP_Y
    }

    /** `Obstacle::fixed_update`: one column to the left, the gap untouched. */
    function FixedUpdate(): (r: Obstacle)
      ensures r.x == x - 1
      ensures r.gapY == gapY && r.gapSize == gapSize
      ensures HasValidGap() ==> r.HasValidGap()
    {
      this.(x := x - PLAYER_SPEED_X)
    }

    /** The collision test of a physics step: a player in row `y` gets through. */
    predicate LetsThrough(y: int)
    {
      gapY < y <= gapY + gapSize
    }

    /** The mask `Obstacle::render` draws: `row` holds a wall cell. */
    predicate IsWall(row: int)
    {
      !(row >= gapY && row < gapY + gapSize)
    }
  }

  /** `Obstacle::new(x)`, with the two random draws passed in. */
  function New(x: int, gapSize: int, gapY: int): (o: Obstacle)
    requires MIN_OBSTACLE_GAP <= gapSize <= MAX_OBSTACLE_GAP
    requires MIN_OBSTACLE_GAP_Y <= gapY <= MAX_OBSTACLE_GAP_Y
    ensures o.x == x && o.HasValidGap()
    ensures o.gapSize == gapSize && o.gapY == gapY
  {
    Obstacle(x, gapY, gapSize)
  }

  /**
   * The rows the collision test lets through are the drawn opening moved
   * down by one: a player in the top drawn row of the gap collides, and one
   * in the wall cell just below the drawn gap passes.
   */
  lemma {:induction false} PassableRowsAreDrawnGapShifted(o: Obstacle, y: int)
    ensures o.LetsThrough(y) <==> !o.IsWall(y - 1)
    ensures !o.LetsThrough(o.gapY)
    ensures 0 < o.gapSize ==> !o.IsWall(o.gapY)
    ensures 0 < o.gapSize ==> o.LetsThrough(o.gapY + o.gapSize) && o.IsWall(o.gapY + o.gapSize)
  {
  }
}
