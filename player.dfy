/** The player's avatar (`struct Player`). */
module Players {
  import opened Config

  /** The value of a player's fields: column, row (0 is the top) and vertical speed. */
  datatype Pose = Pose(x: int, y: int, speedY: int)

  /** Speeds a player can have: a flap sets the least, gravity stops at the cap. */
  predicate SpeedInRange(v: int)
  {
    -PLAYER_FLAP_Y <= v <= SPEED_CAP
  }

  /**
   * `Player::fixed_update` on values: gravity raises the speed by one up to
   * the cap, the row advances by the new speed and is clamped at the top.
   */
  function Fall(p: Pose): (r: Pose)
    ensures r.x == p.x
    ensures r.y >= 0
    ensures p.y + r.speedY >= 0 ==> r.y == p.y + r.speedY
    ensures p.y + r.speedY < 0 ==> r.y == 0
    ensures r.speedY == p.speedY + 1 <==> p.speedY < SPEED_CAP
    ensures r.speedY == p.speedY || r.speedY == p.speedY + 1
    ensures SpeedInRange(p.speedY) ==> SpeedInRange(r.speedY)
  {
    var v := p.speedY + GRAVITY;
    var v' := if v > SPEED_CAP then v - 1 else v;
    var y := p.y + v';
    Pose(p.x, if y < 0 then 0 else y, v')
  }

  /** `Player::flap` on values. */
  function Flapped(p: Pose): (r: Pose)
    ensures r.x == p.x && r.y == p.y && r.speedY == -PLAYER_FLAP_Y
    ensures SpeedInRange(r.speedY)
  {
    p.(speedY := -PLAYER_FLAP_Y)
  }

  class Player {
    var x: int
    var y: int
    var speedY: int

    function View(): Pose
      reads this
    {
      Pose(x, y, speedY)
    }

    /** `Player::new`: at rest at the given cell. */
    constructor (x0: int, y0: int)
      ensures View() == Pose(x0, y0, 0)
    {
      x, y, speedY := x0, y0, 0;
    }

    method FixedUpdate()
      modifies this
      ensures View() == Fall(old(View()))
    {
      speedY := speedY + GRAVITY;
      if speedY > SPEED_CAP {
        speedY := speedY - 1;
      }
      y := y + speedY;
      if y < 0 {
        y := 0;
      }
    }

    method Flap()
      modifies this
      ensures x == old(x) && y == old(y) && speedY == -PLAYER_FLAP_Y
      ensures View() == Flapped(old(View()))
    {
      speedY := -PLAYER_FLAP_Y;
    }
  }
}
