/**
 * The player's ship (main_ship.py): a position that moves sideways in steps
 * of 10 pixels times a scale and never leaves the screen, a lives counter
 * with one indicator icon per life, and the list of shots fired upwards.
 */
module Ship {
  import opened Common

  /** The sideways step of `move_left`/`move_right` at scale 1. */
  const Step: real := 10.0
  /** Lives at the start of a game and after `reset_main_ship(end_game=True)`. */
  const StartLives: nat := 2

  /** The ship's image lies between the screen's side edges. */
  predicate OnScreen(x: real, halfW: real, screenW: real)
  {
    -screenW / 2.0 <= x - halfW && x + halfW <= screenW / 2.0
  }

  /**
   * The x `move_left` leaves: one step of `10 * scale` to the left unless the
   * image's left edge would pass the left side of the screen.
   */
  function LeftStep(x: real, halfW: real, screenW: real, scale: real): (nx: real)
    ensures nx == x - Step * scale || nx == x
    ensures nx == x - Step * scale <==> (-screenW / 2.0 <= x - halfW - Step * scale || scale == 0.0)
    ensures OnScreen(x, halfW, screenW) && scale >= 0.0 ==> OnScreen(nx, halfW, screenW)
  {
    if !(x - halfW - Step * scale < -(screenW / 2.0)) then x - Step * scale else x
  }

  /**
   * The x `move_right` leaves: one step of `10 * scale` to the right unless
   * the image's right edge would pass the right side of the screen.
   */
  function RightStep(x: real, halfW: real, screenW: real, scale: real): (nx: real)
    ensures nx == x + Step * scale || nx == x
    ensures nx == x + Step * scale <==> (x + halfW + Step * scale <= screenW / 2.0 || scale == 0.0)
    ensures OnScreen(x, halfW, screenW) && scale >= 0.0 ==> OnScreen(nx, halfW, screenW)
  {
    if !(x + halfW + Step * scale > screenW / 2.0) then x + Step * scale else x
  }

  /** Every shot moved up by d (`shot_move_up`); nothing moves sideways. */
  function ShotsRaised(shots: seq<Point>, d: real): (r: seq<Point>)
    ensures |r| == |shots|
  {
    seq(|shots|, k requires 0 <= k < |shots| => Point(shots[k].x, shots[k].y + d))
  }

  class MainShip {
    const screenW: real
    const screenH: real
    /** Width and height of the ship image. */
    const shipW: real
    const shipH: real
    /** `y_axis_main`: the ship's fixed height, an eighth of the screen above the bottom. */
    const yAxisMain: real
    const mainShipTop: real
    const mainShipBottom: real
    /** `main_ship_off_centre`: half the image width. */
    const mainShipOffCentre: real
    /** `shot_width`, the stretch factor of a shot's height. */
    const shotWidth: real
    /** `boundary_line_y`: alien shots below this line are removed. */
    const boundaryLineY: real

    /** The ship turtle's position. */
    var x: real
    var y: real
    var shotsFired: seq<Point>
    var lives: int
    /** Positions of the life indicator turtles (`ship_lives`). */
    var shipLives: seq<Point>

    /** Where `create_ship_lives` puts n indicators: along the bottom, a 17th of the width apart. */
    function LifeIcons(n: int): (icons: seq<Point>)
      ensures |icons| == Count(n)
    {
      seq(Count(n), k => Point(-screenW / 2.0 + screenW / 17.0 * ((k + 1) as real), -screenH / 2.0 + screenH / 20.0))
    }

    ghost predicate Valid()
      reads this
    {
      yAxisMain == -screenH / 2.0 + screenH / 8.0 &&
      mainShipTop == yAxisMain + shipH / 2.0 && mainShipBottom == yAxisMain - shipH / 2.0 &&
      mainShipOffCentre == shipW / 2.0 && shotWidth == 1.0 &&
      boundaryLineY == yAxisMain - 30.0 &&
      y == yAxisMain && lives >= 0 && shipLives == LifeIcons(lives)
    }

    constructor (screenW: real, screenH: real, shipW: real, shipH: real)
      ensures Valid()
      ensures this.screenW == screenW && this.screenH == screenH && this.shipW == shipW && this.shipH == shipH
      ensures x == 0.0 && shotsFired == [] && lives == StartLives
    {
      this.screenW := screenW;
      this.screenH := screenH;
      this.shipW := shipW;
      this.shipH := shipH;
      var yMain := -screenH / 2.0 + screenH / 8.0;
      yAxisMain := yMain;
      mainShipTop := yMain + shipH / 2.0;
      mainShipBottom := yMain - shipH / 2.0;
      mainShipOffCentre := shipW / 2.0;
      shotWidth := 1.0;
      boundaryLineY := yMain - 30.0;
      new;
      x, y := 0.0, yAxisMain;
      shotsFired := [];
      lives := StartLives;
      shipLives := CreateShipLives();
    }

    /** `create_ship_lives`: one indicator per life, left to right. */
    method CreateShipLives() returns (icons: seq<Point>)
      ensures icons == LifeIcons(lives)
    {
      var placement := screenW / 17.0;
      var initialX := -screenW / 2.0 + placement;
      var initialY := -screenH / 2.0 + screenH / 20.0;
      icons := [];
      for k := 0 to Count(lives)
        invariant icons == LifeIcons(lives)[..k]
        invariant initialX == -screenW / 2.0 + placement * ((k + 1) as real)
      {
        assert LifeIcons(lives)[k] == Point(initialX, initialY);
        assert LifeIcons(lives)[..k + 1] == LifeIcons(lives)[..k] + [Point(initialX, initialY)];
        icons := icons + [Point(initialX, initialY)];
        initialX := initialX + placement;
        assert placement * ((k + 1) as real) + placement == placement * ((k + 2) as real);
      }
    }

    /** `reset_main_ship`: back at the centre; a new game also restores the lives. */
    method ResetMainShip(endGame: bool)
      requires Valid()
      modifies this`x, this`y, this`lives, this`shipLives
      ensures Valid()
      ensures x == 0.0 && lives == if endGame then StartLives as int else old(lives)
    {
      if endGame {
        lives := StartLives;
      }
      x, y := 0.0, yAxisMain;
      shipLives := CreateShipLives();
    }

    /** `remove_all_shots`: no shot of the ship is left. */
    method RemoveAllShots()
      modifies this`shotsFired
      ensures shotsFired == []
    {
      shotsFired := [];
    }

    /** `add_shot`: one shot at the ship's x, half the image above its centre. */
    method AddShot()
      modifies this`shotsFired
      ensures shotsFired == old(shotsFired) + [Point(x, y + shipH / 2.0)]
    {
      shotsFired := shotsFired + [Point(x, y + shipH / 2.0)];
    }

    /** `move_left`: the guarded step to the left; the ship stays at its height. */
    method MoveLeft(scale: real)
      requires Valid()
      modifies this`x, this`y
      ensures Valid()
      ensures x == LeftStep(old(x), mainShipOffCentre, screenW, scale)
    {
      if !(x - shipW / 2.0 - Step * scale < -(screenW / 2.0)) {
        x, y := x - Step * scale, yAxisMain;
      }
    }

    /** `move_right`: the guarded step to the right; the ship stays at its height. */
    method MoveRight(scale: real)
      requires Valid()
      modifies this`x, this`y
      ensures Valid()
      ensures x == RightStep(old(x), mainShipOffCentre, screenW, scale)
    {
      if !(x + shipW / 2.0 + Step * scale > screenW / 2.0) {
        x, y := x + Step * scale, yAxisMain;
      }
    }

    /** `shot_move_up`: every shot moved up by `shotMove`. */
    method ShotMoveUp(shotMove: real)
      modifies this`shotsFired
      ensures shotsFired == ShotsRaised(old(shotsFired), shotMove)
    {
      for k := 0 to |shotsFired|
        invariant |shotsFired| == |old(shotsFired)|
        invariant forall k' :: 0 <= k' < k ==> shotsFired[k'] == ShotsRaised(old(shotsFired), shotMove)[k']
        invariant forall k' :: k <= k' < |shotsFired| ==> shotsFired[k'] == old(shotsFired)[k']
      {
        shotsFired := shotsFired[k := Point(shotsFired[k].x, shotsFired[k].y + shotMove)];
      }
    }

    /**
     * `shot_in_range`: the ship is hit. On its last life nothing happens and
     * the answer is False; otherwise a life is lost, the ship goes back to
     * the centre and the answer is True.
     */
    method ShotInRange() returns (moreLives: bool)
      requires Valid()
      modifies this`x, this`y, this`lives, this`shipLives
      ensures Valid()
      ensures moreLives == (old(lives) > 0)
      ensures !moreLives ==> x == old(x) && lives == old(lives) && shipLives == old(shipLives)
      ensures moreLives ==> x == 0.0 && lives == old(lives) - 1
    {
      if lives == 0 {
        return false;
      }
      x, y := 0.0, yAxisMain;
      lives := lives - 1;
      shipLives := CreateShipLives();
      return true;
    }
  }
}
