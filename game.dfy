/**
 * The round state of main.py: the module globals the `while play:` loop
 * drives (tick counters, alien speed and shooting interval, level, the
 * player's shot cooldown, score and best score), the resets for a new level
 * and a new game, and one pass of the loop with its steps in the source's
 * order. The clock is an integer argument and every `random` draw a seed.
 */
module Game {
  import opened Common
  import B = Blocks
  import A = Aliens
  import S = Ship
  import L = LoopLogic

  /** `size = 1000, 800`. */
  const ScreenW: real := 1000.0
  const ScreenH: real := 800.0
  /** `block_rows` and `block_columns`. */
  const BlockRows: int := 9
  const BlockColumns: nat := 11
  /** `alien_ship_move_speed` at the start of every level. */
  const StartMoveSpeed: int := 15
  /** `initial_shoot_interval` at the start of a game. */
  const StartShootInterval: int := 20
  /** `add_shot`'s default `time_interval` of 0.35 s, on a millisecond clock. */
  const ShotCooldown: int := 350
  /** `speed` at the start of a game, in seconds per tick. */
  const StartSpeed: real := 0.01
  /** The factor `next_level` applies to `speed`. */
  const SpeedFactor: real := 0.8

  /** `speed` after n cuts: the pacing is kept as its exponent. */
  function Pace(cuts: nat): real
  {
    if cuts == 0 then StartSpeed else Pace(cuts - 1) * SpeedFactor
  }

  /** Every level is paced faster than the one before, and no pace reaches 0. */
  lemma {:induction false} PaceFalls(cuts: nat)
    ensures 0.0 < Pace(cuts + 1) < Pace(cuts) <= StartSpeed
  {
    if cuts > 0 {
      PaceFalls(cuts - 1);
    }
  }

  // ---------------------------------------------------------------------
  // The player's shot cooldown (`add_shot`).

  /**
   * One press of the fire key at time `now` when the last recorded shot was
   * at `timer`: the answer says whether a shot is fired, and the timer that
   * is left. A recorded shot too recent blocks the press; an older one is
   * forgotten and the press fires (the recursive call).
   */
  function Press(timer: Option<int>, now: int, interval: int): (r: (bool, Option<int>))
    ensures r.0 <==> (timer.None? || now - timer.value >= interval)
    ensures r.1 == if r.0 then Some(now) else timer
    decreases if timer.None? then 0 else 1
  {
    if timer.None? then (true, Some(now))
    else if now - timer.value < interval then (false, timer)
    else Press(None, now, interval)
  }

  /** The times, among `presses`, at which a shot is fired. */
  function FireTimes(timer: Option<int>, presses: seq<int>, interval: int): seq<int>
    decreases |presses|
  {
    if presses == [] then []
    else
      var r := Press(timer, presses[0], interval);
      (if r.0 then [presses[0]] else []) + FireTimes(r.1, presses[1..], interval)
  }

  /**
   * Whatever the key presses, two consecutive shots are at least `interval`
   * apart, and the first is at least `interval` after a shot still recorded;
   * only presses fire.
   */
  lemma {:induction false} FiresSpaced(timer: Option<int>, presses: seq<int>, interval: int)
    ensures var f := FireTimes(timer, presses, interval);
      (forall k :: 0 <= k < |f| - 1 ==> f[k + 1] - f[k] >= interval) &&
      (timer.Some? && |f| > 0 ==> f[0] - timer.value >= interval) &&
      |f| <= |presses| && forall t :: t in f ==> t in presses
    decreases |presses|
  {
    if presses != [] {
      var r := Press(timer, presses[0], interval);
      var rest := FireTimes(r.1, presses[1..], interval);
      FiresSpaced(r.1, presses[1..], interval);
      var f := FireTimes(timer, presses, interval);
      if r.0 {
        assert f == [presses[0]] + rest;
      } else {
        assert f == rest;
      }
    }
  }

  // ---------------------------------------------------------------------
  // The tick counters.

  /** A counter of the loop: one more each tick, back to 0 once past `limit`. */
  function Tock(c: int, limit: int): int
  {
    if c + 1 > limit then 0 else c + 1
  }

  /** The counter after n ticks without a reset. */
  function Run(c: int, limit: int, n: nat): int
  {
    if n == 0 then c else Tock(Run(c, limit, n - 1), limit)
  }

  lemma {:induction false} RunCounts(c: int, limit: int, n: nat)
    requires c + n <= limit
    ensures Run(c, limit, n) == c + n
  {
    if n > 0 {
      RunCounts(c, limit, n - 1);
    }
  }

  /**
   * From 0 the counter counts 1, 2, ..., limit, and passes the limit (and the
   * aliens act) exactly on tick `limit + 1`: once every `limit + 1` ticks.
   */
  lemma CounterPeriod(limit: nat)
    ensures forall n: nat :: n <= limit ==> Run(0, limit, n) == n
    ensures Run(0, limit, limit + 1) == 0
  {
    forall n: nat | n <= limit
      ensures Run(0, limit, n) == n
    {
      RunCounts(0, limit, n);
    }
  }

  // ---------------------------------------------------------------------
  // The module globals.

  /**
   * The globals of main.py that the loop reads and writes: the tick counters
   * for moving (`i`) and shooting (`j`), the alien speed and the shooting
   * intervals, the level, the player's shot cooldown, `speed` and
   * `original_speed` as numbers of cuts (see `Pace`), the score
   * (`info.aliens_hit`) and the best score `HighScore` stores.
   */
  datatype Globals = Globals(
    i: int, j: int, alienShipMoveSpeed: int,
    initialShootInterval: int, alienShootInterval: int, level: int,
    shotFired: bool, firstShotTimer: Option<int>,
    speedCuts: nat, originalSpeedCuts: nat,
    score: int, highscore: int)

  /**
   * The globals agree with each other and with the shields: one row fewer
   * per level past the first, the shooting interval two ticks shorter per
   * level with the drawn interval in `[initial, 2 * initial]`, the alien
   * speed between 0 and its start value, and a recorded shot time exactly
   * when a shot is marked fired.
   */
  ghost predicate Consistent(g: Globals, brickRows: int)
  {
    g.level >= 1 && brickRows == BlockRows + 1 - g.level &&
    g.initialShootInterval == StartShootInterval + 2 - 2 * g.level &&
    g.initialShootInterval <= g.alienShootInterval <= 2 * g.initialShootInterval &&
    0 <= g.alienShipMoveSpeed <= StartMoveSpeed && g.i >= 0 && g.j >= 0 &&
    (g.shotFired <==> g.firstShotTimer.Some?) &&
    g.speedCuts == g.originalSpeedCuts && g.score >= 0 && g.highscore >= 0
  }

  /** The globals `next_level` leaves, with `drawn` the new shooting interval. */
  function LevelUp(g: Globals, drawn: int): Globals
  {
    g.(i := 0, j := 0, alienShipMoveSpeed := StartMoveSpeed, level := g.level + 1,
       initialShootInterval := g.initialShootInterval - 2, alienShootInterval := drawn,
       speedCuts := g.speedCuts + 1, originalSpeedCuts := g.speedCuts + 1)
  }

  /**
   * The globals `new_game_reset` leaves: the best score keeps the larger of
   * itself and the score, the score is 0 and the rest is as at the start.
   */
  function GameReset(g: Globals, drawn: int): Globals
  {
    g.(i := 0, j := 0, alienShipMoveSpeed := StartMoveSpeed, level := 1,
       initialShootInterval := StartShootInterval, alienShootInterval := drawn,
       speedCuts := 0, originalSpeedCuts := 0, score := 0,
       highscore := if g.score > g.highscore then g.score else g.highscore)
  }

  /**
   * The wall rule of the loop: a turn at a wall takes a tick off the move
   * interval, down to 1. The interval never grows, never falls below 1 once
   * it is at least 1, and shrinks exactly at a wall while above 1.
   */
  function Quicken(speed: int, hitWall: bool): (r: int)
    ensures r <= speed && speed - 1 <= r
    ensures speed >= 1 ==> r >= 1
    ensures r < speed <==> (hitWall && speed > 1)
  {
    if hitWall && speed > 1 then speed - 1 else speed
  }

  /** A level up keeps the globals consistent with shields one row shorter. */
  lemma LevelUpConsistent(g: Globals, brickRows: int, drawn: int)
    requires Consistent(g, brickRows) && g.initialShootInterval - 2 <= drawn <= 2 * (g.initialShootInterval - 2)
    ensures Consistent(LevelUp(g, drawn), brickRows - 1)
  {
  }

  /** After a reset the globals are consistent with the nine rows of a new game. */
  lemma GameResetConsistent(g: Globals, brickRows: int, drawn: int)
    requires Consistent(g, brickRows) && StartShootInterval <= drawn <= 2 * StartShootInterval
    ensures Consistent(GameReset(g, drawn), BlockRows)
    ensures GameReset(g, drawn).highscore >= g.score && GameReset(g, drawn).highscore >= g.highscore
  {
  }

  // ---------------------------------------------------------------------
  // The parts both resets share.

  /**
   * The formation as `reset_alien_ships` leaves it: both grids laid out at
   * their starting positions, all 55 aliens counted, the first images
   * shown, moving right.
   */
  ghost predicate FormationAtStart(aliens: A.AlienShips)
    reads aliens
  {
    aliens.Valid() &&
    aliens.shipList == A.Layout(aliens.screenW, aliens.screenH, aliens.spacingX, aliens.spacingY, aliens.imgs) &&
    aliens.shipListMoving == A.Layout(aliens.screenW, aliens.screenH, aliens.spacingX, aliens.spacingY, aliens.imgsMoving) &&
    aliens.aliensLeft == A.Rows * A.Columns && aliens.firstShapeList && aliens.movingRight &&
    !aliens.lastShip && !aliens.noMoreShips
  }

  /**
   * The shields as `reset_bricks` stamps them for `level`: the template with
   * its arch for that level, stamped whole at every origin.
   */
  ghost predicate ShieldsStamped(blocks: B.BlockField, level: int)
    reads blocks
  {
    blocks.Valid() &&
    blocks.template == B.Template(blocks.brickRows, blocks.brickColumns, blocks.brickRows, blocks.brickColumns, level) &&
    |blocks.clusters| == B.NumBlocks - 1 &&
    forall b :: 0 <= b < |blocks.clusters| ==>
      blocks.clusters[b] == B.SetBlockHitPositions(blocks.template, blocks.blocksList[b])
  }

  /**
   * The grids and direction after a `move(10)` from `list`, `listMoving`
   * and `right`: a step of 10 towards the current side, or at a wall a drop
   * of two thirds of a row spacing and a turn.
   */
  ghost predicate Marched(aliens: A.AlienShips, list: A.Grid, listMoving: A.Grid, right: bool, hitWall: bool)
    reads aliens
  {
    var dx := if hitWall then 0.0 else if right then 10.0 else -10.0;
    var dy := if hitWall then -(aliens.spacingY / 1.5) else 0.0;
    aliens.shipList == A.Translate(list, dx, dy) && aliens.shipListMoving == A.Translate(listMoving, dx, dy) &&
    aliens.movingRight == (right != hitWall)
  }

  /**
   * The parts as a game over in the moving test leaves them: the start
   * formation with its images switched once, nine rows of level-1 shields
   * after the new front line's scrape, the ship centred with two lives, and
   * no shots.
   */
  ghost predicate RestartedAfterMove(aliens: A.AlienShips, blocks: B.BlockField, ship: S.MainShip)
    reads aliens, blocks, ship
  {
    aliens.Valid() && blocks.Valid() && ship.Valid() &&
    aliens.shipList == A.Layout(aliens.screenW, aliens.screenH, aliens.spacingX, aliens.spacingY, aliens.imgs) &&
    aliens.shipListMoving == A.Layout(aliens.screenW, aliens.screenH, aliens.spacingX, aliens.spacingY, aliens.imgsMoving) &&
    aliens.aliensLeft == A.Rows * A.Columns && !aliens.firstShapeList && aliens.movingRight &&
    !aliens.lastShip && !aliens.noMoreShips && aliens.shotsFired == [] &&
    blocks.brickRows == BlockRows &&
    blocks.template == B.Template(blocks.brickRows, blocks.brickColumns, blocks.brickRows, blocks.brickColumns, 1) &&
    blocks.clusters == L.Scraped(aliens, aliens.shipList, B.StampAll(blocks.template, blocks.blocksList),
                                 blocks.blockBottomY, blocks.blockTopY) &&
    ship.x == 0.0 && ship.lives == S.StartLives && ship.shotsFired == []
  }

  /** The three objects valid, on the game's screen and with its shield columns. */
  ghost predicate Parts(aliens: A.AlienShips, ship: S.MainShip, blocks: B.BlockField)
    reads aliens, ship, blocks
  {
    aliens.Valid() && ship.Valid() && blocks.Valid() &&
    blocks.screenW == ScreenW && blocks.brickColumns == BlockColumns
  }

  /**
   * The formation's part of `next_level` and `new_game_reset`: the shown
   * images hidden, the aliens' shots removed and the formation rebuilt.
   */
  method NewFormation(aliens: A.AlienShips)
    requires aliens.Valid()
    modifies aliens
    ensures aliens.Valid() && FormationAtStart(aliens) && aliens.shotsFired == []
  {
    aliens.SwitchShips(false);
    aliens.RemoveAllShots();
    aliens.ResetAlienShips();
  }

  /** The ship's part of both resets: back at the centre with no shot, and two lives again after a game over. */
  method RecentreShip(ship: S.MainShip, endGame: bool)
    requires ship.Valid()
    modifies ship
    ensures ship.Valid() && ship.x == 0.0 && ship.shotsFired == []
    ensures ship.lives == if endGame then S.StartLives as int else old(ship.lives)
  {
    ship.RemoveAllShots();
    ship.ResetMainShip(endGame);
  }

  /**
   * The parts of the game both resets rebuild: a new formation, the shields
   * rebuilt by `reset_bricks(level, rows)`, and the ship recentred.
   */
  method ResetParts(aliens: A.AlienShips, blocks: B.BlockField, ship: S.MainShip,
                    level: int, rows: Option<int>, endGame: bool)
    requires Parts(aliens, ship, blocks)
    modifies aliens, blocks, ship
    ensures Parts(aliens, ship, blocks)
    ensures FormationAtStart(aliens) && aliens.shotsFired == []
    ensures ShieldsStamped(blocks, level)
    ensures blocks.brickRows ==
      if rows.Some? && rows.value != 0 then rows.value
      else if level > 1 then old(blocks.brickRows) - 1
      else old(blocks.brickRows)
    ensures ship.x == 0.0 && ship.shotsFired == []
    ensures ship.lives == if endGame then S.StartLives as int else old(ship.lives)
  {
    NewFormation(aliens);
    blocks.ResetBricks(level, rows);
    RecentreShip(ship, endGame);
  }

  /** `random.randint(base, base * 2)` for the shooting interval: any seed draws a value in range. */
  method DrawInterval(base: int, seed: nat) returns (r: int)
    requires base >= 0
    ensures base <= r <= 2 * base
  {
    r := RandInt(base, base * 2, seed);
  }

  // ---------------------------------------------------------------------
  // The loop's passes over the formation and the two shot lists.

  /**
   * The formation's move and the finish test: the formation steps sideways
   * (or down at a wall), and `passedFinish` says whether a live alien has
   * come down to the top of the ship.
   */
  method March(aliens: A.AlienShips, ship: S.MainShip) returns (hitWall: bool, passedFinish: bool)
    requires aliens.Valid() && aliens.aliensLeft > 0
    modifies aliens`shipList, aliens`shipListMoving, aliens`movingRight
    ensures aliens.Valid() && aliens.aliensLeft == old(aliens.aliensLeft)
    ensures hitWall == !A.ClearOfWalls(old(aliens.shipList), old(aliens.movingRight), aliens.alienW / 2.0, aliens.screenW)
    ensures Marched(aliens, old(aliens.shipList), old(aliens.shipListMoving), old(aliens.movingRight), hitWall)
    ensures passedFinish <==> exists i, j :: A.Live(aliens.shipList, i, j) && aliens.shipList[i][j].value.y <= ship.mainShipTop
  {
    hitWall := aliens.Move(10.0);
    passedFinish := L.CheckAlienPassedFinish(aliens, ship);
  }

  /** The lowest aliens scrape the shields, then the formation's images switch. */
  method ScrapeAndSwitch(aliens: A.AlienShips, blocks: B.BlockField)
    requires aliens.Valid() && aliens.aliensLeft > 0 && blocks.Valid() && blocks.brickRows >= 1
    modifies aliens`firstShapeList, blocks`clusters
    ensures aliens.Valid() && blocks.Valid() && B.OnlyHides(old(blocks.clusters), blocks.clusters)
    ensures aliens.firstShapeList == !old(aliens.firstShapeList)
    ensures blocks.clusters == old(L.Scraped(aliens, aliens.Visible(), blocks.clusters, blocks.blockBottomY, blocks.blockTopY))
    ensures blocks.clusters == L.Scraped(aliens, aliens.Hidden(), old(blocks.clusters), blocks.blockBottomY, blocks.blockTopY)
  {
    L.CheckAlienHitBlock(aliens, blocks);
    aliens.SwitchShips(true);
  }

  /**
   * The scrape and the switch of images that follow a game over in the
   * moving test, on the start formation and freshly stamped level-1
   * shields: they leave the parts as `RestartedAfterMove` says.
   */
  method ScrapeRestart(aliens: A.AlienShips, blocks: B.BlockField, ship: S.MainShip)
    requires Parts(aliens, ship, blocks) && FormationAtStart(aliens) && aliens.shotsFired == []
    requires ShieldsStamped(blocks, 1) && blocks.brickRows == BlockRows
    requires ship.x == 0.0 && ship.lives == S.StartLives && ship.shotsFired == []
    modifies aliens`firstShapeList, blocks`clusters
    ensures Parts(aliens, ship, blocks) && RestartedAfterMove(aliens, blocks, ship)
  {
    assert blocks.clusters == B.StampAll(blocks.template, blocks.blocksList);
    ScrapeAndSwitch(aliens, blocks);
  }

  /**
   * The formation's move when no alien has reached the ship: the move, the
   * finish test, and then the scrape and the switch of images. When an alien
   * has reached the ship only the move is made here; the scrape follows the
   * reset (`Round.FinishReset`).
   */
  method Advance(aliens: A.AlienShips, blocks: B.BlockField, ship: S.MainShip) returns (hitWall: bool, passedFinish: bool)
    requires aliens.Valid() && aliens.aliensLeft > 0 && blocks.Valid() && blocks.brickRows >= 1
    modifies aliens`shipList, aliens`shipListMoving, aliens`movingRight, aliens`firstShapeList, blocks`clusters
    ensures aliens.Valid() && blocks.Valid() && aliens.aliensLeft == old(aliens.aliensLeft)
    ensures hitWall == !A.ClearOfWalls(old(aliens.shipList), old(aliens.movingRight), aliens.alienW / 2.0, aliens.screenW)
    ensures Marched(aliens, old(aliens.shipList), old(aliens.shipListMoving), old(aliens.movingRight), hitWall)
    ensures passedFinish <==> exists i, j :: A.Live(aliens.shipList, i, j) && aliens.shipList[i][j].value.y <= ship.mainShipTop
    ensures !passedFinish ==>
      aliens.firstShapeList == !old(aliens.firstShapeList) && B.OnlyHides(old(blocks.clusters), blocks.clusters)
    ensures !passedFinish ==>
      blocks.clusters == L.Scraped(aliens, aliens.Hidden(), old(blocks.clusters), blocks.blockBottomY, blocks.blockTopY)
    ensures passedFinish ==>
      aliens.firstShapeList == old(aliens.firstShapeList) && blocks.clusters == old(blocks.clusters)
  {
    hitWall, passedFinish := March(aliens, ship);
    if !passedFinish {
      ScrapeAndSwitch(aliens, blocks);
    }
  }

  /**
   * The two removals both shot lists go through after their move: the shots
   * on a shield (`BlockScan`, which also gives the shields left), then those
   * past the boundary line (`PassedScan`). The survivors are among the
   * shots, in order.
   */
  method ClearShots(shots: seq<Point>, blocks: B.BlockField, boundaryY: real, spaceship: bool)
    returns (kept: seq<Point>)
    requires blocks.Valid() && blocks.brickRows >= 1 && 50.0 * (blocks.brickColumns as real) < blocks.screenW
    modifies blocks`clusters
    ensures blocks.Valid() && B.OnlyHides(old(blocks.clusters), blocks.clusters)
    ensures var scan := L.BlockScan(shots, old(blocks.clusters), 0, blocks.blockBottomY, blocks.blockTopY);
      blocks.clusters == scan.1 && kept == L.PassedScan(scan.0, 0, boundaryY, spaceship)
    ensures IsSubsequence(kept, shots)
  {
    var onScreen := L.CheckShotHitBlock(shots, blocks);
    kept := L.CheckPassedLine(onScreen, boundaryY, spaceship);
    L.PassedScanRemovesPassed(onScreen, 0, boundaryY, spaceship);
    SubsequenceTrans(kept, onScreen, shots);
  }

  /**
   * The player's shots (`if space_ship.shots_fired:`): raised by 10, those
   * on a shield or above the top line dropped (`BlockScan`, then
   * `PassedScan`), then the first on an alien dropped with its alien. The
   * survivors are among the raised shots, in order; `hit` says an alien was
   * shot.
   */
  method PlayerShotsPass(aliens: A.AlienShips, blocks: B.BlockField, ship: S.MainShip, topY: real)
    returns (hit: bool)
    requires aliens.Valid() && aliens.aliensLeft > 0 && ship.Valid()
    requires blocks.Valid() && blocks.brickRows >= 1 && 50.0 * (blocks.brickColumns as real) < blocks.screenW
    modifies ship`shotsFired, blocks`clusters
    modifies aliens`shipList, aliens`shipListMoving, aliens`aliensLeft, aliens`lastShip, aliens`noMoreShips
    ensures aliens.Valid() && blocks.Valid() && ship.Valid() && B.OnlyHides(old(blocks.clusters), blocks.clusters)
    ensures IsSubsequence(ship.shotsFired, S.ShotsRaised(old(ship.shotsFired), 10.0))
    ensures var scan := L.BlockScan(S.ShotsRaised(old(ship.shotsFired), 10.0), old(blocks.clusters), 0,
                                    blocks.blockBottomY, blocks.blockTopY);
      var kept := L.PassedScan(scan.0, 0, topY, true);
      var first := old(L.FirstShotOnAliens(kept, aliens, ship));
      blocks.clusters == scan.1 && hit == first.Some? &&
      (!hit ==>
        ship.shotsFired == kept && aliens.shipList == old(aliens.shipList) &&
        aliens.shipListMoving == old(aliens.shipListMoving)) &&
      (hit ==>
        ship.shotsFired == RemoveAt(kept, first.value) &&
        L.Destroyed(old(aliens.shipList), old(aliens.shipListMoving), aliens.shipList, aliens.shipListMoving,
                    old(L.SlotShotAt(aliens, kept[first.value], L.ShotTip(ship.shotWidth)))))
    ensures aliens.aliensLeft == old(aliens.aliensLeft) - (if hit then 1 else 0)
  {
    ship.ShotMoveUp(10.0);
    var shots := ship.shotsFired;
    var kept := ClearShots(shots, blocks, topY, true);
    ghost var first := L.FirstShotOnAliens(kept, aliens, ship);
    var rest;
    rest, hit := L.CheckShotHitAlien(kept, aliens, ship);
    if hit {
      RemoveAtIsSubsequence(kept, first.value);
      SubsequenceTrans(rest, kept, shots);
    }
    ship.shotsFired := rest;
  }

  /**
   * The aliens' shots (`if aliens.shots_fired:`): lowered by 5, those on a
   * shield or below the ship's line dropped, then the first in the ship's
   * box costs a life and recentres the ship, unless it is the last
   * (`moreLives` false, nothing else removed).
   */
  method AlienShotsPass(aliens: A.AlienShips, blocks: B.BlockField, ship: S.MainShip) returns (moreLives: bool)
    requires ship.Valid()
    requires blocks.Valid() && blocks.brickRows >= 1 && 50.0 * (blocks.brickColumns as real) < blocks.screenW
    modifies aliens`shotsFired, blocks`clusters, ship`x, ship`y, ship`lives, ship`shipLives
    ensures ship.Valid() && blocks.Valid() && B.OnlyHides(old(blocks.clusters), blocks.clusters)
    ensures IsSubsequence(aliens.shotsFired, A.ShotsDropped(old(aliens.shotsFired), 5.0))
    ensures var scan := L.BlockScan(A.ShotsDropped(old(aliens.shotsFired), 5.0), old(blocks.clusters), 0,
                                    blocks.blockBottomY, blocks.blockTopY);
      var kept := L.PassedScan(scan.0, 0, ship.boundaryLineY, false);
      var f := L.FirstInBox(kept, 0, ship.mainShipBottom, ship.mainShipTop, old(ship.x), ship.mainShipOffCentre);
      blocks.clusters == scan.1 &&
      (f.None? ==> moreLives && aliens.shotsFired == kept && ship.x == old(ship.x) && ship.lives == old(ship.lives)) &&
      (f.Some? ==>
        moreLives == (old(ship.lives) > 0) &&
        (moreLives ==> aliens.shotsFired == RemoveAt(kept, f.value) && ship.x == 0.0 && ship.lives == old(ship.lives) - 1) &&
        (!moreLives ==> aliens.shotsFired == kept && ship.x == old(ship.x) && ship.lives == old(ship.lives)))
  {
    aliens.MoveShots(5.0);
    var shots := aliens.shotsFired;
    var kept := ClearShots(shots, blocks, ship.boundaryLineY, false);
    ghost var f := L.FirstInBox(kept, 0, ship.mainShipBottom, ship.mainShipTop, ship.x, ship.mainShipOffCentre);
    var rest;
    rest, moreLives := L.CheckShotHitSpaceShip(kept, ship);
    if f.Some? && moreLives {
      RemoveAtIsSubsequence(kept, f.value);
      SubsequenceTrans(rest, kept, shots);
    }
    aliens.shotsFired := rest;
  }

  // ---------------------------------------------------------------------
  // The round state.

  class Round {
    const aliens: A.AlienShips
    const ship: S.MainShip
    const blocks: B.BlockField
    /** `info.boundary_line_y`: the player's shots above it are removed. */
    const topBoundaryY: real
    /** The module globals. */
    var g: Globals

    /** The invariant of the loop: the three parts valid on the game's screen and the globals consistent with them. */
    ghost predicate Valid()
      reads this, aliens, ship, blocks
    {
      Parts(aliens, ship, blocks) &&
      topBoundaryY == ScreenH / 2.0 - (ScreenH / 2.0) / 10.0 &&
      Consistent(g, blocks.brickRows)
    }

    /**
     * Every part as the start of a level leaves it: counters at zero, the
     * formation at its start, the shields stamped for the level, the ship
     * centred and no shots.
     */
    ghost predicate FreshWave()
      reads this, aliens, ship, blocks
    {
      g.i == 0 && g.j == 0 && g.alienShipMoveSpeed == StartMoveSpeed &&
      FormationAtStart(aliens) && ShieldsStamped(blocks, g.level) &&
      aliens.shotsFired == [] && ship.shotsFired == [] && ship.x == 0.0
    }

    /**
     * The module-level setup of main.py and its globals; `storedBest` is the
     * best score `HighScore.get_highscore` reads (0 without a file).
     */
    constructor (shipW: real, shipH: real, alienW: real, alienH: real,
                 imgs: seq<Sprite>, imgsMoving: seq<Sprite>, storedBest: nat, seed: nat)
      requires |imgs| >= 3 && |imgsMoving| >= 3
      ensures Valid() && FreshWave()
      ensures g.level == 1 && g.score == 0 && g.highscore == storedBest && !g.shotFired && ship.lives == S.StartLives
      ensures StartShootInterval <= g.alienShootInterval <= 2 * StartShootInterval
    {
      ship := new S.MainShip(ScreenW, ScreenH, shipW, shipH);
      blocks := new B.BlockField(ScreenW, ScreenH, BlockRows, BlockColumns);
      aliens := new A.AlienShips(ScreenW, ScreenH, imgs, imgsMoving, alienW, alienH);
      topBoundaryY := ScreenH / 2.0 - (ScreenH / 2.0) / 10.0;
      var drawn := DrawInterval(StartShootInterval, seed);
      g := Globals(0, 0, StartMoveSpeed, StartShootInterval, drawn, 1, false, None, 0, 0, 0, storedBest);
    }

    /**
     * `add_shot`: a shot leaves the ship when the cooldown allows it (see
     * `Press`); the timer is then restarted at `now`.
     */
    method AddShot(now: int, interval: int)
      requires Valid()
      modifies this`g, ship`shotsFired
      ensures Valid()
      ensures var r := Press(old(g.firstShotTimer), now, interval);
        g == old(g).(shotFired := r.1.Some?, firstShotTimer := r.1) &&
        ship.shotsFired == old(ship.shotsFired) + (if r.0 then [Point(ship.x, ship.y + ship.shipH / 2.0)] else [])
      decreases if g.shotFired then 1 else 0
    {
      if !g.shotFired {
        ship.AddShot();
        g := g.(shotFired := true, firstShotTimer := Some(now));
        return;
      }
      var secondShotTimer := now;
      if secondShotTimer - g.firstShotTimer.value < interval {
        return;
      } else {
        g := g.(shotFired := false, firstShotTimer := None);
        AddShot(now, interval);
      }
    }

    /**
     * `next_level`: one level up; a new formation, shorter shields, the ship
     * recentred with its lives, every shot gone, and the globals as `LevelUp`
     * leaves them with a newly drawn shooting interval.
     */
    method NextLevel(seed: nat)
      requires Valid() && g.level <= BlockRows + 1
      modifies this`g, aliens, ship, blocks
      ensures Valid() && FreshWave()
      ensures g == LevelUp(old(g), g.alienShootInterval)
      ensures blocks.brickRows == old(blocks.brickRows) - 1 && ship.lives == old(ship.lives)
    {
      var base := g.initialShootInterval - 2;
      var drawn := DrawInterval(base, seed);
      LevelUpConsistent(g, blocks.brickRows, drawn);
      g := LevelUp(g, drawn);
      ResetParts(aliens, blocks, ship, g.level, None, false);
    }

    /**
     * `new_game_reset`: the formation, the shields (nine rows) and the ship
     * (two lives) as at the start, every shot gone, and the globals as
     * `GameReset` leaves them with a newly drawn shooting interval.
     */
    method NewGameReset(seed: nat)
      requires Valid()
      modifies this`g, aliens, ship, blocks
      ensures Valid() && FreshWave()
      ensures g == GameReset(old(g), g.alienShootInterval)
      ensures blocks.brickRows == BlockRows && ship.lives == S.StartLives
    {
      var drawn := DrawInterval(StartShootInterval, seed);
      GameResetConsistent(g, blocks.brickRows, drawn);
      g := GameReset(g, drawn);
      ResetParts(aliens, blocks, ship, 1, Some(BlockRows), true);
    }

    /** The loop's shooting test: past the interval one alien, picked by `shooter`, fires and `j` restarts. */
    method AlienShootStep(shooter: nat)
      requires Valid() && aliens.aliensLeft > 0
      modifies this`g, aliens`shotsFired
      ensures Valid()
      ensures old(g.j) > g.alienShootInterval ==> (g == old(g).(j := 0) &&
        var a := A.ChosenAlien(aliens.shipList, shooter);
        aliens.shotsFired == old(aliens.shotsFired) + [Point(a.x, a.y - aliens.alienH / 2.0)])
      ensures old(g.j) <= g.alienShootInterval ==> g == old(g) && aliens.shotsFired == old(aliens.shotsFired)
    {
      if g.j > g.alienShootInterval {
        aliens.RandomShot(shooter);
        g := g.(j := 0);
      }
    }

    /**
     * A formation that has come down to the ship ends the game: the game is
     * reset, then the new formation scrapes the shields and switches images
     * as after any move.
     */
    method FinishReset(seed: nat)
      requires Valid()
      modifies this`g, aliens, ship, blocks
      ensures Valid() && g == GameReset(old(g), g.alienShootInterval)
      ensures RestartedAfterMove(aliens, blocks, ship)
    {
      NewGameReset(seed);
      ScrapeRestart(aliens, blocks, ship);
    }

    /**
     * The loop's moving test: past the interval the formation moves (and
     * turns at a wall, speeding up by one tick unless at 1), a formation
     * that reaches the ship's height ends the game, the lowest aliens scrape
     * the shields, the images switch, and `i` restarts.
     */
    method AlienMoveStep(seed: nat) returns (moved: bool, hitWall: bool, gameOver: bool)
      requires Valid() && aliens.aliensLeft > 0 && blocks.brickRows >= 1
      modifies this`g, aliens, ship, blocks
      ensures Valid() && aliens.aliensLeft > 0
      ensures moved == (old(g.i) > old(g.alienShipMoveSpeed))
      ensures moved ==> hitWall == !A.ClearOfWalls(old(aliens.shipList), old(aliens.movingRight), aliens.alienW / 2.0, aliens.screenW)
      ensures !moved ==> !hitWall && !gameOver && g == old(g) && unchanged(aliens, ship, blocks)
      ensures moved && !gameOver ==> (g == old(g).(i := 0, alienShipMoveSpeed := Quicken(old(g.alienShipMoveSpeed), hitWall)) &&
        Marched(aliens, old(aliens.shipList), old(aliens.shipListMoving), old(aliens.movingRight), hitWall) &&
        aliens.firstShapeList == !old(aliens.firstShapeList) &&
        aliens.aliensLeft == old(aliens.aliensLeft) &&
        aliens.shotsFired == old(aliens.shotsFired) && ship.shotsFired == old(ship.shotsFired) &&
        ship.lives == old(ship.lives))
      ensures moved && !gameOver ==> B.OnlyHides(old(blocks.clusters), blocks.clusters)
      ensures moved && !gameOver ==>
        blocks.clusters == L.Scraped(aliens, aliens.Hidden(), old(blocks.clusters), blocks.blockBottomY, blocks.blockTopY)
      ensures gameOver ==> (moved &&
        g == GameReset(old(g), g.alienShootInterval).(alienShipMoveSpeed := Quicken(StartMoveSpeed, hitWall)) &&
        RestartedAfterMove(aliens, blocks, ship))
    {
      moved, hitWall, gameOver := false, false, false;
      if g.i > g.alienShipMoveSpeed {
        moved := true;
        hitWall, gameOver := MoveFormation(seed);
      }
    }

    /**
     * The body of the moving test: the move and the finish test, the reset
     * when an alien has reached the ship, the scrape and the switch of
     * images, then the wall speed-up and `i` back to 0.
     */
    method MoveFormation(seed: nat) returns (hitWall: bool, gameOver: bool)
      requires Valid() && aliens.aliensLeft > 0 && blocks.brickRows >= 1
      modifies this`g, aliens, ship, blocks
      ensures Valid() && aliens.aliensLeft > 0
      ensures hitWall == !A.ClearOfWalls(old(aliens.shipList), old(aliens.movingRight), aliens.alienW / 2.0, aliens.screenW)
      ensures !gameOver ==> (g == old(g).(i := 0, alienShipMoveSpeed := Quicken(old(g.alienShipMoveSpeed), hitWall)) &&
        Marched(aliens, old(aliens.shipList), old(aliens.shipListMoving), old(aliens.movingRight), hitWall) &&
        aliens.firstShapeList == !old(aliens.firstShapeList) &&
        aliens.aliensLeft == old(aliens.aliensLeft) &&
        aliens.shotsFired == old(aliens.shotsFired) && ship.shotsFired == old(ship.shotsFired) &&
        ship.lives == old(ship.lives))
      ensures !gameOver ==> B.OnlyHides(old(blocks.clusters), blocks.clusters)
      ensures !gameOver ==>
        blocks.clusters == L.Scraped(aliens, aliens.Hidden(), old(blocks.clusters), blocks.blockBottomY, blocks.blockTopY)
      ensures gameOver ==>
        g == GameReset(old(g), g.alienShootInterval).(alienShipMoveSpeed := Quicken(StartMoveSpeed, hitWall)) &&
        RestartedAfterMove(aliens, blocks, ship)
    {
      var passedFinish;
      hitWall, passedFinish := Advance(aliens, blocks, ship);
      gameOver := passedFinish;
      if passedFinish {
        FinishReset(seed);
      }
      EndMove(hitWall);
    }

    /** The end of the moving test: a turn at a wall takes a tick off the move interval (see `Quicken`), and `i` restarts. */
    method EndMove(hitWall: bool)
      requires Valid()
      modifies this`g
      ensures Valid()
      ensures g == old(g).(i := 0, alienShipMoveSpeed := Quicken(old(g.alienShipMoveSpeed), hitWall))
    {
      g := g.(i := 0, alienShipMoveSpeed := Quicken(g.alienShipMoveSpeed, hitWall));
    }

    /**
     * The player's shots as `PlayerShotsPass` leaves them; the score rises
     * by one exactly when an alien was hit.
     */
    method ShipShotsStep() returns (hit: bool)
      requires Valid() && aliens.aliensLeft > 0 && blocks.brickRows >= 1
      modifies this`g, ship`shotsFired, blocks`clusters
      modifies aliens`shipList, aliens`shipListMoving, aliens`aliensLeft, aliens`lastShip, aliens`noMoreShips
      ensures Valid()
      ensures g == old(g).(score := old(g.score) + if hit then 1 else 0)
      ensures aliens.aliensLeft == old(aliens.aliensLeft) - (if hit then 1 else 0)
      ensures IsSubsequence(ship.shotsFired, S.ShotsRaised(old(ship.shotsFired), 10.0))
      ensures var scan := L.BlockScan(S.ShotsRaised(old(ship.shotsFired), 10.0), old(blocks.clusters), 0,
                                      blocks.blockBottomY, blocks.blockTopY);
        var kept := L.PassedScan(scan.0, 0, topBoundaryY, true);
        var first := old(L.FirstShotOnAliens(kept, aliens, ship));
        blocks.clusters == scan.1 && hit == first.Some? &&
        ship.shotsFired == (if hit then RemoveAt(kept, first.value) else kept) &&
        (hit ==>
          L.Destroyed(old(aliens.shipList), old(aliens.shipListMoving), aliens.shipList, aliens.shipListMoving,
                      old(L.SlotShotAt(aliens, kept[first.value], L.ShotTip(ship.shotWidth)))))
      ensures !hit ==> aliens.shipList == old(aliens.shipList) && aliens.shipListMoving == old(aliens.shipListMoving)
      ensures B.OnlyHides(old(blocks.clusters), blocks.clusters)
    {
      hit := PlayerShotsPass(aliens, blocks, ship, topBoundaryY);
      if hit {
        g := g.(score := g.score + 1);
      }
    }

    /**
     * The aliens' shots as `AlienShotsPass` leaves them; on the last life the
     * game is reset instead.
     */
    method AlienShotsStep(seed: nat) returns (moreLives: bool)
      requires Valid() && blocks.brickRows >= 1
      modifies this`g, aliens, ship, blocks
      ensures Valid()
      ensures moreLives ==> (g == old(g) && aliens.aliensLeft == old(aliens.aliensLeft) &&
        aliens.noMoreShips == old(aliens.noMoreShips) && aliens.lastShip == old(aliens.lastShip) &&
        aliens.shipList == old(aliens.shipList) && aliens.shipListMoving == old(aliens.shipListMoving) &&
        ship.shotsFired == old(ship.shotsFired) && blocks.blockBottomY == old(blocks.blockBottomY) &&
        IsSubsequence(aliens.shotsFired, A.ShotsDropped(old(aliens.shotsFired), 5.0)))
      ensures moreLives ==>
        var scan := L.BlockScan(A.ShotsDropped(old(aliens.shotsFired), 5.0), old(blocks.clusters), 0,
                                blocks.blockBottomY, blocks.blockTopY);
        var kept := L.PassedScan(scan.0, 0, ship.boundaryLineY, false);
        var f := L.FirstInBox(kept, 0, ship.mainShipBottom, ship.mainShipTop, old(ship.x), ship.mainShipOffCentre);
        blocks.clusters == scan.1 &&
        aliens.shotsFired == (if f.Some? then RemoveAt(kept, f.value) else kept) &&
        ship.x == (if f.Some? then 0.0 else old(ship.x)) &&
        ship.lives == old(ship.lives) - (if f.Some? then 1 else 0)
      ensures !moreLives ==> (old(ship.lives) == 0 && g == GameReset(old(g), g.alienShootInterval) &&
        ship.lives == S.StartLives && FreshWave())
    {
      moreLives := AlienShotsPass(aliens, blocks, ship);
      if !moreLives {
        NewGameReset(seed);
      }
    }

    /** With one alien left it moves on every tick (`speed == original_speed` always holds). */
    method LastShipStep()
      requires Valid()
      modifies this`g
      ensures Valid()
      ensures g == if aliens.lastShip then old(g).(alienShipMoveSpeed := 0) else old(g)
    {
      if aliens.lastShip {
        if Pace(g.speedCuts) == Pace(g.originalSpeedCuts) {
          g := g.(alienShipMoveSpeed := 0);
        }
      }
    }

    /**
     * The first half of a pass: both counters advance, then the shooting test
     * and the moving test. Unless the game ended, each counter has made one
     * `Tock`, a shot was added exactly when `j` passed its interval, and
     * the move interval lost a tick exactly at a wall while above 1.
     */
    method AlienTurn(shooter: nat, seed: nat) returns (moved: bool, hitWall: bool, gameOver: bool)
      requires Valid() && aliens.aliensLeft > 0 && blocks.brickRows >= 1
      modifies this`g, aliens, ship, blocks
      ensures Valid() && aliens.aliensLeft > 0
      ensures moved == (old(g.i) + 1 > old(g.alienShipMoveSpeed))
      ensures moved ==> hitWall == !A.ClearOfWalls(old(aliens.shipList), old(aliens.movingRight), aliens.alienW / 2.0, aliens.screenW)
      ensures !moved ==> !hitWall && !gameOver
      ensures !moved ==> (aliens.shipList == old(aliens.shipList) && aliens.shipListMoving == old(aliens.shipListMoving) &&
        aliens.movingRight == old(aliens.movingRight) && aliens.firstShapeList == old(aliens.firstShapeList) &&
        ship.x == old(ship.x) && ship.lives == old(ship.lives) && ship.shotsFired == old(ship.shotsFired) &&
        blocks.clusters == old(blocks.clusters))
      ensures !gameOver ==> g == old(g).(
        i := Tock(old(g.i), old(g.alienShipMoveSpeed)), j := Tock(old(g.j), old(g.alienShootInterval)),
        alienShipMoveSpeed := if moved then Quicken(old(g.alienShipMoveSpeed), hitWall) else old(g.alienShipMoveSpeed))
      ensures !gameOver ==> aliens.aliensLeft == old(aliens.aliensLeft)
      ensures moved && !gameOver ==>
        Marched(aliens, old(aliens.shipList), old(aliens.shipListMoving), old(aliens.movingRight), hitWall) &&
        blocks.clusters == L.Scraped(aliens, aliens.Hidden(), old(blocks.clusters), blocks.blockBottomY, blocks.blockTopY)
      ensures moved && !gameOver ==> (aliens.firstShapeList == !old(aliens.firstShapeList) &&
        ship.shotsFired == old(ship.shotsFired) && ship.lives == old(ship.lives))
      ensures gameOver ==> (moved &&
        g == GameReset(old(g), g.alienShootInterval).(alienShipMoveSpeed := Quicken(StartMoveSpeed, hitWall)) &&
        RestartedAfterMove(aliens, blocks, ship))
    {
      CountAndShoot(shooter);
      moved, hitWall, gameOver := AlienMoveStep(seed);
    }

    /**
     * The head of a pass: both counters one on, then the shooting test, so
     * `j` makes one `Tock` and the chosen alien fires exactly when it does
     * so back to 0.
     */
    method CountAndShoot(shooter: nat)
      requires Valid() && aliens.aliensLeft > 0
      modifies this`g, aliens`shotsFired
      ensures Valid()
      ensures g == old(g).(i := old(g.i) + 1, j := Tock(old(g.j), old(g.alienShootInterval)))
      ensures old(g.j) + 1 > g.alienShootInterval ==>
        var a := A.ChosenAlien(aliens.shipList, shooter);
        aliens.shotsFired == old(aliens.shotsFired) + [Point(a.x, a.y - aliens.alienH / 2.0)]
      ensures old(g.j) + 1 <= g.alienShootInterval ==> aliens.shotsFired == old(aliens.shotsFired)
    {
      g := g.(i := g.i + 1, j := g.j + 1);
      AlienShootStep(shooter);
    }

    /**
     * What the two shot passes leave, from the state before them: the
     * player's shots raised by 10 and cleared by the shields and the top
     * line, the first of them on an alien (`hit`) removed and that alien
     * destroyed, or the grids untouched; then the aliens' shots lowered by 5
     * and cleared by the shields the first pass left and the bottom line, the
     * first in the ship's box removed at the cost of a life and a recentred
     * ship.
     */
    twostate predicate ShotsPassed(hit: bool)
      requires old(aliens.Valid()) && old(aliens.aliensLeft) > 0
      reads this, aliens, ship, blocks
    {
        var scan := L.BlockScan(S.ShotsRaised(old(ship.shotsFired), 10.0), old(blocks.clusters), 0,
                                blocks.blockBottomY, blocks.blockTopY);
        var kept := L.PassedScan(scan.0, 0, topBoundaryY, true);
        var first := old(L.FirstShotOnAliens(kept, aliens, ship));
        var drop := L.BlockScan(A.ShotsDropped(old(aliens.shotsFired), 5.0), scan.1, 0,
                                blocks.blockBottomY, blocks.blockTopY);
        var dropKept := L.PassedScan(drop.0, 0, ship.boundaryLineY, false);
        var f := L.FirstInBox(dropKept, 0, ship.mainShipBottom, ship.mainShipTop, old(ship.x), ship.mainShipOffCentre);
        hit == first.Some? && ship.shotsFired == (if hit then RemoveAt(kept, first.value) else kept) &&
        blocks.clusters == drop.1 &&
        aliens.shotsFired == (if f.Some? then RemoveAt(dropKept, f.value) else dropKept) &&
        ship.x == (if f.Some? then 0.0 else old(ship.x)) &&
        ship.lives == old(ship.lives) - (if f.Some? then 1 else 0) &&
        (hit ==>
          L.Destroyed(old(aliens.shipList), old(aliens.shipListMoving), aliens.shipList, aliens.shipListMoving,
                      old(L.SlotShotAt(aliens, kept[first.value], L.ShotTip(ship.shotWidth))))) &&
        (!hit ==> aliens.shipList == old(aliens.shipList) && aliens.shipListMoving == old(aliens.shipListMoving))
    }

    /**
     * The second half of a pass: the player's shots, the aliens' shots, the
     * last alien's speed-up and, once the formation is gone, the next level.
     * Without a game over or a level up only the score (one per alien hit)
     * and, for the last alien, the move interval change; a level is cleared
     * only by the hit on the last alien.
     */
    method ShotsTurn(livesSeed: nat, levelSeed: nat) returns (hit: bool, gameOver: bool, levelUp: bool)
      requires Valid() && aliens.aliensLeft > 0 && g.level <= BlockRows
      modifies this`g, aliens, ship, blocks
      ensures Valid() && aliens.aliensLeft > 0
      ensures hit ==> |old(ship.shotsFired)| > 0
      ensures !gameOver && !levelUp ==> g == old(g).(
        score := old(g.score) + (if hit then 1 else 0),
        alienShipMoveSpeed := if aliens.lastShip then 0 else old(g.alienShipMoveSpeed))
      ensures !gameOver && !levelUp ==> aliens.aliensLeft == old(aliens.aliensLeft) - (if hit then 1 else 0)
      ensures !gameOver && !levelUp ==> ShotsPassed(hit)
      ensures levelUp ==> hit && old(aliens.aliensLeft) == 1 && FreshWave() && g.level >= 2
      ensures levelUp ==> g == LevelUp(old(g).(score := old(g.score) + 1), g.alienShootInterval)
      ensures gameOver ==> !levelUp && g.level == 1 && g.score == 0
    {
      hit, gameOver := ShotPasses(livesSeed);
      assert aliens.noMoreShips ==> !gameOver && hit && g == old(g).(score := old(g.score) + 1);
      levelUp := LevelStep(levelSeed);
    }

    /**
     * The end of a pass: the last alien's speed-up, then `next_level` once
     * the formation is gone (`levelUp`). Without a level up only the move
     * interval can change.
     */
    method LevelStep(seed: nat) returns (levelUp: bool)
      requires Valid() && g.level <= BlockRows + 1
      modifies this`g, aliens, ship, blocks
      ensures Valid()
      ensures levelUp == old(aliens.noMoreShips)
      ensures !levelUp ==>
        g == (if aliens.lastShip then old(g).(alienShipMoveSpeed := 0) else old(g)) && unchanged(aliens, ship, blocks)
      ensures levelUp ==> (g == LevelUp(old(g), g.alienShootInterval) && FreshWave() &&
        blocks.brickRows == old(blocks.brickRows) - 1 && ship.lives == old(ship.lives))
    {
      LastShipStep();
      levelUp := false;
      if aliens.noMoreShips {
        NextLevel(seed);
        levelUp := true;
      }
    }

    /**
     * The shots' part of a pass: the player's shots, the aliens' shots and
     * the last alien's speed-up. Without a game over only the score (one per
     * alien hit) and, for the last alien, the move interval change; a game
     * over leaves a new game with a full formation.
     */
    method ShotPasses(livesSeed: nat) returns (hit: bool, gameOver: bool)
      requires Valid() && aliens.aliensLeft > 0 && g.level <= BlockRows
      modifies this`g, aliens, ship, blocks
      ensures Valid()
      ensures hit ==> |old(ship.shotsFired)| > 0
      ensures !gameOver ==> g == old(g).(score := old(g.score) + (if hit then 1 else 0))
      ensures !gameOver ==> aliens.aliensLeft == old(aliens.aliensLeft) - (if hit then 1 else 0)
      ensures gameOver ==> g.level == 1 && g.score == 0 && aliens.aliensLeft == A.Rows * A.Columns
      ensures !gameOver ==> ShotsPassed(hit)
      ensures gameOver ==>
        g == GameReset(old(g).(score := old(g.score) + (if hit then 1 else 0)), g.alienShootInterval) && FreshWave()
    {
      ghost var raised := S.ShotsRaised(ship.shotsFired, 10.0);
      ghost var scan := L.BlockScan(raised, blocks.clusters, 0, blocks.blockBottomY, blocks.blockTopY);
      ghost var kept := L.PassedScan(scan.0, 0, topBoundaryY, true);
      ghost var first := L.FirstShotOnAliens(kept, aliens, ship);
      if |ship.shotsFired| == 0 {
        assert scan == (raised, blocks.clusters) && kept == [] && first.None?;
      }
      hit := ShipShotsIfAny();
      ghost var between, dropped, x, lives := blocks.clusters, aliens.shotsFired, ship.x, ship.lives;
      assert dropped == old(aliens.shotsFired) && x == old(ship.x) && lives == old(ship.lives);
      assert between == scan.1;
      assert hit == first.Some? && ship.shotsFired == (if hit then RemoveAt(kept, first.value) else kept);
      ghost var lowered := A.ShotsDropped(dropped, 5.0);
      ghost var drop := L.BlockScan(lowered, between, 0, blocks.blockBottomY, blocks.blockTopY);
      ghost var dropKept := L.PassedScan(drop.0, 0, ship.boundaryLineY, false);
      ghost var f := L.FirstInBox(dropKept, 0, ship.mainShipBottom, ship.mainShipTop, x, ship.mainShipOffCentre);
      if |dropped| == 0 {
        assert drop == (lowered, between) && dropKept == [] && f.None?;
      }
      gameOver := AlienShotsIfAny(livesSeed);
    }

    method ShipShotsIfAny() returns (hit: bool)
      requires Valid() && aliens.aliensLeft > 0 && blocks.brickRows >= 1
      modifies this`g, ship`shotsFired, blocks`clusters
      modifies aliens`shipList, aliens`shipListMoving, aliens`aliensLeft, aliens`lastShip, aliens`noMoreShips
      ensures Valid()
      ensures hit ==> |old(ship.shotsFired)| > 0
      ensures g == old(g).(score := old(g.score) + if hit then 1 else 0)
      ensures aliens.aliensLeft == old(aliens.aliensLeft) - (if hit then 1 else 0)
      ensures |old(ship.shotsFired)| == 0 ==> unchanged(aliens, ship, blocks)
      ensures |old(ship.shotsFired)| > 0 ==>
        var scan := L.BlockScan(S.ShotsRaised(old(ship.shotsFired), 10.0), old(blocks.clusters), 0,
                                blocks.blockBottomY, blocks.blockTopY);
        var kept := L.PassedScan(scan.0, 0, topBoundaryY, true);
        var first := old(L.FirstShotOnAliens(kept, aliens, ship));
        blocks.clusters == scan.1 && hit == first.Some? &&
        ship.shotsFired == (if hit then RemoveAt(kept, first.value) else kept) &&
        (hit ==>
          L.Destroyed(old(aliens.shipList), old(aliens.shipListMoving), aliens.shipList, aliens.shipListMoving,
                      old(L.SlotShotAt(aliens, kept[first.value], L.ShotTip(ship.shotWidth)))))
      ensures !hit ==> aliens.shipList == old(aliens.shipList) && aliens.shipListMoving == old(aliens.shipListMoving)
      ensures B.OnlyHides(old(blocks.clusters), blocks.clusters)
    {
      hit := false;
      if |ship.shotsFired| > 0 {
        hit := ShipShotsStep();
      }
    }

    /**
     * `if aliens.shots_fired:`: the aliens' shots are handled only when there
     * are some; `gameOver` says the last life was lost and the game reset.
     */
    method AlienShotsIfAny(seed: nat) returns (gameOver: bool)
      requires Valid() && blocks.brickRows >= 1
      modifies this`g, aliens, ship, blocks
      ensures Valid()
      ensures !gameOver ==> (g == old(g) && aliens.aliensLeft == old(aliens.aliensLeft) &&
        aliens.lastShip == old(aliens.lastShip))
      ensures gameOver ==> g.level == 1 && g.score == 0 && aliens.aliensLeft == A.Rows * A.Columns
      ensures |old(aliens.shotsFired)| == 0 ==> !gameOver && unchanged(aliens, ship, blocks)
      ensures |old(aliens.shotsFired)| > 0 && !gameOver ==> (aliens.noMoreShips == old(aliens.noMoreShips) &&
        aliens.shipList == old(aliens.shipList) && aliens.shipListMoving == old(aliens.shipListMoving) &&
        ship.shotsFired == old(ship.shotsFired) && blocks.blockBottomY == old(blocks.blockBottomY) &&
        var scan := L.BlockScan(A.ShotsDropped(old(aliens.shotsFired), 5.0), old(blocks.clusters), 0,
                                blocks.blockBottomY, blocks.blockTopY);
        var kept := L.PassedScan(scan.0, 0, ship.boundaryLineY, false);
        var f := L.FirstInBox(kept, 0, ship.mainShipBottom, ship.mainShipTop, old(ship.x), ship.mainShipOffCentre);
        blocks.clusters == scan.1 &&
        aliens.shotsFired == (if f.Some? then RemoveAt(kept, f.value) else kept) &&
        ship.x == (if f.Some? then 0.0 else old(ship.x)) &&
        ship.lives == old(ship.lives) - (if f.Some? then 1 else 0))
      ensures gameOver ==> (old(ship.lives) == 0 && g == GameReset(old(g), g.alienShootInterval) &&
        ship.lives == S.StartLives && FreshWave())
    {
      gameOver := false;
      if |aliens.shotsFired| > 0 {
        var moreLives := AlienShotsStep(seed);
        gameOver := !moreLives;
      }
    }

    /**
     * One pass of `while play:`: the aliens' turn, then the shots' turn.
     * The answers say whether the formation moved and hit a wall, whether an
     * alien was shot, and whether the game ended or a level was cleared.
     * Without either, the globals are the old ones with both counters a
     * `Tock` on, the score up by the hit, and the move interval 0 for the
     * last alien, otherwise a tick shorter exactly at a wall while above 1.
     */
    method Tick(shooter: nat, finishSeed: nat, livesSeed: nat, levelSeed: nat)
      returns (moved: bool, hitWall: bool, hit: bool, gameOver: bool, levelUp: bool)
      requires Valid() && aliens.aliensLeft > 0 && g.level <= BlockRows
      modifies this`g, aliens, ship, blocks
      ensures Valid() && aliens.aliensLeft > 0
      ensures moved == (old(g.i) + 1 > old(g.alienShipMoveSpeed)) && (!moved ==> !hitWall)
      ensures !gameOver && !levelUp ==> g == old(g).(
        i := Tock(old(g.i), old(g.alienShipMoveSpeed)), j := Tock(old(g.j), old(g.alienShootInterval)),
        score := old(g.score) + (if hit then 1 else 0),
        alienShipMoveSpeed :=
          if aliens.lastShip then 0
          else if moved then Quicken(old(g.alienShipMoveSpeed), hitWall)
          else old(g.alienShipMoveSpeed))
      ensures !gameOver && !levelUp ==> aliens.aliensLeft == old(aliens.aliensLeft) - (if hit then 1 else 0)
      ensures levelUp ==> hit && old(aliens.aliensLeft) == 1
      ensures levelUp ==> FreshWave() && g.level >= 2
      ensures levelUp ==> g == LevelUp(old(g).(score := old(g.score) + 1), g.alienShootInterval)
      ensures levelUp ==> (g.level == old(g.level) + 1 && g.score == old(g.score) + 1 &&
        g.initialShootInterval == old(g.initialShootInterval) - 2)
      ensures gameOver ==> !levelUp && g.level == 1
    {
      var ended, shotDown;
      moved, hitWall, ended := AlienTurn(shooter, finishSeed);
      ghost var turned := g;
      assert ended ==> aliens.aliensLeft == A.Rows * A.Columns;
      assert !ended ==> (turned.score == old(g.score) && turned.level == old(g.level) &&
        turned.initialShootInterval == old(g.initialShootInterval) && turned.speedCuts == old(g.speedCuts));
      hit, shotDown, levelUp := ShotsTurn(livesSeed, levelSeed);
      gameOver := ended || shotDown;
    }
  }
}
