# Space Invaders: a verified model of the game state

This project models the game-state core of a turtle-graphics Space Invaders
game and proves properties of it. The model covers:

- the alien formation (`AlienShips`): two parallel 5 x 11 grids, one per image
  set. It tracks which aliens are visible, the step sideways or down at a wall,
  the hit test that picks the lowest alien under a shot, the destroyed slots,
  the rows that collapse once empty, and the alien shots;
- the shields (`Blocks`): a template grid with an arch cut out of it, stamped
  at four origins. A player's shot removes the first live cell it covers; an
  alien that reaches a shield carves a window of cells out of it;
- the player's ship (`MainShip`): sideways moves clamped to the screen, its
  shots, and its lives;
- the glue functions of `game_loop_logic.py`: shots against shields, the
  boundary lines, the ship and the aliens; aliens against shields; and the
  finish line;
- the module globals and the `while play:` loop of `main.py`: the two tick
  counters, the alien speed and shooting interval, the level, the player's
  shot cooldown, the score and best score, and the level-up and game-over
  resets.

Modules follow the source files:

| module | file | source |
|---|---|---|
| `Common` | `common.dfy` | shared values, `random.randint` |
| `Blocks` | `blocks.dfy` | `blocks_2.py` |
| `Aliens` | `aliens.dfy` | `alien_ships_2.py` |
| `Ship` | `ship.dfy` | `main_ship.py` |
| `LoopLogic` | `loop_logic.dfy` | `game_loop_logic.py` |
| `Game` | `game.dfy` | `main.py` |

The main modelling choices:

- The objects whose fields the source updates are classes: `Blocks.BlockField`,
  `Aliens.AlienShips`, `Ship.MainShip` and `Game.Round`. Their methods carry
  `modifies` clauses and state the new state.
- Each class has an invariant `Valid()` that every method keeps. For the
  aliens, the two grids have the same live slots at the same points, the
  aliens are ordered by column and by row, and no row is empty. For the
  round, the globals agree with the shields and with each other.
- `main.py`'s globals are one value of type `Game.Globals`, held by the
  `Round` object.
- Loops in the source are `while` and `for` loops with invariants here. Each method is
  proved against a function that states its result (`ShotTarget`, `HitFrom`,
  `Frontier`, `FirstSpan`, `BlockScan`, `PassedScan`, `FirstInBox`,
  `FirstShotOnAliens`, `Scraped`, `AlienCarve`, `Template`, `Layout`,
  `Translate`). The steps of the loop in `Game` are stated in terms of the
  same functions.
  The properties the source relies on are then proved about those functions
  as lemmas.
- Randomness (`random.randint`, `random.choice`) is a seed argument, and the
  clock is an integer millisecond argument (see "Left out").

### A shot can take two cells at the same point

A second shot at the same point of a shield can hit again. A row is level
with a shot within 7 px either side of it, and rows are 10 px apart. So a
shot between two rows covers both, and once the upper cell is gone the same
shot takes the cell below. `Blocks.RepeatShotCanHit` exhibits such a cluster
and point.

## Model

| member | source | states |
|---|---|---|
| Common.RandInt | main.py:240 | `randint(a, b)` for `a <= b` yields a value in `[a, b]` |
| Common.RandIntReaches | main.py:240 | every value in `[a, b]` is drawn by some seed |
| Common.RemoveAtIsSubsequence | game_loop_logic.py:86-93 | removing one element (a `list.pop`) leaves a subsequence, in order |
| Common.SubsequenceTrans | game_loop_logic.py:11-32 | a shot list filtered twice is still a subsequence of the original |
| Blocks.BandRightIsCeiling | blocks_2.py:60-61 | the arch's right bound is exactly `ceil(3 * columns / 4)` |
| Blocks.StampedTemplate | blocks_2.py:59-83 | a stamped template is well formed at its origin, and a cell has a square exactly when it lies outside the arch |
| Blocks.HideIfLive | blocks_2.py:176-177 | a cell already hit is left alone; otherwise it is hidden |
| Blocks.FirstLiveInRowIsFirst | blocks_2.py:196-204 | the cell found in a row is covered and live, and no earlier cell is |
| Blocks.ShotTargetIsFirst | blocks_2.py:192-204 | a shot's target is the row-major first live cell level with and under the shot; None exactly when there is no such cell |
| Blocks.ShotResultEffect | blocks_2.py:192-209 | a shot only hides cells; it removes exactly one live cell when it has a target and leaves the shield unchanged otherwise |
| Blocks.RepeatShotCanHit | blocks_2.py:192-204 | some shield and point are hit by two shots in a row |
| Blocks.HideAtLive | blocks_2.py:136-143 | hiding a live cell lowers the shield's live count by exactly one |
| Blocks.HideAtOnlyHides | blocks_2.py:136-143 | hiding a live cell changes nothing else |
| Blocks.OnlyHidesTrans | blocks_2.py:176-177 | "only hides cells" composes over successive hits |
| Blocks.FieldLiveMonotone | blocks_2.py:176-177 | live cells never increase while cells are only hidden |
| Blocks.WellFormedAfterHides | blocks_2.py:136-143 | hiding cells keeps every cell at its stamped place and keeps "hit iff no square" |
| Blocks.AlienCarveEffect | blocks_2.py:159-188 | an alien's carve only hides cells; a cell ends hit exactly when it was hit or lies in a window the alien carves; every other cell is unchanged |
| Blocks.AlienMissLeavesCluster | blocks_2.py:192-209 | an alien over no cell leaves the shield unchanged |
| Blocks.SeparatedSpansDisjoint | game_loop_logic.py:21-25 | when shields are separated, a point lies over at most one shield |
| Blocks.BlockField.BlockOrigins | blocks_2.py:93-99 | `get_block_positions(n)` yields `n - 1` origins |
| Blocks.BlockField.ValidSeparated | blocks_2.py:93-99 | the four stamped shields of a valid field, at most `W / 50` columns wide, do not overlap horizontally |
| Blocks.BlockField.constructor | blocks_2.py:14-46 | the field's geometry as the source sets it, the template for level 1, and each shield stamped at its origin |
| Blocks.BlockField.CreateInitialBlockCoordinates | blocks_2.py:48-83 | the loops build exactly the template, including the arch cut from the stored brick counts |
| Blocks.BlockField.GetBlockPositions | blocks_2.py:86-99 | the origins are appended to the stored list |
| Blocks.BlockField.BuildClusters | blocks_2.py:40-43 | one shield per origin, each the template stamped there |
| Blocks.BlockField.HideHitSquare | blocks_2.py:136-143 | exactly the given cell of the given shield is hidden |
| Blocks.BlockField.HitAboveSquare | blocks_2.py:168-179 | the cell's column (with Python's negative indexing) in its row and the three rows above is hidden; nothing else changes |
| Blocks.BlockField.HitAdjacentSquares | blocks_2.py:159-188 | exactly the window beside and above the cell, on the side the formation moves to, is hidden |
| Blocks.BlockField.ShotInRange | blocks_2.py:145-209 | a player's shot hides its target and reports it; an alien carves and never reports a hit |
| Blocks.BlockField.PlayerShot | blocks_2.py:190-209 | the nested scan hides exactly the `ShotTarget` cell; `hit` says whether there was one |
| Blocks.BlockField.AlienCarveShot | blocks_2.py:190-209 | the nested scan leaves exactly the `AlienCarve` shield |
| Blocks.BlockField.ResetBricks | blocks_2.py:211-244 | the row count is `rows` when given and non-zero, else one fewer for a level past the first; a new template; four fresh shields |
| Aliens.SlotHitIsFirst | alien_ships_2.py:122-129 | the alien hit in a row is the first one under the shot's x |
| Aliens.HitFromIsLowest | alien_ships_2.py:105-129 | the slot a shot hits is shootable, and no lower row has a shootable alien; None exactly when none is shootable |
| Aliens.TwinsHitFrom | alien_ships_2.py:104-111 | the hit test gives the same slot on either image grid |
| Aliens.RemoveSlotCount | alien_ships_2.py:137-148 | destroying an alien lowers the live count by one |
| Aliens.RemoveSlotTwins | alien_ships_2.py:132-148 | destroying the same slot in both grids keeps them twins |
| Aliens.RemoveSlotOrdered | alien_ships_2.py:137-148 | destroying an alien keeps the column and row order |
| Aliens.RemoveSlotRowsHaveLive | alien_ships_2.py:145-148 | a row left empty is deleted, so every row keeps a live alien |
| Aliens.RemoveSlotKeepsFormation | alien_ships_2.py:132-153 | destroying an alien keeps the formation invariant, with one alien fewer |
| Aliens.LowestInIsLowest | alien_ships_2.py:80-88 | the alien found in a column is live, and none below it is |
| Aliens.ColumnLowestIs | alien_ships_2.py:80-88 | a column yields nothing exactly when it has no live alien, and otherwise yields its lowest |
| Aliens.FrontierMembers | alien_ships_2.py:77-90 | every alien in the front line is the lowest of its column |
| Aliens.FrontierComplete | alien_ships_2.py:77-90 | the lowest alien of every column is in the front line |
| Aliens.FrontierSorted | alien_ships_2.py:77-90 | the front line is ordered left to right |
| Aliens.TranslateKeepsFormation | alien_ships_2.py:241-267 | moving both grids by the same offset keeps the formation invariant and the live count |
| Aliens.LayoutOrder | alien_ships_2.py:381-423 | the starting layout has x increasing with the column and y decreasing with the row |
| Aliens.LayoutIsFormation | alien_ships_2.py:381-423 | the two starting grids form a formation of 55 live aliens |
| Aliens.FurthestLeftIndex | alien_ships_2.py:279-297 | the scan finds the live alien of the leftmost column in the topmost row, or reports column 20 for an empty grid |
| Aliens.FurthestRightIndex | alien_ships_2.py:299-318 | the scan finds the live alien of the rightmost column in the topmost row |
| Aliens.FurthestDecidesWall | alien_ships_2.py:320-339 | testing the extreme alien alone decides whether every alien is clear of the wall |
| Aliens.SideStepStaysInside | alien_ships_2.py:320-339 | a side step of at most the wall margin from clear of the wall stays on screen |
| Aliens.ShiftGrid | alien_ships_2.py:247-259 | the loop moves every alien by the offset |
| Aliens.FindHit | alien_ships_2.py:114-129 | the loops find exactly the `HitFrom` slot |
| Aliens.ShiftFormation | alien_ships_2.py:243-259 | both grids move by the offset and stay a formation with the same live count |
| Aliens.ChosenAlien | alien_ships_2.py:213-220 | the alien `random.choice` picks is a live alien |
| Aliens.EveryAlienCanShoot | alien_ships_2.py:213-220 | every live alien is picked by some choice |
| Aliens.AlienShips.VisibleTwin | alien_ships_2.py:104-110 | the shown grid is the twin of the stored grid, with the same live slots |
| Aliens.AlienShips.constructor | alien_ships_2.py:21-50 | both grids are the starting layout, with 55 aliens, no shots, moving right |
| Aliens.AlienShips.PlaceAliens | alien_ships_2.py:173-184 | both grids laid out and the flags reset |
| Aliens.AlienShips.ResetAlienShips | alien_ships_2.py:159-184 | the formation is back at its start with 55 aliens and the flags reset |
| Aliens.AlienShips.CreateAllAliens | alien_ships_2.py:381-423 | the nested loop yields exactly the starting layout |
| Aliens.AlienShips.GetHighestYAxis | alien_ships_2.py:52-59 | the value is the y of a live alien, and no live alien is higher |
| Aliens.AlienShips.GetLowestYAxis | alien_ships_2.py:61-68 | the value is the y of a live alien, and no live alien is lower |
| Aliens.AlienShips.GetLowestVisibleAliens | alien_ships_2.py:70-90 | the loops yield exactly the front line of the shown grid |
| Aliens.AlienShips.DestroyAlien | alien_ships_2.py:131-153 | the slot is cleared in both grids (its row deleted when empty), one alien fewer |
| Aliens.AlienShips.CheckShotInRange | alien_ships_2.py:92-156 | a hit exactly when some alien is shootable; then the lowest such is destroyed; otherwise nothing changes |
| Aliens.AlienShips.CheckHitWall | alien_ships_2.py:273-339 | the answer is "every live alien can step without passing the wall" |
| Aliens.AlienShips.Move | alien_ships_2.py:233-269 | clear of the wall the formation steps sideways; at the wall it drops and turns round; `hitWall` says which |
| Aliens.AlienShips.SwitchShips | alien_ships_2.py:341-367 | the shown image set flips |
| Aliens.AlienShips.RandomShot | alien_ships_2.py:196-223 | one shot is added just under the chosen live alien |
| Aliens.AlienShips.MoveShots | alien_ships_2.py:225-231 | every shot drops by the move amount |
| Aliens.AlienShips.RemoveAllShots | alien_ships_2.py:186-194 | no shot is left |
| Ship.LeftStep | main_ship.py:126-132 | the ship moves left by `10 * scale` exactly when it stays inside the screen; on screen it stays on screen |
| Ship.RightStep | main_ship.py:134-140 | the ship moves right by `10 * scale` exactly when it stays inside the screen; on screen it stays on screen |
| Ship.MainShip.LifeIcons | main_ship.py:83-95 | one life icon per remaining life |
| Ship.MainShip.constructor | main_ship.py:10-32 | the ship at the centre with no shots and two lives |
| Ship.MainShip.CreateShipLives | main_ship.py:83-95 | the loop draws exactly the life icons |
| Ship.MainShip.ResetMainShip | main_ship.py:34-47 | the ship is recentred; lives return to two only after a game over |
| Ship.MainShip.RemoveAllShots | main_ship.py:49-57 | no shot is left |
| Ship.MainShip.AddShot | main_ship.py:112-124 | one shot is added at the ship's nose |
| Ship.MainShip.MoveLeft | main_ship.py:126-132 | the ship's x after the clamped left step |
| Ship.MainShip.MoveRight | main_ship.py:134-140 | the ship's x after the clamped right step |
| Ship.MainShip.ShotMoveUp | main_ship.py:142-147 | every shot rises by the move amount |
| Ship.MainShip.ShotInRange | main_ship.py:149-163 | with a life left the ship loses it and is recentred; on the last life nothing changes and the answer is false |
| LoopLogic.FirstSpan | game_loop_logic.py:21-25 | the shield found holds the shot's x in its span and no earlier one does; None exactly when no shield does |
| LoopLogic.FindSpan | game_loop_logic.py:21-25 | the loop finds exactly the `FirstSpan` shield |
| LoopLogic.ShotHitsShields | game_loop_logic.py:19-29 | a shot hits exactly when the shield over it has a target for it (`ShotTakesSquare`); the shields become `ShotOnShields`; a hit removes exactly one live cell, a miss changes nothing |
| LoopLogic.BlockScanKeepsMisses | game_loop_logic.py:11-32 | when no shot in the band takes a square, the scan keeps every shot and every shield |
| LoopLogic.OfferShot | game_loop_logic.py:17-32 | one step of the loop: the scan from the next index after it equals the scan from this index before it; only a shot in the band is removed; one live cell goes per shot removed |
| LoopLogic.CheckShotHitBlock | game_loop_logic.py:11-32 | the shots left and the shields are exactly those `BlockScan` gives; the shots left are a subsequence; one live cell disappears per shot removed; shots outside the shield band are all kept |
| LoopLogic.ScrapeShieldsOnlyHides | game_loop_logic.py:64-77 | an alien's scrape over every shield only hides cells |
| LoopLogic.ScrapeFrontOnlyHides | game_loop_logic.py:59-77 | the scrape of the whole front line only hides cells |
| LoopLogic.ScrapeFrontOutOfBand | game_loop_logic.py:61-62 | a front line outside the shield band changes nothing |
| LoopLogic.ScrapeAll | game_loop_logic.py:64-77 | the loop over the shields leaves exactly `ScrapeShields` |
| LoopLogic.ScrapeWithFront | game_loop_logic.py:58-77 | the loop over the front line leaves exactly `ScrapeFront` |
| LoopLogic.CheckAlienHitBlock | game_loop_logic.py:35-77 | the shields are exactly `Scraped`: scraped by the front line of the shown grid when the lowest alien is in the shield band, unchanged otherwise |
| LoopLogic.OnScreenShotsMembers | game_loop_logic.py:80-93 | a shot is kept by the filter exactly when it is in the list and has not passed the line |
| LoopLogic.CheckPassedLine | game_loop_logic.py:80-93 | the loop leaves exactly the `PassedScan` list |
| LoopLogic.PassedScanRemovesPassed | game_loop_logic.py:86-93 | the scan leaves a subsequence and keeps every shot that has not passed |
| LoopLogic.PassedScanFilters | game_loop_logic.py:86-93 | with no two passed shots adjacent, the scan removes exactly the passed shots |
| LoopLogic.PassedScanSkipsNeighbour | game_loop_logic.py:86-93 | of two adjacent passed shots, the second is skipped and kept |
| LoopLogic.FirstInBox | game_loop_logic.py:102-108 | the first shot in the ship's box, or none |
| LoopLogic.CheckShotHitSpaceShip | game_loop_logic.py:96-120 | no shot in the box: nothing changes; the first in the box costs a life and is removed; on the last life nothing is removed and the answer is false |
| LoopLogic.FirstAlienHit | game_loop_logic.py:136-138 | the first shot that hits an alien, or none |
| LoopLogic.ShootAlien | game_loop_logic.py:141-149 | the alien under the shot is destroyed, one alien fewer |
| LoopLogic.FindAlienHit | game_loop_logic.py:136-143 | the loop finds exactly the `FirstAlienHit` shot |
| LoopLogic.CheckShotHitAlien | game_loop_logic.py:123-150 | a hit exactly when some shot hits an alien; then that shot and its alien are removed; otherwise nothing changes |
| LoopLogic.CheckAlienPassedFinish | game_loop_logic.py:153-160 | true exactly when a live alien has reached the top of the ship |
| Game.PaceFalls | main.py:205 | each level is paced strictly faster than the one before, and the pace stays positive |
| Game.Press | main.py:123-143 | a press fires exactly when no shot is recorded or the recorded one is at least the interval old; the timer is then the press time |
| Game.FiresSpaced | main.py:123-143 | whatever the presses, fired shots are at least the interval apart, and each is at a press |
| Game.RunCounts | main.py:251-253 | below the limit the counter counts up by one a tick |
| Game.CounterPeriod | main.py:251-281 | from 0 the counter reaches every value up to the limit and passes it on tick `limit + 1` |
| Game.Quicken | main.py:277-279 | the move interval never grows and loses at most one tick; from 1 up it stays at least 1; it shrinks exactly at a wall while above 1 |
| Game.LevelUpConsistent | main.py:177-206 | a level up keeps the globals consistent with shields one row shorter |
| Game.GameResetConsistent | main.py:146-174 | a reset makes the globals consistent with nine rows; the best score is at least the old score and the old best |
| Game.NewFormation | main.py:185-193 | both grids at the starting layout (`FormationAtStart`), 55 aliens, the first images shown, moving right, no shots |
| Game.RecentreShip | main.py:195-196 | the ship centred with no shots; two lives only after a game over |
| Game.ResetParts | main.py:184-196 | the formation at its start, the shields re-stamped from the level's template (`ShieldsStamped`) with the row count `reset_bricks` picks, the ship recentred |
| Game.DrawInterval | main.py:202-203 | the shooting interval is drawn in `[base, 2 * base]` |
| Game.March | main.py:265-267 | the grids are translated by 10 towards the current side, or at a wall dropped and turned (`Marched`); `hitWall` is the wall test; `passedFinish` says a live alien reached the ship |
| Game.ScrapeAndSwitch | main.py:272-274 | the shields become exactly `Scraped` for the grid shown before the switch (the grid the switch hides), losing cells only; the images switch |
| Game.ScrapeRestart | main.py:268-274 | after the reset's formation and level-1 shields, the scrape and the switch leave the parts as `RestartedAfterMove`: the start layout with the other images shown, the freshly stamped shields `Scraped` by the new front line, the ship centred with two lives, no shots |
| Game.Advance | main.py:264-274 | the move as `March` states it; without a finish the shields become exactly `Scraped` for the grid shown at the scrape and the images switch; at a finish the shields and the images are left as they were |
| Game.ClearShots | main.py:286-287 | the shots kept are `PassedScan` of `BlockScan`'s shots; the shields are `BlockScan`'s; the shots kept are a subsequence |
| Game.PlayerShotsPass | main.py:284-290 | with the raised shots: the shields are `BlockScan`'s; `hit` is whether `FirstShotOnAliens` finds a shot among the kept ones; that shot is removed and its alien destroyed; otherwise the kept shots are left and the aliens unchanged |
| Game.AlienShotsPass | main.py:296-302 | with the lowered shots: the shields are `BlockScan`'s; no kept shot in the ship's box (`FirstInBox`) leaves the kept shots and the ship; the first in the box costs a life and recentres the ship, or on the last life removes nothing and answers false |
| Game.Round.constructor | main.py:80-105 | a valid round at level 1 with a fresh wave (formation at its start, shields stamped for level 1), score 0, two lives and an interval in `[20, 40]` |
| Game.Round.AddShot | main.py:123-143 | the cooldown decides as `Press` does; a shot is added exactly when it fires |
| Game.Round.NextLevel | main.py:177-206 | a fresh wave one level up (formation at its start, shields one row shorter stamped for the new level), lives kept, globals as `LevelUp` |
| Game.Round.NewGameReset | main.py:146-174 | a fresh wave at level 1 (formation at its start, nine rows stamped for level 1) and two lives, globals as `GameReset` |
| Game.Round.FinishReset | main.py:268-274 | the globals as `GameReset` leaves them; the parts as `RestartedAfterMove` (start formation with its images switched once, level-1 shields after the new front line's scrape, ship centred with two lives, no shots) |
| Game.Round.AlienShootStep | main.py:257-261 | past the interval the chosen alien fires and `j` restarts; otherwise nothing changes |
| Game.Round.CountAndShoot | main.py:251-261 | `i` one up and `j` one `Tock` on; the chosen alien's shot is appended exactly when `j` passes the shooting interval, otherwise the aliens' shots are unchanged |
| Game.Round.AlienMoveStep | main.py:263-281 | past the interval: `hitWall` is the wall test; without a game over the grids are `Marched`, the shields exactly `Scraped`, the images switch, the move interval is `Quicken`ed and `i` restarts, with shots and lives kept; a game over leaves the globals `GameReset`'s with the fresh interval `Quicken`ed and the parts `RestartedAfterMove`; before the interval nothing changes at all and `hitWall` is false |
| Game.Round.MoveFormation | main.py:265-281 | the moved branch: `hitWall` is the wall test; the grids `Marched`, the shields exactly `Scraped`, the images switched, interval `Quicken`ed and `i` 0 without a finish; after a finish, globals `GameReset` then `Quicken`ed and parts `RestartedAfterMove` |
| Game.Round.EndMove | main.py:277-281 | `i` back to 0 and the move interval `Quicken`ed by the wall test; nothing else changes |
| Game.Round.ShipShotsStep | main.py:284-293 | with the raised shots: the shields are `BlockScan`'s; `hit` is whether `FirstShotOnAliens` finds a kept shot; that shot is removed and its alien `Destroyed` in both grids, otherwise both grids are unchanged; the score and the alien count move by one exactly on a hit |
| Game.Round.AlienShotsStep | main.py:296-304 | with lives left, the shots, shields, ship position and lives as `AlienShotsPass` gives them, with the grids, the ship's shots and the globals unchanged; on the last life a reset to a fresh wave with the globals `GameReset`'s |
| Game.Round.ShipShotsIfAny | main.py:284-293 | with no shot nothing changes; otherwise as `ShipShotsStep`: shields, kept shots, the `Destroyed` alien and the score by the hit |
| Game.Round.AlienShotsIfAny | main.py:296-304 | with no shot nothing changes and the game goes on; otherwise without a game over the shots, shields, ship position and lives are as `AlienShotsPass` gives them and the globals, grids and ship's shots unchanged; a game over comes only on the last life and is a reset to a fresh wave with the globals `GameReset`'s |
| Game.Round.LastShipStep | main.py:306-309 | with one alien left the move interval becomes 0 |
| Game.Round.LevelStep | main.py:306-313 | `levelUp` exactly when the formation is gone; then a fresh wave with the globals `LevelUp`'s, one row fewer and the lives kept; otherwise only the move interval (0 for the last alien) changes |
| Game.Round.ShotPasses | main.py:283-304 | without a game over, `ShotsPassed`: the player's shots (`BlockScan`, `PassedScan`, `FirstShotOnAliens`), with that alien `Destroyed` in both grids on a hit and both grids unchanged otherwise, then the aliens' shots on the shields the first pass left (`BlockScan`, `PassedScan`, `FirstInBox`), with the ship recentred and a life lost exactly when a shot is in its box; the globals change only by the score; a game over is a fresh wave with the globals `GameReset` leaves from the score with the hit |
| Game.Round.AlienTurn | main.py:251-281 | without a move, the grids, the direction, the shown images, the ship and the shields are unchanged and the game goes on; unless the game ended, the globals are the old ones with both counters a `Tock` on and the move interval `Quicken`ed exactly when the formation moved, and the alien count is kept; a move leaves the grids `Marched`, the shields `Scraped`, the images switched and the ship's shots and lives kept; a game over leaves the globals `GameReset` then `Quicken`ed and the parts `RestartedAfterMove`; `moved` and `hitWall` as in `AlienMoveStep` |
| Game.Round.ShotsTurn | main.py:283-313 | without a game over or level up, of the globals only the score (by the hit) and the last alien's interval change, the alien count falls by the hit, and the shots, shields, grids and ship are as `ShotsPassed` states; a level up needs the hit on the last alien, is a fresh wave and leaves the globals `LevelUp` of the old ones with the score one up; a game over is never a level up |
| Game.Round.Tick | main.py:249-313 | without a game over or level up, the globals are the old ones with both counters a `Tock` on, the score up by the hit, and the move interval 0 for the last alien, else `Quicken`ed when moved; the alien count falls exactly by the hit, so the score rises exactly when an alien is shot; a level up needs the hit on the last alien, is a fresh wave with the globals `LevelUp` of the old ones plus the hit: level one up, score one up, shooting base two shorter; a game over is never a level up |

## Left out

- Drawing and the screen (turtle, PIL images, `screen.update`, the star background, the loading page, the info text): sprites are opaque handles, and visibility is not modelled. `shapes.py` is not part of this model. Of `Info_page.py` the model keeps only the top boundary line (Info_page.py:43) and the count of aliens hit (Info_page.py:124-128, set back to 0 at Info_page.py:191), which is `Globals.score`.
- `time.sleep(speed)`: `speed` is kept as the number of times it was multiplied by 0.8 (`Game.Pace`), so the `speed == original_speed` test is exact.
- The clock: `time.time()` becomes an integer millisecond argument `now`, and both reads in one `add_shot` call see the same value.
- Randomness: `random.randint` and `random.choice` become seed arguments. `Game.DrawInterval` promises only the range of its value.
- `highscores.py` file I/O: the stored best score is a constructor argument, and saving keeps the larger of the best and the score.
- The keyboard bindings of `main.py`, its `move_ship_left`/`move_ship_right` wrappers, and `end_game`, which only closes the window.
- The `switch` argument of `switch_ships` only controls which images are drawn, so it does not change the model.
- Game.Round.Tick: requires at most nine levels. From level ten the shields have no rows and the source indexes an empty shield.
- LoopLogic.CheckShotHitBlock: requires the shields to be narrower than a fifth of the screen. With overlapping shields one shot could be removed twice and the source would fail.
- Aliens.AlienShips.GetLowestYAxis: requires a live alien; the source fails on an empty formation.
- Game.Round.NextLevel: the parts are reset one object at a time, in a different order from the source. The objects are independent, so the order does not change the result.
- LoopLogic.CheckShotHitBlock: the shot list is passed by value and the caller assigns the result back, in place of Python's list mutated in place.
- Game.Round.Tick: after a game over it promises only that the level is back to 1, because the shots' turn still runs on the new game. The reset itself is stated where it happens: by `Game.Round.AlienTurn` (globals `GameReset` then `Quicken`ed, parts `RestartedAfterMove`) and by `Game.Round.ShotPasses` (globals `GameReset`, a fresh wave).
- Aliens.AlienShips.GetHighestYAxis: requires a live alien; the source fails on an empty formation (alien_ships_2.py:57-58 indexes an empty row). The loop never runs with one, because `next_level` refills the formation in the same pass the last alien falls (main.py:312-313).
- Aliens.AlienShips.CheckHitWall: requires a live alien; on an empty formation the source indexes slot (0, 20) and fails (alien_ships_2.py:336).
- Aliens.AlienShips.Move: requires a live alien, because it runs the wall test.
- Aliens.AlienShips.RandomShot: requires a live alien; `random.choice` of an empty list fails (alien_ships_2.py:219).
- LoopLogic.CheckShotHitAlien: requires a live alien, because it reads the highest and lowest rows.
- LoopLogic.CheckAlienHitBlock: requires a live alien, because it reads the lowest row.
- Game.March: requires a live alien, because `move` does.
- Game.Advance: requires a live alien, because `move` does.
- Game.ScrapeAndSwitch: requires a live alien, because `check_alien_hit_block` does.
- Game.PlayerShotsPass: requires a live alien, because `check_shot_hit_alien` does.
- Game.Round.AlienShootStep: requires a live alien, because `random_shot` does. The loop never reaches it with an empty formation (main.py:312-313).
- Game.Round.AlienMoveStep: requires a live alien, for the same reason; so do `MoveFormation`, `ShipShotsStep`, `ShipShotsIfAny`, `ShotPasses`, `AlienTurn`, `ShotsTurn` and `Tick`.
- Blocks.BlockField.constructor: requires at least one row and one column; with none the source fails reading the bottom row (blocks_2.py:46).
- Game.Round.AlienTurn: does not restate the alien shot of the turn; `Game.Round.CountAndShoot` states it.
- Game.Round.ShotsTurn: after a game over it promises only level 1, score 0 and no level up; the reset itself is stated by `Game.Round.ShotPasses` (globals `GameReset`, a fresh wave).
- LoopLogic.CheckAlienHitBlock: requires the shields to have at least one row. With none, the source indexes an empty shield (game_loop_logic.py:67) as soon as the lowest alien is within the shields' band; `reset_bricks` takes a row off per level, so level ten has none. The loop is kept below that level by `Game.Round.Tick`'s requires.
- Game.ScrapeAndSwitch: requires shields with at least one row, for the same reason; so do `Game.Advance`, `Game.Round.MoveFormation`, `Game.Round.AlienMoveStep`, `Game.Round.AlienTurn` and the shot steps below `Game.Round.ShotPasses`.
- Game.ScrapeRestart: requires the state the game reset leaves (start formation, nine freshly stamped level-1 rows, the ship centred with two lives, no shots), which is the only state it is used in.
- Game.Round.ShotPasses: covers the two shot passes (main.py:284-304); the last alien's speed-up that follows (main.py:306-309) runs in `Game.Round.LevelStep`.
- Game.Round.Tick: does not state the shots, shields, grids and ship after a tick in terms of the state before it; `Game.Round.AlienTurn` states them across the aliens' half and `Game.Round.ShotsTurn` (through `ShotsPassed`) across the shots' half.
