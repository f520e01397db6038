/**
 * The interactions game_loop_logic.py wires between the aliens, the shields
 * and the player's ship: shots against shields, aliens scraping shields,
 * shots leaving the screen, alien shots against the ship, the ship's shots
 * against the aliens, and the aliens reaching the ship's level.
 *
 * A shot list is passed by value and the list left is returned. The
 * source walks each list with a `for` loop and pops the current shot from
 * it; the loop's index still advances, so the shot just after a removed one
 * is not examined on that pass. The scans below keep that behaviour.
 */
module LoopLogic {
  import opened Common
  import B = Blocks
  import A = Aliens
  import S = Ship

  // ---------------------------------------------------------------------
  // Shots against shields (`check_shot_hit_block`).

  /** A shot's height lies in the shields' band, 6 pixels of slack at the top. */
  predicate InShieldBand(p: Point, bottom: real, top: real)
  {
    Within(bottom, p.y, top + 6.0)
  }

  /** Shield `cl` takes a square from a shot at p: p is over its span and a live square is in reach. */
  predicate ShieldHitBy(cl: B.Cluster, p: Point)
  {
    B.InSpan(cl, p.x) && B.ShotTarget(cl, p.x, p.y, 0).Some?
  }

  /** The first shield, from index b on and left to right, whose span contains x. */
  function FirstSpan(cls: seq<B.Cluster>, x: real, b: nat): (r: Option<nat>)
    decreases |cls| - b
    ensures r.Some? ==> (b <= r.value < |cls| && B.InSpan(cls[r.value], x) &&
      forall b' :: b <= b' < r.value ==> !B.InSpan(cls[b'], x))
    ensures r.None? ==> forall b' :: b <= b' < |cls| ==> !B.InSpan(cls[b'], x)
  {
    if b >= |cls| then None
    else if B.InSpan(cls[b], x) then Some(b)
    else FirstSpan(cls, x, b + 1)
  }

  /** The shield loop's span test of `check_shot_hit_block`. */
  method FindSpan(cls: seq<B.Cluster>, x: real) returns (r: Option<nat>)
    ensures r == FirstSpan(cls, x, 0)
  {
    for b := 0 to |cls|
      invariant FirstSpan(cls, x, b) == FirstSpan(cls, x, 0)
    {
      if B.InSpan(cls[b], x) {
        return Some(b);
      }
    }
    return None;
  }

  /** A shot at p takes a square: the first shield under it has a live cell in its reach. */
  predicate ShotTakesSquare(cls: seq<B.Cluster>, p: Point)
  {
    var s := FirstSpan(cls, p.x, 0);
    s.Some? && B.ShotTarget(cls[s.value], p.x, p.y, 0).Some?
  }

  /** The shields after a shot at p: the first shield under it loses the shot's target, if it has one. */
  function ShotOnShields(cls: seq<B.Cluster>, p: Point): seq<B.Cluster>
  {
    match FirstSpan(cls, p.x, 0)
    case None => cls
    case Some(b) => cls[b := B.ShotResult(cls[b], p.x, p.y)]
  }

  /**
   * The shots and shields `check_shot_hit_block` leaves, scanning from index
   * k: a shot in the band meets the shields the earlier shots left, and is
   * removed when it takes a square; the scan then moves on one index,
   * passing over the shot that took its place.
   */
  function BlockScan(shots: seq<Point>, cls: seq<B.Cluster>, k: nat, bottom: real, top: real)
    : (seq<Point>, seq<B.Cluster>)
    decreases |shots| + 1 - k
  {
    if k >= |shots| then (shots, cls)
    else if !InShieldBand(shots[k], bottom, top) then BlockScan(shots, cls, k + 1, bottom, top)
    else if ShotTakesSquare(cls, shots[k]) then
      BlockScan(RemoveAt(shots, k), ShotOnShields(cls, shots[k]), k + 1, bottom, top)
    else BlockScan(shots, cls, k + 1, bottom, top)
  }

  /** Shots none of which takes a square are all kept, and the shields are left as they are. */
  lemma {:induction false} BlockScanKeepsMisses(shots: seq<Point>, cls: seq<B.Cluster>, k: nat, bottom: real, top: real)
    requires forall n :: k <= n < |shots| && InShieldBand(shots[n], bottom, top) ==> !ShotTakesSquare(cls, shots[n])
    ensures BlockScan(shots, cls, k, bottom, top) == (shots, cls)
    decreases |shots| + 1 - k
  {
    if k < |shots| {
      BlockScanKeepsMisses(shots, cls, k + 1, bottom, top);
    }
  }

  /**
   * One shot offered to the shields whose span contains its x. The spans
   * are disjoint, so that is at most one shield, the one `FindSpan`
   * returns. The answer is whether a shield took a square; no other
   * square changes.
   */
  method ShotHitsShields(blocks: B.BlockField, shot: Point) returns (hit: bool)
    requires blocks.Valid() && blocks.brickRows >= 1 && 50.0 * (blocks.brickColumns as real) < blocks.screenW
    modifies blocks`clusters
    ensures blocks.Valid() && B.OnlyHides(old(blocks.clusters), blocks.clusters)
    ensures hit == ShotTakesSquare(old(blocks.clusters), shot)
    ensures blocks.clusters == ShotOnShields(old(blocks.clusters), shot)
    ensures hit == exists b :: 0 <= b < |old(blocks.clusters)| && ShieldHitBy(old(blocks.clusters)[b], shot)
    ensures !hit ==> blocks.clusters == old(blocks.clusters)
    ensures B.FieldLive(blocks.clusters) + (if hit then 1 else 0) == B.FieldLive(old(blocks.clusters))
  {
    blocks.ValidSeparated();
    ghost var start := blocks.clusters;
    var at := FindSpan(blocks.clusters, shot.x);
    if at.None? {
      B.OnlyHidesRefl(start);
      return false;
    }
    var b := at.value;
    hit := blocks.ShotInRange(b, shot, false, false);
    B.ShotResultEffect(start[b], shot.x, shot.y);
    B.FieldLiveUpdate(start, b, blocks.clusters[b]);
    forall b' | 0 <= b' < |start| && b' != b
      ensures !ShieldHitBy(start[b'], shot)
    {
      B.SeparatedSpansDisjoint(start, b, b', shot.x);
    }
  }

  /**
   * `check_shot_hit_block`: every shot in the shields' band is offered to
   * the shields and removed when it takes a square, as `BlockScan` says.
   * What is left is a subsequence of the shots; each removed shot took
   * exactly one square; no shot outside the band is removed; nothing but
   * hiding happens to the shields.
   */
  method CheckShotHitBlock(shots: seq<Point>, blocks: B.BlockField) returns (rest: seq<Point>)
    requires blocks.Valid() && blocks.brickRows >= 1 && 50.0 * (blocks.brickColumns as real) < blocks.screenW
    modifies blocks`clusters
    ensures blocks.Valid() && B.OnlyHides(old(blocks.clusters), blocks.clusters)
    ensures (rest, blocks.clusters) == BlockScan(shots, old(blocks.clusters), 0, blocks.blockBottomY, blocks.blockTopY)
    ensures IsSubsequence(rest, shots)
    ensures B.FieldLive(blocks.clusters) + (|shots| - |rest|) == B.FieldLive(old(blocks.clusters))
    ensures forall p :: !InShieldBand(p, blocks.blockBottomY, blocks.blockTopY) ==>
      multiset(rest)[p] == multiset(shots)[p]
  {
    ghost var start := blocks.clusters;
    B.OnlyHidesRefl(start);
    SubsequenceRefl(shots);
    rest := shots;
    var k := 0;
    while k < |rest|
      invariant k <= |rest| + 1 && |rest| <= |shots|
      invariant blocks.Valid() && B.OnlyHides(start, blocks.clusters)
      invariant BlockScan(rest, blocks.clusters, k, blocks.blockBottomY, blocks.blockTopY)
        == BlockScan(shots, start, 0, blocks.blockBottomY, blocks.blockTopY)
      invariant IsSubsequence(rest, shots)
      invariant B.FieldLive(blocks.clusters) + (|shots| - |rest|) == B.FieldLive(start)
      invariant forall p :: !InShieldBand(p, blocks.blockBottomY, blocks.blockTopY) ==>
        multiset(rest)[p] == multiset(shots)[p]
      decreases |rest| + 1 - k
    {
      ghost var before := blocks.clusters;
      var next := OfferShot(rest, k, blocks);
      B.OnlyHidesTrans(start, before, blocks.clusters);
      if next != rest {
        DropBandShot(rest, k, shots, blocks.blockBottomY, blocks.blockTopY);
      }
      rest := next;
      k := k + 1;
    }
  }

  /**
   * The body of the shot loop of `check_shot_hit_block`: the shot at index
   * k, when it is in the band, is offered to the shields and removed when
   * it takes a square, one step of `BlockScan`.
   */
  method OfferShot(rest: seq<Point>, k: nat, blocks: B.BlockField) returns (next: seq<Point>)
    requires blocks.Valid() && blocks.brickRows >= 1 && 50.0 * (blocks.brickColumns as real) < blocks.screenW
    requires k < |rest|
    modifies blocks`clusters
    ensures blocks.Valid() && B.OnlyHides(old(blocks.clusters), blocks.clusters)
    ensures BlockScan(next, blocks.clusters, k + 1, blocks.blockBottomY, blocks.blockTopY)
      == BlockScan(rest, old(blocks.clusters), k, blocks.blockBottomY, blocks.blockTopY)
    ensures next == rest || (InShieldBand(rest[k], blocks.blockBottomY, blocks.blockTopY) && next == RemoveAt(rest, k))
    ensures B.FieldLive(blocks.clusters) + (|rest| - |next|) == B.FieldLive(old(blocks.clusters))
  {
    next := rest;
    var shot := rest[k];
    if blocks.blockBottomY <= shot.y <= blocks.blockTopY + 6.0 {
      var hit := ShotHitsShields(blocks, shot);
      if hit {
        next := RemoveAt(rest, k);
      }
    } else {
      B.OnlyHidesRefl(blocks.clusters);
    }
  }

  /**
   * Dropping a shot inside the shields' band keeps `rest` a subsequence of
   * `shots` and keeps every shot outside the band, as often as before.
   */
  lemma DropBandShot(rest: seq<Point>, k: nat, shots: seq<Point>, bottom: real, top: real)
    requires k < |rest| && InShieldBand(rest[k], bottom, top) && IsSubsequence(rest, shots)
    requires forall p :: !InShieldBand(p, bottom, top) ==> multiset(rest)[p] == multiset(shots)[p]
    ensures IsSubsequence(RemoveAt(rest, k), shots)
    ensures forall p :: !InShieldBand(p, bottom, top) ==> multiset(RemoveAt(rest, k))[p] == multiset(shots)[p]
  {
    RemoveAtIsSubsequence(rest, k);
    SubsequenceTrans(RemoveAt(rest, k), rest, shots);
    RemoveAtMultiset(rest, k);
  }

  // ---------------------------------------------------------------------
  // Aliens scraping shields (`check_alien_hit_block`).

  /** `alien_x_axis_offset`: half an image and 5 pixels behind the alien, ahead of it when moving right. */
  function XOffset(alienW: real, movingRight: bool): real
  {
    var o := -(alienW / 2.0) - 5.0;
    if movingRight then (if o < 0.0 then -o else o) else o
  }

  /** `alien_y_axis_offset`: one pixel less than half an image. */
  function YOffset(alienH: real): real
  {
    alienH / 2.0 - 1.0
  }

  /** A height within 10 pixels of the shields' band. */
  predicate InScrapeBand(y: real, bottom: real, top: real)
  {
    Within(bottom - 10.0, y, top + 10.0)
  }

  /** The shields after the point p has scraped, from shield b on, each shield whose span contains p's x. */
  ghost function ScrapeShields(cls: seq<B.Cluster>, p: Point, movingRight: bool, b: nat): seq<B.Cluster>
    requires b <= |cls|
    decreases |cls| - b
  {
    if b == |cls| then cls
    else
      var cls' := if B.InSpan(cls[b], p.x) then cls[b := B.AlienCarve(cls[b], p.x, p.y, movingRight)] else cls;
      ScrapeShields(cls', p, movingRight, b + 1)
  }

  /** The shields after every alien of `front` in the scrape band has scraped them, in order. */
  ghost function ScrapeFront(cls: seq<B.Cluster>, front: seq<A.Alien>, xOff: real, yOff: real,
                             bottom: real, top: real, movingRight: bool): seq<B.Cluster>
    decreases |front|
  {
    if front == [] then cls
    else
      var a := front[0];
      var cls' := if InScrapeBand(a.y - yOff, bottom, top)
        then ScrapeShields(cls, Point(a.x + xOff, a.y - yOff), movingRight, 0) else cls;
      ScrapeFront(cls', front[1..], xOff, yOff, bottom, top, movingRight)
  }

  /** Scraping only ever hides squares, and keeps the number of shields. */
  lemma {:induction false} ScrapeShieldsOnlyHides(cls: seq<B.Cluster>, p: Point, movingRight: bool, b: nat)
    requires b <= |cls|
    ensures |ScrapeShields(cls, p, movingRight, b)| == |cls|
    ensures B.OnlyHides(cls, ScrapeShields(cls, p, movingRight, b))
    decreases |cls| - b
  {
    if b == |cls| {
      B.OnlyHidesRefl(cls);
    } else {
      var cls' := if B.InSpan(cls[b], p.x) then cls[b := B.AlienCarve(cls[b], p.x, p.y, movingRight)] else cls;
      B.AlienCarveEffect(cls[b], p.x, p.y, movingRight);
      B.OnlyHidesRefl(cls);
      assert B.OnlyHides(cls, cls');
      ScrapeShieldsOnlyHides(cls', p, movingRight, b + 1);
      B.OnlyHidesTrans(cls, cls', ScrapeShields(cls', p, movingRight, b + 1));
    }
  }

  lemma {:induction false} ScrapeFrontOnlyHides(cls: seq<B.Cluster>, front: seq<A.Alien>, xOff: real, yOff: real,
                                                bottom: real, top: real, movingRight: bool)
    ensures |ScrapeFront(cls, front, xOff, yOff, bottom, top, movingRight)| == |cls|
    ensures B.OnlyHides(cls, ScrapeFront(cls, front, xOff, yOff, bottom, top, movingRight))
    decreases |front|
  {
    if front == [] {
      B.OnlyHidesRefl(cls);
    } else {
      var a := front[0];
      var cls' := if InScrapeBand(a.y - yOff, bottom, top)
        then ScrapeShields(cls, Point(a.x + xOff, a.y - yOff), movingRight, 0) else cls;
      ScrapeShieldsOnlyHides(cls, Point(a.x + xOff, a.y - yOff), movingRight, 0);
      B.OnlyHidesRefl(cls);
      ScrapeFrontOnlyHides(cls', front[1..], xOff, yOff, bottom, top, movingRight);
      B.OnlyHidesTrans(cls, cls', ScrapeFront(cls', front[1..], xOff, yOff, bottom, top, movingRight));
    }
  }

  /** Aliens all outside the scrape band leave the shields as they are. */
  lemma {:induction false} ScrapeFrontOutOfBand(cls: seq<B.Cluster>, front: seq<A.Alien>, xOff: real, yOff: real,
                                               bottom: real, top: real, movingRight: bool)
    requires forall k :: 0 <= k < |front| ==> !InScrapeBand(front[k].y - yOff, bottom, top)
    ensures ScrapeFront(cls, front, xOff, yOff, bottom, top, movingRight) == cls
    decreases |front|
  {
    if front != [] {
      ScrapeFrontOutOfBand(cls, front[1..], xOff, yOff, bottom, top, movingRight);
    }
  }

  /** The scrape of one point: every shield whose span contains its x is carved. */
  method ScrapeAll(blocks: B.BlockField, p: Point, movingRight: bool)
    requires blocks.Valid()
    modifies blocks`clusters
    ensures blocks.Valid()
    ensures blocks.clusters == ScrapeShields(old(blocks.clusters), p, movingRight, 0)
  {
    var b := 0;
    while b < |blocks.clusters|
      invariant 0 <= b <= |blocks.clusters| == |old(blocks.clusters)|
      invariant blocks.Valid()
      invariant ScrapeShields(blocks.clusters, p, movingRight, b) == ScrapeShields(old(blocks.clusters), p, movingRight, 0)
    {
      if B.InSpan(blocks.clusters[b], p.x) {
        var _ := blocks.ShotInRange(b, p, true, movingRight);
      }
      b := b + 1;
    }
  }

  /** Every alien of `front` in the scrape band scrapes the shields, in order. */
  method ScrapeWithFront(blocks: B.BlockField, front: seq<A.Alien>, xOff: real, yOff: real, movingRight: bool)
    requires blocks.Valid()
    modifies blocks`clusters
    ensures blocks.Valid()
    ensures blocks.clusters == ScrapeFront(old(blocks.clusters), front, xOff, yOff,
                                           blocks.blockBottomY, blocks.blockTopY, movingRight)
  {
    for k := 0 to |front|
      invariant blocks.Valid()
      invariant ScrapeFront(blocks.clusters, front[k..], xOff, yOff, blocks.blockBottomY, blocks.blockTopY, movingRight)
        == ScrapeFront(old(blocks.clusters), front, xOff, yOff, blocks.blockBottomY, blocks.blockTopY, movingRight)
    {
      var alien := front[k];
      assert front[k..][1..] == front[k + 1..];
      if blocks.blockTopY + 10.0 >= alien.y - yOff >= blocks.blockBottomY - 10.0 {
        ScrapeAll(blocks, Point(alien.x + xOff, alien.y - yOff), movingRight);
      }
    }
  }

  /**
   * The shields left by the formation's scrape: when the lowest alien row
   * has come within 10 pixels of the shields' band, the front line of the
   * shown grid `shown` scrapes them; otherwise they are as they were.
   */
  ghost function Scraped(aliens: A.AlienShips, shown: A.Grid, cls: seq<B.Cluster>, bottom: real, top: real)
    : seq<B.Cluster>
    reads aliens
    requires aliens.Valid() && aliens.aliensLeft > 0
  {
    var yOff := YOffset(aliens.alienH);
    if InScrapeBand(aliens.GetLowestYAxis() - yOff, bottom, top)
    then ScrapeFront(cls, A.Frontier(shown, A.Columns), XOffset(aliens.alienW, aliens.movingRight), yOff,
                     bottom, top, aliens.movingRight)
    else cls
  }

  /**
   * `check_alien_hit_block`: when the lowest alien row has come within 10
   * pixels of the shields' band, the lowest shown alien of every column
   * that is also within it scrapes the shields ahead of it.
   */
  method CheckAlienHitBlock(aliens: A.AlienShips, blocks: B.BlockField)
    requires aliens.Valid() && aliens.aliensLeft > 0 && blocks.Valid() && blocks.brickRows >= 1
    modifies blocks`clusters
    ensures blocks.Valid() && B.OnlyHides(old(blocks.clusters), blocks.clusters)
    ensures blocks.clusters == Scraped(aliens, aliens.Visible(), old(blocks.clusters), blocks.blockBottomY, blocks.blockTopY)
  {
    var yOff := aliens.alienH / 2.0 - 1.0;
    var lowestY := aliens.GetLowestYAxis() - yOff;
    if blocks.blockTopY + 10.0 >= lowestY >= blocks.blockBottomY - 10.0 {
      var front := aliens.GetLowestVisibleAliens();
      var xOff := -(aliens.alienW / 2.0) - 5.0;
      if aliens.movingRight {
        xOff := if xOff < 0.0 then -xOff else xOff;
      }
      ScrapeFrontOnlyHides(blocks.clusters, front, xOff, yOff, blocks.blockBottomY, blocks.blockTopY, aliens.movingRight);
      ScrapeWithFront(blocks, front, xOff, yOff, aliens.movingRight);
    } else {
      B.OnlyHidesRefl(blocks.clusters);
    }
  }

  // ---------------------------------------------------------------------
  // Shots leaving the screen (`check_passed_line`).

  /** A ship shot is past the line when above it, an alien shot when below it. */
  predicate Passed(p: Point, boundaryY: real, spaceship: bool)
  {
    if spaceship then p.y > boundaryY else p.y < boundaryY
  }

  /**
   * The list `check_passed_line` leaves, scanning from index k: a shot past
   * the line is removed and the scan moves on one index, passing over the
   * shot that took its place.
   */
  function PassedScan(s: seq<Point>, k: nat, boundaryY: real, spaceship: bool): seq<Point>
    decreases |s| - k
  {
    if k >= |s| then s
    else if Passed(s[k], boundaryY, spaceship) then PassedScan(RemoveAt(s, k), k + 1, boundaryY, spaceship)
    else PassedScan(s, k + 1, boundaryY, spaceship)
  }

  /** The shots on the screen's side of the line: what a full removal would leave. */
  function OnScreenShots(s: seq<Point>, boundaryY: real, spaceship: bool): seq<Point>
  {
    if s == [] then []
    else (if Passed(s[0], boundaryY, spaceship) then [] else [s[0]]) + OnScreenShots(s[1..], boundaryY, spaceship)
  }

  /** `OnScreenShots` keeps exactly the shots not past the line. */
  lemma {:induction false} OnScreenShotsMembers(s: seq<Point>, boundaryY: real, spaceship: bool)
    ensures forall p :: p in OnScreenShots(s, boundaryY, spaceship) <==> p in s && !Passed(p, boundaryY, spaceship)
  {
    if s != [] {
      OnScreenShotsMembers(s[1..], boundaryY, spaceship);
      assert s == [s[0]] + s[1..];
    }
  }

  /** No two neighbouring shots are both past the line. */
  predicate NoPassedNeighbours(s: seq<Point>, boundaryY: real, spaceship: bool)
  {
    forall n :: 0 <= n < |s| - 1 ==> !(Passed(s[n], boundaryY, spaceship) && Passed(s[n + 1], boundaryY, spaceship))
  }

  method CheckPassedLine(shots: seq<Point>, boundaryY: real, spaceship: bool) returns (rest: seq<Point>)
    ensures rest == PassedScan(shots, 0, boundaryY, spaceship)
  {
    rest := shots;
    var k := 0;
    while k < |rest|
      invariant PassedScan(rest, k, boundaryY, spaceship) == PassedScan(shots, 0, boundaryY, spaceship)
      decreases |rest| - k
    {
      var past := if spaceship then rest[k].y > boundaryY else rest[k].y < boundaryY;
      if past {
        rest := RemoveAt(rest, k);
      }
      k := k + 1;
    }
  }

  /** The scan only removes shots, keeps the order, and every shot it removes was past the line. */
  lemma {:induction false} PassedScanRemovesPassed(s: seq<Point>, k: nat, boundaryY: real, spaceship: bool)
    ensures IsSubsequence(PassedScan(s, k, boundaryY, spaceship), s)
    ensures forall p :: !Passed(p, boundaryY, spaceship) ==>
      multiset(PassedScan(s, k, boundaryY, spaceship))[p] == multiset(s)[p]
    decreases |s| - k
  {
    if k >= |s| {
      SubsequenceRefl(s);
    } else if Passed(s[k], boundaryY, spaceship) {
      PassedScanRemovesPassed(RemoveAt(s, k), k + 1, boundaryY, spaceship);
      RemoveAtIsSubsequence(s, k);
      SubsequenceTrans(PassedScan(RemoveAt(s, k), k + 1, boundaryY, spaceship), RemoveAt(s, k), s);
      RemoveAtMultiset(s, k);
    } else {
      PassedScanRemovesPassed(s, k + 1, boundaryY, spaceship);
    }
  }

  /** Removing a shot past the line keeps its neighbours apart. */
  lemma RemovePassedKeepsApart(s: seq<Point>, k: nat, boundaryY: real, spaceship: bool)
    requires k < |s| && Passed(s[k], boundaryY, spaceship) && NoPassedNeighbours(s, boundaryY, spaceship)
    ensures NoPassedNeighbours(RemoveAt(s, k), boundaryY, spaceship)
  {
    var s' := RemoveAt(s, k);
    forall n | 0 <= n < |s'| - 1
      ensures !(Passed(s'[n], boundaryY, spaceship) && Passed(s'[n + 1], boundaryY, spaceship))
    {
      if n + 1 == k {
        assert s'[n] == s[n] && s'[n + 1] == s[k + 1];
        assert !Passed(s[n], boundaryY, spaceship);
      } else if n >= k {
        assert s'[n] == s[n + 1] && s'[n + 1] == s[n + 2];
      } else {
        assert s'[n] == s[n] && s'[n + 1] == s[n + 1];
      }
    }
  }

  /**
   * When no two neighbouring shots are past the line, the scan from k
   * removes every shot past the line from k on.
   */
  lemma {:induction false} PassedScanFilters(s: seq<Point>, k: nat, boundaryY: real, spaceship: bool)
    requires k <= |s| && NoPassedNeighbours(s, boundaryY, spaceship)
    ensures PassedScan(s, k, boundaryY, spaceship) == s[..k] + OnScreenShots(s[k..], boundaryY, spaceship)
    decreases |s| - k
  {
    if k == |s| {
      assert s[k..] == [];
    } else if Passed(s[k], boundaryY, spaceship) {
      PassedFilterStep(s, k, boundaryY, spaceship);
    } else {
      PassedScanFilters(s, k + 1, boundaryY, spaceship);
      assert s[..k + 1] == s[..k] + [s[k]];
      assert s[k..][1..] == s[k + 1..];
    }
  }

  /** The step of `PassedScanFilters` at a shot past the line. */
  lemma {:induction false} PassedFilterStep(s: seq<Point>, k: nat, boundaryY: real, spaceship: bool)
    requires k < |s| && NoPassedNeighbours(s, boundaryY, spaceship) && Passed(s[k], boundaryY, spaceship)
    ensures PassedScan(s, k, boundaryY, spaceship) == s[..k] + OnScreenShots(s[k..], boundaryY, spaceship)
    decreases |s| - k, 0
  {
    var s' := RemoveAt(s, k);
    assert PassedScan(s, k, boundaryY, spaceship) == PassedScan(s', k + 1, boundaryY, spaceship);
    assert OnScreenShots(s[k..], boundaryY, spaceship) == OnScreenShots(s[k + 1..], boundaryY, spaceship) by {
      assert s[k..][1..] == s[k + 1..];
    }
    if k + 1 == |s| {
      assert s[k + 1..] == [];
      assert s' == s[..k];
    } else {
      RemovePassedKeepsApart(s, k, boundaryY, spaceship);
      PassedScanFilters(s', k + 1, boundaryY, spaceship);
      SkippedShotKept(s, k, boundaryY, spaceship);
    }
  }

  /** After removing shot k, the shot that moves into its place is kept by both sides. */
  lemma SkippedShotKept(s: seq<Point>, k: nat, boundaryY: real, spaceship: bool)
    requires k + 1 < |s| && !Passed(s[k + 1], boundaryY, spaceship)
    ensures var s' := RemoveAt(s, k);
      s'[..k + 1] + OnScreenShots(s'[k + 1..], boundaryY, spaceship) ==
      s[..k] + OnScreenShots(s[k + 1..], boundaryY, spaceship)
  {
    var s' := RemoveAt(s, k);
    assert s'[..k + 1] == s[..k] + [s[k + 1]];
    assert s'[k + 1..] == s[k + 2..];
    assert s[k + 1..][1..] == s[k + 2..];
  }

  /** Two neighbouring shots past the line: the scan removes the first and passes over the second. */
  lemma PassedScanSkipsNeighbour(a: Point, b: Point, boundaryY: real, spaceship: bool)
    requires Passed(a, boundaryY, spaceship) && Passed(b, boundaryY, spaceship)
    ensures PassedScan([a, b], 0, boundaryY, spaceship) == [b]
  {
    assert RemoveAt([a, b], 0) == [b];
  }

  // ---------------------------------------------------------------------
  // Alien shots against the ship (`check_shot_hit_space_ship`).

  /** A shot inside the ship's box: between its bottom and top, within half its width of its x. */
  predicate InShipBox(p: Point, bottom: real, top: real, x: real, offCentre: real)
  {
    Within(bottom, p.y, top) && Within(x - offCentre, p.x, x + offCentre)
  }

  /** The first shot from index k on that is inside the ship's box. */
  function FirstInBox(s: seq<Point>, k: nat, bottom: real, top: real, x: real, offCentre: real): (r: Option<nat>)
    decreases |s| - k
    ensures r.Some? ==> (k <= r.value < |s| && InShipBox(s[r.value], bottom, top, x, offCentre) &&
      forall n :: k <= n < r.value ==> !InShipBox(s[n], bottom, top, x, offCentre))
    ensures r.None? ==> forall n :: k <= n < |s| ==> !InShipBox(s[n], bottom, top, x, offCentre)
  {
    if k >= |s| then None
    else if InShipBox(s[k], bottom, top, x, offCentre) then Some(k)
    else FirstInBox(s, k + 1, bottom, top, x, offCentre)
  }

  /**
   * `check_shot_hit_space_ship`: the first alien shot inside the ship's box
   * hits it. With a life left the ship loses it, goes back to the centre
   * and the shot is removed; on its last life the ship keeps everything and
   * the answer is that no life is left. No shot in the box: lives are left.
   */
  method CheckShotHitSpaceShip(shots: seq<Point>, ship: S.MainShip) returns (rest: seq<Point>, moreLives: bool)
    requires ship.Valid()
    modifies ship`x, ship`y, ship`lives, ship`shipLives
    ensures ship.Valid()
    ensures var f := FirstInBox(shots, 0, ship.mainShipBottom, ship.mainShipTop, old(ship.x), ship.mainShipOffCentre);
      (f.None? ==> moreLives && rest == shots && ship.x == old(ship.x) && ship.lives == old(ship.lives)) &&
      (f.Some? ==> (moreLives == (old(ship.lives) > 0) &&
        (moreLives ==> rest == RemoveAt(shots, f.value) && ship.x == 0.0 && ship.lives == old(ship.lives) - 1) &&
        (!moreLives ==> rest == shots && ship.x == old(ship.x) && ship.lives == old(ship.lives))))
  {
    rest := shots;
    var k := 0;
    while k < |shots|
      invariant k <= |shots|
      invariant forall n :: 0 <= n < k ==> !InShipBox(shots[n], ship.mainShipBottom, ship.mainShipTop, ship.x, ship.mainShipOffCentre)
      invariant ship.x == old(ship.x) && ship.lives == old(ship.lives) && ship.Valid()
    {
      var shot := shots[k];
      if ship.mainShipBottom <= shot.y <= ship.mainShipTop {
        if ship.x - ship.mainShipOffCentre <= shot.x <= ship.x + ship.mainShipOffCentre {
          moreLives := ship.ShotInRange();
          if moreLives {
            rest := RemoveAt(shots, k);
          }
          return;
        }
      }
      k := k + 1;
    }
    moreLives := true;
  }

  // ---------------------------------------------------------------------
  // The ship's shots against the aliens (`check_shot_hit_alien`).

  /**
   * A ship shot at p, whose tip is `tip` above its centre, hits an alien:
   * the tip is between the highest alien row and half an image below the
   * lowest, and the grid has an alien in range of it.
   */
  predicate AlienHitBy(g: A.Grid, p: Point, tip: real, top: real, bottom: real, halfW: real, halfH: real)
  {
    Within(bottom, p.y + tip, top) && A.HitFrom(g, p.x, p.y + tip, halfW, halfH, |g|).Some?
  }

  /** The first shot from index k on that hits an alien. */
  function FirstAlienHit(s: seq<Point>, k: nat, g: A.Grid, tip: real, top: real, bottom: real,
                         halfW: real, halfH: real): (r: Option<nat>)
    decreases |s| - k
    ensures r.Some? ==> (k <= r.value < |s| && AlienHitBy(g, s[r.value], tip, top, bottom, halfW, halfH) &&
      forall n :: k <= n < r.value ==> !AlienHitBy(g, s[n], tip, top, bottom, halfW, halfH))
    ensures r.None? ==> forall n :: k <= n < |s| ==> !AlienHitBy(g, s[n], tip, top, bottom, halfW, halfH)
  {
    if k >= |s| then None
    else if AlienHitBy(g, s[k], tip, top, bottom, halfW, halfH) then Some(k)
    else FirstAlienHit(s, k + 1, g, tip, top, bottom, halfW, halfH)
  }

  /** `shot_y_axis_offset`: half the height of a shot stretched by the shot width. */
  function ShotTip(shotWidth: real): real
  {
    (shotWidth * 20.0) / 2.0
  }

  /** The shot `check_shot_hit_alien` would find first among `shots`, in the current state of the aliens. */
  function FirstShotOnAliens(shots: seq<Point>, aliens: A.AlienShips, ship: S.MainShip): Option<nat>
    reads aliens
    requires aliens.Valid() && aliens.aliensLeft > 0
  {
    FirstAlienHit(shots, 0, aliens.Visible(), ShotTip(ship.shotWidth), aliens.GetHighestYAxis(),
                  aliens.GetLowestYAxis() - aliens.alienH / 2.0, aliens.alienW / 2.0, aliens.alienH / 2.0)
  }

  /** The slot a shot at p, tip above its centre, destroys in the shown grid. */
  function SlotShotAt(aliens: A.AlienShips, p: Point, tip: real): Option<(nat, nat)>
    reads aliens
  {
    A.HitFrom(aliens.Visible(), p.x, p.y + tip, aliens.alienW / 2.0, aliens.alienH / 2.0, |aliens.Visible()|)
  }

  /** Slot h was live and has been emptied in both grids, as `check_shot_in_range` does. */
  ghost predicate Destroyed(a: A.Grid, b: A.Grid, a': A.Grid, b': A.Grid, h: Option<(nat, nat)>)
  {
    h.Some? && A.Live(a, h.value.0, h.value.1) && A.Live(b, h.value.0, h.value.1) &&
    a' == A.RemoveSlot(a, h.value.0, h.value.1) && b' == A.RemoveSlot(b, h.value.0, h.value.1)
  }

  /** `check_shot_in_range` called with a shot known to hit. */
  method ShootAlien(aliens: A.AlienShips, shot: Point, tip: real) returns (hit: bool)
    requires aliens.Valid() && SlotShotAt(aliens, shot, tip).Some?
    modifies aliens`shipList, aliens`shipListMoving, aliens`aliensLeft, aliens`lastShip, aliens`noMoreShips
    ensures aliens.Valid() && hit && aliens.aliensLeft == old(aliens.aliensLeft) - 1
    ensures Destroyed(old(aliens.shipList), old(aliens.shipListMoving), aliens.shipList, aliens.shipListMoving,
                      old(SlotShotAt(aliens, shot, tip)))
  {
    hit := aliens.CheckShotInRange(shot.y + tip, shot.x);
  }

  /**
   * The shot loop of `check_shot_hit_alien` on values: the first shot whose
   * tip is in the aliens' band and has an alien of `g` in range.
   */
  method FindAlienHit(shots: seq<Point>, g: A.Grid, tip: real, top: real, bottom: real, halfW: real, halfH: real)
    returns (r: Option<nat>)
    requires A.RowsHaveLive(g)
    ensures r == FirstAlienHit(shots, 0, g, tip, top, bottom, halfW, halfH)
  {
    for k := 0 to |shots|
      invariant forall n :: 0 <= n < k ==> !AlienHitBy(g, shots[n], tip, top, bottom, halfW, halfH)
    {
      var shot := shots[k];
      if top >= shot.y + tip >= bottom {
        var found := A.FindHit(g, shot.x, shot.y + tip, halfW, halfH);
        if found.Some? {
          return Some(k);
        }
      }
    }
    return None;
  }

  /**
   * `check_shot_hit_alien`: the first ship shot that hits an alien destroys
   * it (as `check_shot_in_range` does) and is removed, and the answer is
   * True; when no shot hits, nothing changes and the answer is False. A
   * shot that misses changes nothing in `check_shot_in_range`, so the shot
   * is found on values first and only the one that hits is passed on.
   */
  method CheckShotHitAlien(shots: seq<Point>, aliens: A.AlienShips, ship: S.MainShip) returns (rest: seq<Point>, hit: bool)
    requires aliens.Valid() && aliens.aliensLeft > 0
    modifies aliens`shipList, aliens`shipListMoving, aliens`aliensLeft, aliens`lastShip, aliens`noMoreShips
    ensures aliens.Valid()
    ensures hit == old(FirstShotOnAliens(shots, aliens, ship)).Some?
    ensures !hit ==> (rest == shots && aliens.shipList == old(aliens.shipList) &&
      aliens.shipListMoving == old(aliens.shipListMoving) && aliens.aliensLeft == old(aliens.aliensLeft))
    ensures hit ==> (
      var k := old(FirstShotOnAliens(shots, aliens, ship)).value;
      rest == RemoveAt(shots, k) && aliens.aliensLeft == old(aliens.aliensLeft) - 1 &&
      Destroyed(old(aliens.shipList), old(aliens.shipListMoving), aliens.shipList, aliens.shipListMoving,
                old(SlotShotAt(aliens, shots[k], ShotTip(ship.shotWidth)))))
  {
    var top := aliens.GetHighestYAxis();
    var bottom := aliens.GetLowestYAxis() - aliens.alienH / 2.0;
    var tip := (ship.shotWidth * 20.0) / 2.0;
    aliens.VisibleTwin();
    var shown := if aliens.firstShapeList then aliens.shipList else aliens.shipListMoving;
    var first := FindAlienHit(shots, shown, tip, top, bottom, aliens.alienW / 2.0, aliens.alienH / 2.0);
    assert first == FirstShotOnAliens(shots, aliens, ship);
    rest, hit := shots, false;
    if first.Some? {
      hit := ShootAlien(aliens, shots[first.value], tip);
      rest := RemoveAt(shots, first.value);
    }
  }

  // ---------------------------------------------------------------------
  // The aliens reaching the ship (`check_alien_passed_finish`).

  /** True exactly when some alien is at or below the top of the ship's image. */
  function CheckAlienPassedFinish(aliens: A.AlienShips, ship: S.MainShip): (r: bool)
    reads aliens
    requires aliens.Valid() && aliens.aliensLeft > 0
    ensures r <==> exists i, j :: A.Live(aliens.shipList, i, j) && aliens.shipList[i][j].value.y <= ship.mainShipTop
  {
    aliens.GetLowestYAxis() <= ship.mainShipTop
  }
}
