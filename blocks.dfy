/**
 * The destructible shields (blocks_2.py). A template grid of square cells is
 * built once per level, with an arch cut out of the middle columns of its
 * lower rows, and stamped at four origins spread across the screen. A shot
 * removes the first live cell it covers; an alien that reaches a shield
 * carves a window of cells out of it.
 */
module Blocks {
  import opened Common

  /** One template cell `[x, y, None, hit, draw]`. */
  datatype TemplateCell = TemplateCell(x: real, y: real, hit: bool, draw: bool)

  /** One stamped cell `[x, y, turtle-or-None, hit]`. */
  datatype Cell = Cell(x: real, y: real, square: Option<Sprite>, hit: bool)

  /** One shield: rows of cells, top row first. */
  type Cluster = seq<seq<Cell>>

  /** Template pitch in both directions, and the square size `block_size`. */
  const Pitch: real := 10.0
  const BlockSize: real := 10.0
  /** A shot covers a row within 7 of its y and a cell within 5 of its x. */
  const RowReach: real := 7.0
  const CellReach: real := 5.0
  /** `get_block_positions` is always called with its default of 5. */
  const NumBlocks: nat := 5
  const GreenSquare: Sprite := Sprite("square")

  /** `math.floor(columns / 4)`: first column of the arch. */
  function BandLeft(columns: nat): nat
  {
    columns / 4
  }

  /** `math.ceil(columns * 3/4)`: one past the last column of the arch. */
  function BandRight(columns: nat): nat
  {
    (3 * columns + 3) / 4
  }

  /** `BandRight` is the ceiling of three quarters of `columns`. */
  lemma BandRightIsCeiling(columns: nat)
    ensures 4 * BandRight(columns) >= 3 * columns
    ensures 4 * (BandRight(columns) - 1) < 3 * columns
  {
  }

  /**
   * A template cell is left out (the arch) when its column lies in the
   * central band and its row is at or below `brickRows - level - 1`.
   * The bounds use the stored brick counts, not the template's own size.
   */
  predicate InArch(r: int, c: int, brickRows: int, brickColumns: nat, level: int)
  {
    BandLeft(brickColumns) <= c < BandRight(brickColumns) && r >= brickRows - level - 1
  }

  /** The template that `create_initial_block_coordinates` builds. */
  function Template(rows: int, columns: int, brickRows: int, brickColumns: nat, level: int)
    : seq<seq<TemplateCell>>
  {
    seq(Count(rows), r =>
      seq(Count(columns), c =>
        var absent := InArch(r, c, brickRows, brickColumns, level);
        TemplateCell(Pitch * (c as real), -Pitch * (r as real), absent, !absent)))
  }

  /**
   * `set_block_hit_positions`: every template coordinate is offset by the
   * cluster origin, the hit flag is copied, and a square is made exactly for
   * the cells whose draw flag is set.
   */
  function SetBlockHitPositions(template: seq<seq<TemplateCell>>, block: Point): Cluster
  {
    seq(|template|, r requires 0 <= r < |template| =>
      seq(|template[r]|, c requires 0 <= c < |template[r]| =>
        var t := template[r][c];
        Cell(t.x + block.x, t.y + block.y, if t.draw then Some(GreenSquare) else None, t.hit)))
  }

  /** One shield stamped from the template at each origin, in the order of the origins. */
  function StampAll(template: seq<seq<TemplateCell>>, origins: seq<Point>): seq<Cluster>
  {
    seq(|origins|, b requires 0 <= b < |origins| => SetBlockHitPositions(template, origins[b]))
  }

  /** Two clusters with the same number of rows and the same row lengths. */
  predicate SameShape(a: Cluster, b: Cluster)
  {
    |a| == |b| && forall r :: 0 <= r < |a| ==> |a[r]| == |b[r]|
  }

  /**
   * The shape of a cluster stamped at `o`: `rows` rows of `columns` cells,
   * cell (r, c) at (o.x + 10c, o.y - 10r), and a cell is hit exactly when it
   * has no square.
   */
  ghost predicate WellFormed(cl: Cluster, o: Point, rows: nat, columns: nat)
  {
    |cl| == rows &&
    (forall r :: 0 <= r < rows ==> |cl[r]| == columns) &&
    forall r, c :: 0 <= r < rows && 0 <= c < columns ==>
      cl[r][c].x == o.x + Pitch * (c as real) &&
      cl[r][c].y == o.y - Pitch * (r as real) &&
      (cl[r][c].hit <==> cl[r][c].square.None?)
  }

  /** Stamping the template gives a well-formed cluster whose live cells are
      exactly the cells outside the arch. */
  lemma StampedTemplate(rows: int, columns: nat, level: int, o: Point)
    ensures var cl := SetBlockHitPositions(Template(rows, columns, rows, columns, level), o);
      WellFormed(cl, o, Count(rows), columns) &&
      forall r, c :: 0 <= r < Count(rows) && 0 <= c < columns ==>
        (cl[r][c].square.Some? <==> !InArch(r, c, rows, columns, level)) &&
        cl[r][c].hit == InArch(r, c, rows, columns, level)
  {
  }

  /** `hide_hit_square`: the square is removed and the hit flag set. */
  function Hide(cell: Cell): Cell
  {
    cell.(square := None, hit := true)
  }

  /** A cell that is hidden if it is not already hit. */
  function HideIfLive(cell: Cell): (h: Cell)
    ensures h.x == cell.x && h.y == cell.y && h.hit
    ensures cell.hit ==> h == cell
  {
    if cell.hit then cell else Hide(cell)
  }

  /** The cluster with cell (i, j) hidden. */
  function HideAt(cl: Cluster, i: nat, j: nat): (r: Cluster)
    requires i < |cl| && j < |cl[i]|
    ensures SameShape(r, cl)
  {
    cl[i := cl[i][j := Hide(cl[i][j])]]
  }

  /** A shot at height y is level with a row when it is within 7 of the
      row's first cell. */
  predicate RowCovers(row: seq<Cell>, y: real)
  {
    |row| > 0 && Within(row[0].y - RowReach, y, row[0].y + RowReach)
  }

  /** A shot at x is over a cell when it is within 5 of its x. */
  predicate CellCovers(cell: Cell, x: real)
  {
    Within(cell.x - CellReach, x, cell.x + CellReach)
  }

  /** The first live cell from column j on that a shot at x covers. */
  function FirstLiveInRow(row: seq<Cell>, x: real, j: nat): Option<nat>
    decreases |row| - j
  {
    if j >= |row| then None
    else if CellCovers(row[j], x) && !row[j].hit then Some(j)
    else FirstLiveInRow(row, x, j + 1)
  }

  /**
   * The cell a shot at (x, y) removes, searching rows from i on: the first
   * live cell, in row-major order, in a row level with the shot.
   */
  function ShotTarget(cl: Cluster, x: real, y: real, i: nat): Option<(nat, nat)>
    decreases |cl| - i
  {
    if i >= |cl| then None
    else if RowCovers(cl[i], y) && FirstLiveInRow(cl[i], x, 0).Some? then
      Some((i, FirstLiveInRow(cl[i], x, 0).value))
    else ShotTarget(cl, x, y, i + 1)
  }

  /** Cell (r, c) is one a shot at (x, y) could remove. */
  predicate Targetable(cl: Cluster, x: real, y: real, r: int, c: int)
  {
    0 <= r < |cl| && 0 <= c < |cl[r]| &&
    RowCovers(cl[r], y) && CellCovers(cl[r][c], x) && !cl[r][c].hit
  }

  lemma {:induction false} FirstLiveInRowIsFirst(row: seq<Cell>, x: real, j: nat)
    ensures match FirstLiveInRow(row, x, j)
      case Some(c) =>
        j <= c < |row| && CellCovers(row[c], x) && !row[c].hit &&
        forall c' :: j <= c' < c ==> !(CellCovers(row[c'], x) && !row[c'].hit)
      case None =>
        forall c' :: j <= c' < |row| ==> !(CellCovers(row[c'], x) && !row[c'].hit)
    decreases |row| - j
  {
    if j < |row| && !(CellCovers(row[j], x) && !row[j].hit) {
      FirstLiveInRowIsFirst(row, x, j + 1);
    }
  }

  /**
   * `ShotTarget` is the row-major first targetable cell at or below row i,
   * and it is None exactly when there is no such cell.
   */
  lemma {:induction false} ShotTargetIsFirst(cl: Cluster, x: real, y: real, i: nat)
    ensures match ShotTarget(cl, x, y, i)
      case Some(t) =>
        i <= t.0 && Targetable(cl, x, y, t.0, t.1) &&
        forall r, c :: i <= r && Targetable(cl, x, y, r, c) ==> r > t.0 || (r == t.0 && c >= t.1)
      case None =>
        forall r, c :: i <= r ==> !Targetable(cl, x, y, r, c)
    decreases |cl| - i
  {
    if i < |cl| {
      FirstLiveInRowIsFirst(cl[i], x, 0);
      ShotTargetIsFirst(cl, x, y, i + 1);
    }
  }

  /** The cluster after a shot at (x, y) has been offered to it. */
  function ShotResult(cl: Cluster, x: real, y: real): Cluster
  {
    match ShotTarget(cl, x, y, 0)
    case Some(t) =>
      ShotTargetIsFirst(cl, x, y, 0);
      HideAt(cl, t.0, t.1)
    case None => cl
  }

  /** `cl` is unchanged when there is no target, and loses exactly one live
      cell, the target, otherwise. */
  lemma ShotResultEffect(cl: Cluster, x: real, y: real)
    ensures ClusterOnlyHides(cl, ShotResult(cl, x, y))
    ensures ClusterLive(ShotResult(cl, x, y)) ==
      ClusterLive(cl) - (if ShotTarget(cl, x, y, 0).Some? then 1 else 0)
    ensures ShotTarget(cl, x, y, 0).None? ==> ShotResult(cl, x, y) == cl
  {
    ShotTargetIsFirst(cl, x, y, 0);
    match ShotTarget(cl, x, y, 0)
    case Some(t) =>
      HideAtOnlyHides(cl, t.0, t.1);
      HideAtLive(cl, t.0, t.1);
    case None =>
  }

  /**
   * A second shot at the same point can still hit: rows are 10 apart and a
   * shot reaches 7 either side of a row, so a shot between two rows covers
   * both, and the lower row's cell is taken once the upper one is gone.
   */
  lemma RepeatShotCanHit()
    ensures exists cl: Cluster, x: real, y: real ::
      ShotTarget(cl, x, y, 0).Some? && ShotTarget(ShotResult(cl, x, y), x, y, 0).Some?
  {
    var upper := Cell(0.0, 0.0, Some(GreenSquare), false);
    var lower := Cell(0.0, -Pitch, Some(GreenSquare), false);
    var cl: Cluster := [[upper], [lower]];
    assert ShotTarget(cl, 0.0, -5.0, 0) == Some((0, 0));
    var after := ShotResult(cl, 0.0, -5.0);
    assert after == HideAt(cl, 0, 0);
    assert |after| == 2 && after[0] == [Hide(upper)] && after[1] == [lower];
    assert FirstLiveInRow(after[0], 0.0, 0) == None;
    assert ShotTarget(after, 0.0, -5.0, 0) == Some((1, 0));
  }

  // ---------------------------------------------------------------------
  // Counting live cells, and the "only hides" relation between fields.

  function RowLive(row: seq<Cell>): nat
  {
    if row == [] then 0
    else RowLive(row[..|row| - 1]) + (if row[|row| - 1].hit then 0 else 1)
  }

  function ClusterLive(cl: Cluster): nat
  {
    if cl == [] then 0 else ClusterLive(cl[..|cl| - 1]) + RowLive(cl[|cl| - 1])
  }

  function FieldLive(cls: seq<Cluster>): nat
  {
    if cls == [] then 0 else FieldLive(cls[..|cls| - 1]) + ClusterLive(cls[|cls| - 1])
  }

  lemma {:induction false} RowLiveHide(row: seq<Cell>, j: nat)
    requires j < |row| && !row[j].hit
    ensures RowLive(row[j := Hide(row[j])]) == RowLive(row) - 1
    decreases |row|
  {
    var n := |row| - 1;
    var row' := row[j := Hide(row[j])];
    if j == n {
      assert row'[..n] == row[..n];
    } else {
      assert row'[..n] == row[..n][j := Hide(row[j])];
      RowLiveHide(row[..n], j);
    }
  }

  lemma {:induction false} ClusterLiveUpdate(cl: Cluster, i: nat, row: seq<Cell>)
    requires i < |cl|
    ensures ClusterLive(cl[i := row]) + RowLive(cl[i]) == ClusterLive(cl) + RowLive(row)
    decreases |cl|
  {
    var n := |cl| - 1;
    if i == n {
      assert cl[i := row][..n] == cl[..n];
    } else {
      assert cl[i := row][..n] == cl[..n][i := row];
      ClusterLiveUpdate(cl[..n], i, row);
    }
  }

  lemma {:induction false} FieldLiveUpdate(cls: seq<Cluster>, b: nat, cl: Cluster)
    requires b < |cls|
    ensures FieldLive(cls[b := cl]) + ClusterLive(cls[b]) == FieldLive(cls) + ClusterLive(cl)
    decreases |cls|
  {
    var n := |cls| - 1;
    if b == n {
      assert cls[b := cl][..n] == cls[..n];
    } else {
      assert cls[b := cl][..n] == cls[..n][b := cl];
      FieldLiveUpdate(cls[..n], b, cl);
    }
  }

  /** Hiding a live cell lowers the live count by exactly one. */
  lemma HideAtLive(cl: Cluster, i: nat, j: nat)
    requires i < |cl| && j < |cl[i]| && !cl[i][j].hit
    ensures ClusterLive(HideAt(cl, i, j)) == ClusterLive(cl) - 1
  {
    RowLiveHide(cl[i], j);
    ClusterLiveUpdate(cl, i, cl[i][j := Hide(cl[i][j])]);
  }

  /**
   * `after` differs from `before` only in live cells that were hidden: a hit
   * cell never changes again, and no hit cell comes back to life.
   */
  ghost predicate ClusterOnlyHides(before: Cluster, after: Cluster)
  {
    SameShape(before, after) &&
    forall r, c :: 0 <= r < |before| && 0 <= c < |before[r]| ==>
      after[r][c] == before[r][c] ||
      (!before[r][c].hit && after[r][c] == Hide(before[r][c]))
  }

  ghost predicate OnlyHides(before: seq<Cluster>, after: seq<Cluster>)
  {
    |before| == |after| &&
    forall b :: 0 <= b < |before| ==> ClusterOnlyHides(before[b], after[b])
  }

  lemma OnlyHidesRefl(cls: seq<Cluster>)
    ensures OnlyHides(cls, cls)
  {
  }

  lemma OnlyHidesTrans(a: seq<Cluster>, b: seq<Cluster>, c: seq<Cluster>)
    requires OnlyHides(a, b) && OnlyHides(b, c)
    ensures OnlyHides(a, c)
  {
    forall k | 0 <= k < |a|
      ensures ClusterOnlyHides(a[k], c[k])
    {
      forall r, col | 0 <= r < |a[k]| && 0 <= col < |a[k][r]|
        ensures c[k][r][col] == a[k][r][col] ||
          (!a[k][r][col].hit && c[k][r][col] == Hide(a[k][r][col]))
      {
        assert b[k][r][col] == a[k][r][col] || b[k][r][col] == Hide(a[k][r][col]);
      }
    }
  }

  lemma HideAtOnlyHides(cl: Cluster, i: nat, j: nat)
    requires i < |cl| && j < |cl[i]| && !cl[i][j].hit
    ensures ClusterOnlyHides(cl, HideAt(cl, i, j))
  {
  }

  lemma {:induction false} RowLiveMonotone(a: seq<Cell>, b: seq<Cell>)
    requires |a| == |b| && forall k :: 0 <= k < |a| && a[k].hit ==> b[k].hit
    ensures RowLive(b) <= RowLive(a)
    decreases |a|
  {
    if a != [] {
      RowLiveMonotone(a[..|a| - 1], b[..|b| - 1]);
    }
  }

  lemma {:induction false} ClusterLiveMonotone(a: Cluster, b: Cluster)
    requires ClusterOnlyHides(a, b)
    ensures ClusterLive(b) <= ClusterLive(a)
    decreases |a|
  {
    if a != [] {
      var n := |a| - 1;
      ClusterLiveMonotone(a[..n], b[..n]);
      RowLiveMonotone(a[n], b[n]);
    }
  }

  /** The live count of a field never rises under `OnlyHides`. */
  lemma {:induction false} FieldLiveMonotone(a: seq<Cluster>, b: seq<Cluster>)
    requires OnlyHides(a, b)
    ensures FieldLive(b) <= FieldLive(a)
    decreases |a|
  {
    if a != [] {
      var n := |a| - 1;
      FieldLiveMonotone(a[..n], b[..n]);
      ClusterLiveMonotone(a[n], b[n]);
    }
  }

  /** Hiding cells keeps a cluster's geometry and its flag/square agreement. */
  lemma WellFormedAfterHides(a: Cluster, b: Cluster, o: Point, rows: nat, columns: nat)
    requires WellFormed(a, o, rows, columns) && ClusterOnlyHides(a, b)
    ensures WellFormed(b, o, rows, columns)
  {
  }

  /** Clusters of the same shape that agree cell by cell are equal. */
  lemma ClusterExt(a: Cluster, b: Cluster)
    requires SameShape(a, b)
    requires forall r, c :: 0 <= r < |a| && 0 <= c < |a[r]| ==> a[r][c] == b[r][c]
    ensures a == b
  {
    forall r | 0 <= r < |a|
      ensures a[r] == b[r]
    {
    }
  }

  // ---------------------------------------------------------------------
  // An alien over a shield.

  /** Row i and column j of `cl` are under the point (x, y). */
  predicate Matches(cl: Cluster, x: real, y: real, i: int, j: int)
  {
    0 <= i < |cl| && 0 <= j < |cl[i]| && RowCovers(cl[i], y) && CellCovers(cl[i][j], x)
  }

  /**
   * Python list indexing `row[k]` in a row of n cells: k itself, or k + n
   * for a negative k down to -n; anything else raises IndexError.
   */
  predicate PyIndexes(k: int, n: int, c: int)
  {
    (0 <= k < n && c == k) || (-n <= k < 0 && c == k + n)
  }

  /**
   * The cells an alien over cell (i, j) removes: rows i-3 to i, and columns
   * j-3 to j+1 when it moves right, or j-1 to j+3 when it moves left, where
   * column -1 is Python's last column of the row.
   */
  predicate InWindow(i: int, j: int, movingRight: bool, columns: int, r: int, c: int)
  {
    i - 3 <= r <= i &&
    if movingRight then j - 3 <= c <= j + 1
    else j - 1 <= c <= j + 3 || (j == 0 && c == columns - 1)
  }

  /** (r, c) lies in the window of a matched cell before (i, j), row-major. */
  ghost predicate CarvedBefore(cl: Cluster, x: real, y: real, movingRight: bool,
                               r: int, c: int, i: int, j: int)
  {
    exists i', j' :: Matches(cl, x, y, i', j') && (i' < i || (i' == i && j' < j)) &&
      InWindow(i', j', movingRight, |cl[i']|, r, c)
  }

  /** (r, c) lies in the window of some matched cell. */
  ghost predicate Carved(cl: Cluster, x: real, y: real, movingRight: bool, r: int, c: int)
  {
    CarvedBefore(cl, x, y, movingRight, r, c, |cl|, 0)
  }

  /** The shield after an alien at (x, y) has scraped it. */
  ghost function AlienCarve(cl: Cluster, x: real, y: real, movingRight: bool): Cluster
  {
    seq(|cl|, r requires 0 <= r < |cl| =>
      seq(|cl[r]|, c requires 0 <= c < |cl[r]| =>
        if Carved(cl, x, y, movingRight, r, c) then HideIfLive(cl[r][c]) else cl[r][c]))
  }

  /**
   * An alien leaves every cell in place, ends with every carved cell hit and
   * every other cell as it was, and never revives a cell.
   */
  lemma AlienCarveEffect(cl: Cluster, x: real, y: real, movingRight: bool)
    ensures var a := AlienCarve(cl, x, y, movingRight);
      ClusterOnlyHides(cl, a) &&
      forall r, c :: 0 <= r < |cl| && 0 <= c < |cl[r]| ==>
        (a[r][c].hit <==> cl[r][c].hit || Carved(cl, x, y, movingRight, r, c)) &&
        (!Carved(cl, x, y, movingRight, r, c) ==> a[r][c] == cl[r][c])
  {
  }

  /** An alien over no cell of a shield leaves it unchanged. */
  lemma AlienMissLeavesCluster(cl: Cluster, x: real, y: real, movingRight: bool)
    requires forall i, j :: !Matches(cl, x, y, i, j)
    ensures AlienCarve(cl, x, y, movingRight) == cl
  {
    ClusterExt(AlienCarve(cl, x, y, movingRight), cl);
  }

  lemma CarveStep(cl: Cluster, x: real, y: real, movingRight: bool, r: int, c: int, i: int, j: int)
    requires 0 <= i < |cl| && 0 <= j < |cl[i]|
    ensures CarvedBefore(cl, x, y, movingRight, r, c, i, j + 1) <==>
      CarvedBefore(cl, x, y, movingRight, r, c, i, j) ||
      (Matches(cl, x, y, i, j) && InWindow(i, j, movingRight, |cl[i]|, r, c))
  {
    if CarvedBefore(cl, x, y, movingRight, r, c, i, j + 1) {
      var i', j' :| Matches(cl, x, y, i', j') && (i' < i || (i' == i && j' < j + 1)) &&
        InWindow(i', j', movingRight, |cl[i']|, r, c);
      if !(i' == i && j' == j) {
        assert CarvedBefore(cl, x, y, movingRight, r, c, i, j);
      }
    }
  }

  lemma CarveRowEnd(cl: Cluster, x: real, y: real, movingRight: bool, r: int, c: int, i: int)
    requires 0 <= i < |cl|
    ensures CarvedBefore(cl, x, y, movingRight, r, c, i, |cl[i]|) <==>
      CarvedBefore(cl, x, y, movingRight, r, c, i + 1, 0)
  {
    if CarvedBefore(cl, x, y, movingRight, r, c, i + 1, 0) {
      var i', j' :| Matches(cl, x, y, i', j') && i' < i + 1 &&
        InWindow(i', j', movingRight, |cl[i']|, r, c);
      assert i' < i || (i' == i && j' < |cl[i]|);
    }
  }

  lemma CarveRowSkipped(cl: Cluster, x: real, y: real, movingRight: bool, r: int, c: int, i: int)
    requires 0 <= i < |cl| && !RowCovers(cl[i], y)
    ensures CarvedBefore(cl, x, y, movingRight, r, c, i, 0) <==>
      CarvedBefore(cl, x, y, movingRight, r, c, i + 1, 0)
  {
    if CarvedBefore(cl, x, y, movingRight, r, c, i + 1, 0) {
      var i', j' :| Matches(cl, x, y, i', j') && i' < i + 1 &&
        InWindow(i', j', movingRight, |cl[i']|, r, c);
      assert i' != i;
    }
  }

  // ---------------------------------------------------------------------
  // The shield field: the `Blocks` object.

  /** Cluster separation: every cluster has a cell, and each cluster's x span
      ends before the next one's begins. */
  predicate NonEmpty(cl: Cluster)
  {
    |cl| > 0 && |cl[0]| > 0
  }

  /** The x extent a shot is tested against: first to last cell of the top
      row, widened by half a square. */
  function LeftEdge(cl: Cluster): real
    requires NonEmpty(cl)
  {
    cl[0][0].x - BlockSize / 2.0
  }

  function RightEdge(cl: Cluster): real
    requires NonEmpty(cl)
  {
    cl[0][|cl[0]| - 1].x + BlockSize / 2.0
  }

  predicate InSpan(cl: Cluster, x: real)
  {
    NonEmpty(cl) && Within(LeftEdge(cl), x, RightEdge(cl))
  }

  predicate Separated(cls: seq<Cluster>)
  {
    (forall b :: 0 <= b < |cls| ==> NonEmpty(cls[b])) &&
    forall b, b' :: 0 <= b < b' < |cls| ==> RightEdge(cls[b]) < LeftEdge(cls[b'])
  }

  /** Under separation a shot's x lies in the span of at most one cluster. */
  lemma SeparatedSpansDisjoint(cls: seq<Cluster>, b: nat, b': nat, x: real)
    requires Separated(cls) && b < |cls| && b' < |cls| && b != b'
    requires InSpan(cls[b], x)
    ensures !InSpan(cls[b'], x)
  {
  }

  class BlockField {
    const screenW: real
    const screenH: real
    const brickColumns: nat
    /** `block_top_y_axis`: the y of every cluster's top row. */
    const blockTopY: real
    /** `initial_x`: the left screen edge. */
    const initialX: real
    /** `block_off_centre`, fixed from the rows given at construction. */
    const blockOffCentre: real
    var brickRows: int
    /** `initial_block_hit_coordinates`. */
    var template: seq<seq<TemplateCell>>
    var blocksList: seq<Point>
    /** `block_coordinates`: one cluster per origin. */
    var clusters: seq<Cluster>
    /** `block_bottom_y_axis`, set once at construction. */
    var blockBottomY: real

    /** The origins `get_block_positions(n)` appends: n - 1 points a fifth
        of the screen apart, the first slot being skipped. */
    function BlockOrigins(numBlocks: nat): (o: seq<Point>)
      requires numBlocks > 0
      ensures |o| == numBlocks - 1
    {
      seq(numBlocks - 1, k =>
        Point(initialX - blockOffCentre + ((k + 1) as real) * (screenW / (numBlocks as real)), blockTopY))
    }

    ghost predicate Valid()
      reads this
    {
      brickColumns >= 1 &&
      blocksList == BlockOrigins(NumBlocks) &&
      |clusters| == |blocksList| &&
      forall b :: 0 <= b < |clusters| ==>
        WellFormed(clusters[b], blocksList[b], Count(brickRows), brickColumns)
    }

    /**
     * With at least one row, and shields narrower than the fifth of the
     * screen between two origins (50 x 11 < 1000 in the game), the shields'
     * x spans follow each other left to right with gaps between them.
     */
    lemma ValidSeparated()
      requires Valid() && brickRows >= 1 && 50.0 * (brickColumns as real) < screenW
      ensures Separated(clusters)
    {
      var gap := screenW / (NumBlocks as real);
      forall b | 0 <= b < |clusters|
        ensures NonEmpty(clusters[b])
      {
        assert WellFormed(clusters[b], blocksList[b], Count(brickRows), brickColumns);
      }
      forall b, b' | 0 <= b < b' < |clusters|
        ensures RightEdge(clusters[b]) < LeftEdge(clusters[b'])
      {
        assert WellFormed(clusters[b], blocksList[b], Count(brickRows), brickColumns);
        assert WellFormed(clusters[b'], blocksList[b'], Count(brickRows), brickColumns);
        var last := brickColumns - 1;
        assert clusters[b][0][last].x == blocksList[b].x + Pitch * (last as real);
        assert clusters[b'][0][0].x == blocksList[b'].x;
        assert blocksList[b'].x - blocksList[b].x == ((b' - b) as real) * gap;
        assert ((b' - b) as real) * gap >= gap by {
          assert ((b' - b) as real) * gap == gap + ((b' - b - 1) as real) * gap;
        }
      }
    }

    constructor (screenW: real, screenH: real, rows: int, columns: nat)
      requires rows >= 1 && columns >= 1
      ensures Valid()
      ensures this.screenW == screenW && this.screenH == screenH
      ensures brickRows == rows && brickColumns == columns
      ensures blockTopY == (-screenH / 2.0) / 3.0 && initialX == -screenW / 2.0
      ensures blockOffCentre == BlockSize * (rows as real) / 2.0 + BlockSize / 2.0
      ensures template == Template(rows, columns, rows, columns, 1)
      ensures forall b :: 0 <= b < |clusters| ==>
        clusters[b] == SetBlockHitPositions(template, blocksList[b])
      ensures blockBottomY == blockTopY - Pitch * ((rows - 1) as real)
    {
      this.screenW := screenW;
      this.screenH := screenH;
      brickRows := rows;
      brickColumns := columns;
      blockTopY := (-screenH / 2.0) / 3.0;
      initialX := -screenW / 2.0;
      blockOffCentre := BlockSize * (rows as real) / 2.0 + BlockSize / 2.0;
      template := [];
      blocksList := [];
      clusters := [];
      blockBottomY := 0.0;
      new;
      template := CreateInitialBlockCoordinates(brickRows, brickColumns, 1);
      GetBlockPositions(NumBlocks);
      BuildClusters(1);
      var bottom := clusters[0][|clusters[0]| - 1];
      blockBottomY := bottom[0].y;
    }

    /**
     * `create_initial_block_coordinates`: rows of columns cells 10 apart,
     * with the arch left out. The row loop walks y from 0 down in steps of
     * 10, the column loop walks x from 0 up, each with its own counter.
     */
    method CreateInitialBlockCoordinates(rows: int, columns: int, level: int)
      returns (t: seq<seq<TemplateCell>>)
      ensures t == Template(rows, columns, brickRows, brickColumns, level)
    {
      ghost var spec := Template(rows, columns, brickRows, brickColumns, level);
      var leftNone := BandLeft(brickColumns);
      var rightNone := BandRight(brickColumns);
      var appliedRows := brickRows - level - 1;
      t := [];
      var y := 0;
      var j := 0;
      while j > -rows * 10
        invariant 0 <= y <= Count(rows) && j == -10 * y
        invariant t == spec[..y]
      {
        var row := [];
        var z := 0;
        var i := 0;
        while i < columns * 10
          invariant 0 <= z <= Count(columns) && i == 10 * z
          invariant row == spec[y][..z]
        {
          if leftNone <= z < rightNone && y >= appliedRows {
            row := row + [TemplateCell(i as real, j as real, true, false)];
          } else {
            row := row + [TemplateCell(i as real, j as real, false, true)];
          }
          z := z + 1;
          i := i + 10;
        }
        assert row == spec[y];
        t := t + [row];
        y := y + 1;
        j := j - 10;
      }
      assert t == spec;
    }

    /** `get_block_positions`: appends the origins of all blocks but the first. */
    method GetBlockPositions(numBlocks: nat)
      requires numBlocks > 0
      modifies this`blocksList
      ensures blocksList == old(blocksList) + BlockOrigins(numBlocks)
    {
      var blockGap := screenW / (numBlocks as real);
      var x := initialX - blockOffCentre;
      var i := 0;
      while i < numBlocks
        invariant 0 <= i <= numBlocks
        invariant x == initialX - blockOffCentre + (i as real) * blockGap
        invariant blocksList == old(blocksList) + BlockOrigins(numBlocks)[..if i == 0 then 0 else i - 1]
      {
        if i != 0 {
          blocksList := blocksList + [Point(x, blockTopY)];
        }
        x := x + blockGap;
        i := i + 1;
      }
    }

    /** Stamps the current template at every origin (in `__init__` and `reset_bricks`). */
    method BuildClusters(ghost level: int)
      requires brickColumns >= 1 && blocksList == BlockOrigins(NumBlocks)
      requires template == Template(brickRows, brickColumns, brickRows, brickColumns, level)
      modifies this`clusters
      ensures Valid()
      ensures |clusters| == |blocksList|
      ensures forall b :: 0 <= b < |clusters| ==>
        clusters[b] == SetBlockHitPositions(template, blocksList[b])
    {
      clusters := [];
      var b := 0;
      while b < |blocksList|
        invariant 0 <= b <= |blocksList| && |clusters| == b
        invariant forall k :: 0 <= k < b ==> clusters[k] == SetBlockHitPositions(template, blocksList[k])
        invariant forall k :: 0 <= k < b ==>
          WellFormed(clusters[k], blocksList[k], Count(brickRows), brickColumns)
      {
        StampedTemplate(brickRows, brickColumns, level, blocksList[b]);
        clusters := clusters + [SetBlockHitPositions(template, blocksList[b])];
        b := b + 1;
      }
    }

    /** `hide_hit_square`: the cell's square must exist, or the call fails. */
    method HideHitSquare(b: nat, i: nat, j: nat)
      requires Valid() && b < |clusters| && i < |clusters[b]| && j < |clusters[b][i]|
      requires clusters[b][i][j].square.Some?
      modifies this`clusters
      ensures Valid()
      ensures clusters == old(clusters)[b := HideAt(old(clusters[b]), i, j)]
    {
      HideAtOnlyHides(clusters[b], i, j);
      WellFormedAfterHides(clusters[b], HideAt(clusters[b], i, j), blocksList[b], Count(brickRows), brickColumns);
      clusters := clusters[b := HideAt(clusters[b], i, j)];
    }

    /**
     * `hit_above_square`: hides the live cells of column `col` (a Python
     * index) in rows i down to i - 3, stopping at row 0 or when the column
     * does not exist.
     */
    method HitAboveSquare(b: nat, i: nat, col: int)
      requires Valid() && b < |clusters| && i < |clusters[b]|
      modifies this`clusters
      ensures Valid() && |clusters| == |old(clusters)|
      ensures forall k :: 0 <= k < |clusters| && k != b ==> clusters[k] == old(clusters[k])
      ensures SameShape(clusters[b], old(clusters[b]))
      ensures forall r, c {:trigger clusters[b][r][c]} :: 0 <= r < |clusters[b]| && 0 <= c < |clusters[b][r]| ==>
        clusters[b][r][c] ==
          if i - 3 <= r <= i && PyIndexes(col, brickColumns, c) then HideIfLive(old(clusters[b][r][c]))
          else old(clusters[b][r][c])
    {
      var numRow: int := i;
      while numRow > i - 4
        invariant i - 4 <= numRow <= i
        invariant Valid() && |clusters| == |old(clusters)|
        invariant forall k :: 0 <= k < |clusters| && k != b ==> clusters[k] == old(clusters[k])
        invariant SameShape(clusters[b], old(clusters[b]))
        invariant forall r, c {:trigger clusters[b][r][c]} :: 0 <= r < |clusters[b]| && 0 <= c < |clusters[b][r]| ==>
          clusters[b][r][c] ==
            if numRow < r <= i && PyIndexes(col, brickColumns, c) then HideIfLive(old(clusters[b][r][c]))
            else old(clusters[b][r][c])
      {
        if numRow < 0 {
          return;
        }
        var c: int;
        if 0 <= col < brickColumns {
          c := col;
        } else if -(brickColumns as int) <= col < 0 {
          c := col + brickColumns;
        } else {
          break;
        }
        if !clusters[b][numRow][c].hit {
          HideHitSquare(b, numRow, c);
        }
        numRow := numRow - 1;
      }
      forall r, c | 0 <= r < |clusters[b]| && 0 <= c < |clusters[b][r]|
        ensures clusters[b][r][c] ==
          if i - 3 <= r <= i && PyIndexes(col, brickColumns, c) then HideIfLive(old(clusters[b][r][c]))
          else old(clusters[b][r][c])
      {
        assert clusters[b][r][c] ==
          if numRow < r <= i && PyIndexes(col, brickColumns, c) then HideIfLive(old(clusters[b][r][c]))
          else old(clusters[b][r][c]);
      }
    }

    /**
     * `hit_adjacent_squares`: runs `HitAboveSquare` over columns j+1 down to
     * j-3 (stopping before a negative column) when the alien moves right, and
     * over columns j-1 up to j+3 otherwise.
     */
    method HitAdjacentSquares(b: nat, i: nat, j: nat, movingRight: bool)
      requires Valid() && b < |clusters| && i < |clusters[b]| && j < brickColumns
      modifies this`clusters
      ensures Valid() && |clusters| == |old(clusters)|
      ensures forall k :: 0 <= k < |clusters| && k != b ==> clusters[k] == old(clusters[k])
      ensures SameShape(clusters[b], old(clusters[b]))
      ensures forall r, c {:trigger clusters[b][r][c]} :: 0 <= r < |clusters[b]| && 0 <= c < |clusters[b][r]| ==>
        clusters[b][r][c] ==
          if InWindow(i, j, movingRight, brickColumns, r, c) then HideIfLive(old(clusters[b][r][c]))
          else old(clusters[b][r][c])
    {
      if movingRight {
        var col: int := j + 1;
        while col > j - 4
          invariant j - 4 <= col <= j + 1
          invariant Valid() && |clusters| == |old(clusters)|
          invariant forall k :: 0 <= k < |clusters| && k != b ==> clusters[k] == old(clusters[k])
          invariant SameShape(clusters[b], old(clusters[b]))
          invariant forall r, c {:trigger clusters[b][r][c]} :: 0 <= r < |clusters[b]| && 0 <= c < |clusters[b][r]| ==>
            clusters[b][r][c] ==
              if i - 3 <= r <= i && col < c <= j + 1 then HideIfLive(old(clusters[b][r][c]))
              else old(clusters[b][r][c])
        {
          if col < 0 {
            return;
          }
          HitAboveSquare(b, i, col);
          col := col - 1;
        }
      } else {
        var col: int := j - 1;
        while col < j + 4
          invariant j - 1 <= col <= j + 4
          invariant Valid() && |clusters| == |old(clusters)|
          invariant forall k :: 0 <= k < |clusters| && k != b ==> clusters[k] == old(clusters[k])
          invariant SameShape(clusters[b], old(clusters[b]))
          invariant forall r, c {:trigger clusters[b][r][c]} :: 0 <= r < |clusters[b]| && 0 <= c < |clusters[b][r]| ==>
            clusters[b][r][c] ==
              if i - 3 <= r <= i && ((j - 1 <= c < col) || (j == 0 && col > -1 && c == brickColumns - 1))
              then HideIfLive(old(clusters[b][r][c]))
              else old(clusters[b][r][c])
        {
          HitAboveSquare(b, i, col);
          col := col + 1;
        }
      }
    }

    /**
     * `shot_in_range`. A shot removes the first live cell, row-major, that it
     * is level with and over, and reports whether it removed one. An alien
     * carves the window of every cell it is over and reports False.
     */
    method ShotInRange(blockNumber: nat, shot: Point, alien: bool, movingRight: bool)
      returns (hit: bool)
      requires Valid() && blockNumber < |clusters|
      modifies this`clusters
      ensures Valid()
      ensures OnlyHides(old(clusters), clusters)
      ensures !alien ==> (
        hit == ShotTarget(old(clusters[blockNumber]), shot.x, shot.y, 0).Some? &&
        clusters == old(clusters)[blockNumber := ShotResult(old(clusters[blockNumber]), shot.x, shot.y)])
      ensures alien ==> (!hit &&
        clusters == old(clusters)[blockNumber := AlienCarve(old(clusters[blockNumber]), shot.x, shot.y, movingRight)])
    {
      if !alien {
        hit := PlayerShot(blockNumber, shot);
      } else {
        AlienCarveShot(blockNumber, shot, movingRight);
        hit := false;
      }
    }

    /** The scan of `shot_in_range` for a shot that is not an alien. */
    method PlayerShot(blockNumber: nat, shot: Point) returns (hit: bool)
      requires Valid() && blockNumber < |clusters|
      modifies this`clusters
      ensures Valid()
      ensures OnlyHides(old(clusters), clusters)
      ensures hit == ShotTarget(old(clusters[blockNumber]), shot.x, shot.y, 0).Some?
      ensures clusters == old(clusters)[blockNumber := ShotResult(old(clusters[blockNumber]), shot.x, shot.y)]
    {
      var block := clusters[blockNumber];
      var i := 0;
      while i < |block|
        invariant 0 <= i <= |block| && clusters == old(clusters)
        invariant ShotTarget(block, shot.x, shot.y, i) == ShotTarget(block, shot.x, shot.y, 0)
      {
        var row := block[i];
        if RowCovers(row, shot.y) {
          var j := 0;
          while j < |row|
            invariant 0 <= j <= |row| && clusters == old(clusters)
            invariant FirstLiveInRow(row, shot.x, j) == FirstLiveInRow(row, shot.x, 0)
          {
            if CellCovers(row[j], shot.x) && !row[j].hit {
              HideAtOnlyHides(block, i, j);
              HideHitSquare(blockNumber, i, j);
              return true;
            }
            j := j + 1;
          }
        }
        i := i + 1;
      }
      return false;
    }

    /** The same scan for an alien, which carves at every cell it is over. */
    method AlienCarveShot(blockNumber: nat, shot: Point, movingRight: bool)
      requires Valid() && blockNumber < |clusters|
      modifies this`clusters
      ensures Valid()
      ensures OnlyHides(old(clusters), clusters)
      ensures clusters == old(clusters)[blockNumber := AlienCarve(old(clusters[blockNumber]), shot.x, shot.y, movingRight)]
    {
      var block := clusters[blockNumber];
      // The cells' coordinates never change, so the tests read the cluster
      // as it was on entry.
      ghost var o := blocksList[blockNumber];
      var i := 0;
      while i < |block|
        invariant 0 <= i <= |block|
        invariant Valid() && |clusters| == |old(clusters)|
        invariant forall k :: 0 <= k < |clusters| && k != blockNumber ==> clusters[k] == old(clusters[k])
        invariant SameShape(clusters[blockNumber], block)
        invariant forall r, c :: 0 <= r < |block| && 0 <= c < |block[r]| ==>
          clusters[blockNumber][r][c] ==
            if CarvedBefore(block, shot.x, shot.y, movingRight, r, c, i, 0) then HideIfLive(block[r][c])
            else block[r][c]
      {
        var row := block[i];
        if RowCovers(row, shot.y) {
          var j := 0;
          while j < |row|
            invariant 0 <= j <= |row|
            invariant Valid() && |clusters| == |old(clusters)|
            invariant forall k :: 0 <= k < |clusters| && k != blockNumber ==> clusters[k] == old(clusters[k])
            invariant SameShape(clusters[blockNumber], block)
            invariant forall r, c :: 0 <= r < |block| && 0 <= c < |block[r]| ==>
              clusters[blockNumber][r][c] ==
                if CarvedBefore(block, shot.x, shot.y, movingRight, r, c, i, j) then HideIfLive(block[r][c])
                else block[r][c]
          {
            forall r, c {
              CarveStep(block, shot.x, shot.y, movingRight, r, c, i, j);
            }
            if CellCovers(row[j], shot.x) {
              HitAdjacentSquares(blockNumber, i, j, movingRight);
            }
            j := j + 1;
          }
          forall r, c {
            CarveRowEnd(block, shot.x, shot.y, movingRight, r, c, i);
          }
        } else {
          forall r, c {
            CarveRowSkipped(block, shot.x, shot.y, movingRight, r, c, i);
          }
        }
        i := i + 1;
      }
      ClusterExt(clusters[blockNumber], AlienCarve(block, shot.x, shot.y, movingRight));
      AlienCarveEffect(block, shot.x, shot.y, movingRight);
    }

    /**
     * `reset_bricks`: one row fewer for a level above 1, or exactly `rows`
     * when that is given and non-zero (Python truthiness); then the template,
     * the origins and every cluster are rebuilt, all cells live except the arch.
     */
    method ResetBricks(level: int, rows: Option<int>)
      requires Valid()
      modifies this`brickRows, this`template, this`blocksList, this`clusters
      ensures Valid()
      ensures brickRows ==
        if rows.Some? && rows.value != 0 then rows.value
        else if level > 1 then old(brickRows) - 1
        else old(brickRows)
      ensures template == Template(brickRows, brickColumns, brickRows, brickColumns, level)
      ensures |clusters| == NumBlocks - 1
      ensures forall b :: 0 <= b < |clusters| ==>
        clusters[b] == SetBlockHitPositions(template, blocksList[b])
    {
      if level > 1 {
        brickRows := brickRows - 1;
      }
      if rows.Some? && rows.value != 0 {
        brickRows := rows.value;
      }
      template := CreateInitialBlockCoordinates(brickRows, brickColumns, level);
      blocksList := [];
      GetBlockPositions(NumBlocks);
      BuildClusters(level);
    }
  }
}
