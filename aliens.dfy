/**
 * The alien formation (alien_ships_2.py): two grids of the same aliens, one
 * per animation frame, which move together, lose a slot in both when one
 * alien is shot, and lose a whole row once it has no alien left.
 */
module Aliens {
  import opened Common

  /** A live alien turtle: its position and its registered image. */
  datatype Alien = Alien(x: real, y: real, shape: Sprite)

  /** Rows of slots, top row first; a shot alien leaves `None`. */
  type Grid = seq<seq<Option<Alien>>>

  /** `create_all_aliens` always builds 5 rows of 11. */
  const Rows: nat := 5
  const Columns: nat := 11
  /** The margin `check_hit_wall` adds, whatever the move amount. */
  const WallMargin: real := 10.0

  predicate Live(g: Grid, i: int, j: int)
  {
    0 <= i < |g| && 0 <= j < |g[i]| && g[i][j].Some?
  }

  /** The live aliens of a row, left to right. */
  function RowAliens(row: seq<Option<Alien>>): seq<Alien>
  {
    if row == [] then []
    else RowAliens(row[..|row| - 1]) + (if row[|row| - 1].Some? then [row[|row| - 1].value] else [])
  }

  /** The live aliens of a grid in row-major order. */
  function LiveAliens(g: Grid): seq<Alien>
  {
    if g == [] then [] else LiveAliens(g[..|g| - 1]) + RowAliens(g[|g| - 1])
  }

  lemma {:induction false} RowAliensConcat(a: seq<Option<Alien>>, b: seq<Option<Alien>>)
    ensures RowAliens(a + b) == RowAliens(a) + RowAliens(b)
    decreases |b|
  {
    if b != [] {
      var n := |b| - 1;
      assert (a + b)[..|a + b| - 1] == a + b[..n];
      RowAliensConcat(a, b[..n]);
    } else {
      assert a + b == a;
    }
  }

  lemma {:induction false} LiveAliensConcat(a: Grid, b: Grid)
    ensures LiveAliens(a + b) == LiveAliens(a) + LiveAliens(b)
    decreases |b|
  {
    if b != [] {
      var n := |b| - 1;
      assert (a + b)[..|a + b| - 1] == a + b[..n];
      LiveAliensConcat(a, b[..n]);
    } else {
      assert a + b == a;
    }
  }

  lemma SingleRow(row: seq<Option<Alien>>)
    ensures LiveAliens([row]) == RowAliens(row)
  {
    assert [row][..0] == [];
  }

  lemma SingleSlot(v: Option<Alien>)
    ensures RowAliens([v]) == if v.Some? then [v.value] else []
  {
    assert [v][..0] == [];
  }

  /** Every live alien of a row is in its list, and the list holds nothing else. */
  lemma {:induction false} RowAliensMembers(row: seq<Option<Alien>>)
    ensures forall j :: 0 <= j < |row| && row[j].Some? ==> row[j].value in RowAliens(row)
    ensures forall a :: a in RowAliens(row) ==> exists j :: 0 <= j < |row| && row[j] == Some(a)
    decreases |row|
  {
    if row != [] {
      var n := |row| - 1;
      RowAliensMembers(row[..n]);
      forall a | a in RowAliens(row)
        ensures exists j :: 0 <= j < |row| && row[j] == Some(a)
      {
        if a in RowAliens(row[..n]) {
          var j :| 0 <= j < n && row[..n][j] == Some(a);
          assert row[j] == Some(a);
        } else {
          assert row[n] == Some(a);
        }
      }
      forall j | 0 <= j < |row| && row[j].Some?
        ensures row[j].value in RowAliens(row)
      {
        if j < n {
          assert row[..n][j] == row[j];
        }
      }
    }
  }

  /** A row has a live alien exactly when its list is non-empty, and the
      head of the list is the leftmost live alien. */
  lemma {:induction false} RowAliensHead(row: seq<Option<Alien>>)
    ensures |RowAliens(row)| > 0 <==> exists j :: 0 <= j < |row| && row[j].Some?
    ensures |RowAliens(row)| > 0 ==>
      exists j :: 0 <= j < |row| && row[j] == Some(RowAliens(row)[0]) &&
        forall k :: 0 <= k < j ==> row[k].None?
    decreases |row|
  {
    if row != [] {
      var n := |row| - 1;
      RowAliensHead(row[..n]);
      if |RowAliens(row[..n])| > 0 {
        var j :| 0 <= j < n && row[..n][j] == Some(RowAliens(row[..n])[0]) &&
          forall k :: 0 <= k < j ==> row[..n][k].None?;
        assert row[j] == Some(RowAliens(row)[0]);
        assert forall k :: 0 <= k < j ==> row[k] == row[..n][k];
      } else {
        assert forall k :: 0 <= k < n ==> row[k] == row[..n][k];
      }
    }
  }

  /** Every live slot's alien is in the grid's list. */
  lemma {:induction false} LiveAlienListed(g: Grid, i: nat, j: nat)
    requires Live(g, i, j)
    ensures g[i][j].value in LiveAliens(g)
    decreases |g|
  {
    var n := |g| - 1;
    if i < n {
      assert g[..n][i] == g[i];
      LiveAlienListed(g[..n], i, j);
    } else {
      RowAliensMembers(g[n]);
    }
  }

  /** Every member of the grid's list is the alien of a live slot. */
  lemma {:induction false} ListedAlienLive(g: Grid, a: Alien)
    requires a in LiveAliens(g)
    ensures exists i, j :: Live(g, i, j) && g[i][j] == Some(a)
    decreases |g|
  {
    var n := |g| - 1;
    if a in LiveAliens(g[..n]) {
      ListedAlienLive(g[..n], a);
      var i, j :| Live(g[..n], i, j) && g[..n][i][j] == Some(a);
      assert g[..n][i] == g[i];
      assert Live(g, i, j) && g[i][j] == Some(a);
    } else {
      RowAliensMembers(g[n]);
      var j :| 0 <= j < |g[n]| && g[n][j] == Some(a);
      assert Live(g, n, j);
    }
  }

  // ---------------------------------------------------------------------
  // The invariants of a formation.

  /** Where a slot's alien stands, leaving out its image. */
  function Place(v: Option<Alien>): Option<(real, real)>
  {
    match v
    case Some(a) => Some((a.x, a.y))
    case None => None
  }

  /** The grid's shape with every alien reduced to its position. */
  function Outline(g: Grid): seq<seq<Option<(real, real)>>>
  {
    seq(|g|, i requires 0 <= i < |g| => seq(|g[i]|, j requires 0 <= j < |g[i]| => Place(g[i][j])))
  }

  /** Both frame grids have the same shape, the same empty slots, and their
      live aliens at the same places. */
  ghost predicate Twins(a: Grid, b: Grid)
  {
    |a| == |b| && (forall i :: 0 <= i < |a| ==> |a[i]| == |b[i]|) && Outline(a) == Outline(b)
  }

  /** `Twins`, slot by slot. */
  ghost predicate SameSlots(a: Grid, b: Grid)
  {
    |a| == |b| &&
    (forall i :: 0 <= i < |a| ==> |a[i]| == |b[i]|) &&
    forall i, j :: 0 <= i < |a| && 0 <= j < |a[i]| ==>
      a[i][j].Some? == b[i][j].Some? &&
      (a[i][j].Some? ==> a[i][j].value.x == b[i][j].value.x && a[i][j].value.y == b[i][j].value.y)
  }

  lemma TwinsSlots(a: Grid, b: Grid)
    requires Twins(a, b)
    ensures SameSlots(a, b)
  {
    forall i | 0 <= i < |a|
      ensures |a[i]| == |b[i]|
    {
      assert |Outline(a)[i]| == |Outline(b)[i]|;
    }
    forall i, j | 0 <= i < |a| && 0 <= j < |a[i]|
      ensures a[i][j].Some? == b[i][j].Some? &&
        (a[i][j].Some? ==> a[i][j].value.x == b[i][j].value.x && a[i][j].value.y == b[i][j].value.y)
    {
      assert Outline(a)[i][j] == Outline(b)[i][j];
    }
  }

  lemma SlotsTwins(a: Grid, b: Grid)
    requires SameSlots(a, b)
    ensures Twins(a, b)
  {
    forall i | 0 <= i < |a|
      ensures Outline(a)[i] == Outline(b)[i]
    {
      forall j | 0 <= j < |a[i]|
        ensures Outline(a)[i][j] == Outline(b)[i][j]
      {
        assert a[i][j].Some? ==> a[i][j].value.x == b[i][j].value.x && a[i][j].value.y == b[i][j].value.y;
      }
    }
  }

  ghost predicate Widths(g: Grid)
  {
    forall i :: 0 <= i < |g| ==> |g[i]| == Columns
  }

  ghost predicate RowsHaveLive(g: Grid)
  {
    forall i {:trigger RowAliens(g[i])} :: 0 <= i < |g| ==> |RowAliens(g[i])| > 0
  }

  /**
   * Live aliens keep the lattice order: a later column is further right and
   * a column shares one x; a later row is lower and a row shares one y.
   */
  ghost predicate Ordered(g: Grid)
  {
    forall i, j, i', j' {:trigger Live(g, i, j), Live(g, i', j')} :: Live(g, i, j) && Live(g, i', j') ==>
      (j < j' ==> g[i][j].value.x < g[i'][j'].value.x) &&
      (j == j' ==> g[i][j].value.x == g[i'][j'].value.x) &&
      (i < i' ==> g[i][j].value.y > g[i'][j'].value.y) &&
      (i == i' ==> g[i][j].value.y == g[i'][j'].value.y)
  }

  ghost predicate Formation(a: Grid, b: Grid)
  {
    Twins(a, b) && Widths(a) && RowsHaveLive(a) && Ordered(a)
  }

  lemma TwinsLiveAliens(a: Grid, b: Grid)
    requires Twins(a, b)
    ensures |LiveAliens(a)| == |LiveAliens(b)|
    ensures forall i :: 0 <= i < |a| ==> |RowAliens(a[i])| == |RowAliens(b[i])|
  {
    TwinsSlots(a, b);
    forall i | 0 <= i < |a|
      ensures |RowAliens(a[i])| == |RowAliens(b[i])|
    {
      SamePatternRow(a[i], b[i]);
    }
    SamePatternGrid(a, b);
  }

  lemma {:induction false} SamePatternRow(a: seq<Option<Alien>>, b: seq<Option<Alien>>)
    requires |a| == |b| && forall j :: 0 <= j < |a| ==> a[j].Some? == b[j].Some?
    ensures |RowAliens(a)| == |RowAliens(b)|
    decreases |a|
  {
    if a != [] {
      SamePatternRow(a[..|a| - 1], b[..|b| - 1]);
    }
  }

  lemma {:induction false} SamePatternGrid(a: Grid, b: Grid)
    requires |a| == |b| && forall i :: 0 <= i < |a| ==> |RowAliens(a[i])| == |RowAliens(b[i])|
    ensures |LiveAliens(a)| == |LiveAliens(b)|
    decreases |a|
  {
    if a != [] {
      SamePatternGrid(a[..|a| - 1], b[..|b| - 1]);
    }
  }

  // ---------------------------------------------------------------------
  // A shot hitting the formation.

  /** A row is level with a shot at y when its first live alien is within
      half the image height of y. */
  predicate RowLevel(row: seq<Option<Alien>>, y: real, halfH: real)
  {
    |RowAliens(row)| > 0 &&
    Within(RowAliens(row)[0].y - halfH, y, RowAliens(row)[0].y + halfH)
  }

  /** The first live slot from j on whose alien is within half the image
      width of x. */
  function SlotHit(row: seq<Option<Alien>>, x: real, halfW: real, j: nat): Option<nat>
    decreases |row| - j
  {
    if j >= |row| then None
    else if row[j].Some? && Within(row[j].value.x - halfW, x, row[j].value.x + halfW) then Some(j)
    else SlotHit(row, x, halfW, j + 1)
  }

  /** The slot a shot at (x, y) destroys, scanning rows n-1 down to 0. */
  function HitFrom(g: Grid, x: real, y: real, halfW: real, halfH: real, n: nat): Option<(nat, nat)>
    requires n <= |g|
    decreases n
  {
    if n == 0 then None
    else if RowLevel(g[n - 1], y, halfH) && SlotHit(g[n - 1], x, halfW, 0).Some? then
      Some((n - 1, SlotHit(g[n - 1], x, halfW, 0).value))
    else HitFrom(g, x, y, halfW, halfH, n - 1)
  }

  /** Slot (i, j) is one a shot at (x, y) could destroy. */
  predicate Shootable(g: Grid, x: real, y: real, halfW: real, halfH: real, i: int, j: int)
  {
    Live(g, i, j) && RowLevel(g[i], y, halfH) &&
    Within(g[i][j].value.x - halfW, x, g[i][j].value.x + halfW)
  }

  lemma {:induction false} SlotHitIsFirst(row: seq<Option<Alien>>, x: real, halfW: real, j: nat)
    ensures match SlotHit(row, x, halfW, j)
      case Some(k) =>
        j <= k < |row| && row[k].Some? && Within(row[k].value.x - halfW, x, row[k].value.x + halfW) &&
        forall k' :: j <= k' < k ==>
          !(row[k'].Some? && Within(row[k'].value.x - halfW, x, row[k'].value.x + halfW))
      case None =>
        forall k' :: j <= k' < |row| ==>
          !(row[k'].Some? && Within(row[k'].value.x - halfW, x, row[k'].value.x + halfW))
    decreases |row| - j
  {
    if j < |row| && !(row[j].Some? && Within(row[j].value.x - halfW, x, row[j].value.x + halfW)) {
      SlotHitIsFirst(row, x, halfW, j + 1);
    }
  }

  /**
   * `HitFrom` picks the lowest row holding a shootable slot, and in it the
   * leftmost shootable slot; it is None exactly when nothing is shootable.
   */
  lemma {:induction false} HitFromIsLowest(g: Grid, x: real, y: real, halfW: real, halfH: real, n: nat)
    requires n <= |g|
    ensures match HitFrom(g, x, y, halfW, halfH, n)
      case Some(s) =>
        s.0 < n && Shootable(g, x, y, halfW, halfH, s.0, s.1) &&
        (forall i, j :: s.0 < i < n ==> !Shootable(g, x, y, halfW, halfH, i, j)) &&
        (forall j :: 0 <= j < s.1 ==> !Shootable(g, x, y, halfW, halfH, s.0, j))
      case None =>
        forall i, j :: 0 <= i < n ==> !Shootable(g, x, y, halfW, halfH, i, j)
    decreases n
  {
    if n > 0 {
      SlotHitIsFirst(g[n - 1], x, halfW, 0);
      HitFromIsLowest(g, x, y, halfW, halfH, n - 1);
    }
  }

  predicate AllNone(row: seq<Option<Alien>>)
  {
    forall k :: 0 <= k < |row| ==> row[k].None?
  }

  /** Slot (i, j) set to `None`. */
  function NullSlot(g: Grid, i: nat, j: nat): (r: Grid)
    requires i < |g| && j < |g[i]|
    ensures |r| == |g| && r[i] == g[i][j := None]
  {
    g[i := g[i][j := None]]
  }

  /** Row i deleted. */
  function DeleteRow(g: Grid, i: nat): (r: Grid)
    requires i < |g|
    ensures |r| == |g| - 1
  {
    g[..i] + g[i + 1..]
  }

  /** Slot (i, j) emptied, and its row deleted if that left it empty. */
  function RemoveSlot(g: Grid, i: nat, j: nat): Grid
    requires i < |g| && j < |g[i]|
  {
    var n := NullSlot(g, i, j);
    if AllNone(n[i]) then DeleteRow(n, i) else n
  }

  /** Emptying a live slot removes one alien from its row's list. */
  lemma NullSlotCount(row: seq<Option<Alien>>, j: nat)
    requires j < |row| && row[j].Some?
    ensures |RowAliens(row[j := None])| == |RowAliens(row)| - 1
  {
    assert row == row[..j] + [row[j]] + row[j + 1..];
    assert row[j := None] == row[..j] + [None] + row[j + 1..];
    RowAliensConcat(row[..j] + [row[j]], row[j + 1..]);
    RowAliensConcat(row[..j], [row[j]]);
    RowAliensConcat(row[..j] + [None], row[j + 1..]);
    RowAliensConcat(row[..j], [None]);
    SingleSlot(row[j]);
    SingleSlot(None);
  }

  /** Replacing row i changes the grid's count by the rows' difference. */
  lemma ReplaceRowCount(g: Grid, i: nat, row: seq<Option<Alien>>)
    requires i < |g|
    ensures |LiveAliens(g[i := row])| + |RowAliens(g[i])| == |LiveAliens(g)| + |RowAliens(row)|
  {
    assert g == g[..i] + [g[i]] + g[i + 1..];
    assert g[i := row] == g[..i] + [row] + g[i + 1..];
    LiveAliensConcat(g[..i] + [g[i]], g[i + 1..]);
    LiveAliensConcat(g[..i], [g[i]]);
    LiveAliensConcat(g[..i] + [row], g[i + 1..]);
    LiveAliensConcat(g[..i], [row]);
    SingleRow(g[i]);
    SingleRow(row);
  }

  /** Deleting row i removes exactly that row's aliens from the count. */
  lemma DeleteRowCount(g: Grid, i: nat)
    requires i < |g|
    ensures |LiveAliens(g[..i] + g[i + 1..])| + |RowAliens(g[i])| == |LiveAliens(g)|
  {
    assert g == g[..i] + [g[i]] + g[i + 1..];
    LiveAliensConcat(g[..i] + [g[i]], g[i + 1..]);
    LiveAliensConcat(g[..i], [g[i]]);
    LiveAliensConcat(g[..i], g[i + 1..]);
    SingleRow(g[i]);
  }

  lemma RemoveSlotCount(g: Grid, i: nat, j: nat)
    requires Live(g, i, j)
    ensures |LiveAliens(RemoveSlot(g, i, j))| == |LiveAliens(g)| - 1
  {
    var row := g[i][j := None];
    NullSlotCount(g[i], j);
    if AllNone(row) {
      RowAliensHead(row);
      DeleteRowCount(g, i);
    } else {
      ReplaceRowCount(g, i, row);
    }
  }

  /** Grids with the same outline are twins. */
  lemma OutlineTwins(a: Grid, b: Grid)
    requires Outline(a) == Outline(b)
    ensures Twins(a, b)
  {
    assert |a| == |Outline(a)| == |Outline(b)| == |b|;
    forall i | 0 <= i < |a|
      ensures |a[i]| == |b[i]|
    {
      assert |Outline(a)[i]| == |Outline(b)[i]|;
    }
  }

  lemma OutlineNullSlot(g: Grid, i: nat, j: nat)
    requires i < |g| && j < |g[i]|
    ensures Outline(NullSlot(g, i, j)) == Outline(g)[i := Outline(g)[i][j := None]]
  {
    var l, r := Outline(NullSlot(g, i, j)), Outline(g)[i := Outline(g)[i][j := None]];
    forall k | 0 <= k < |l|
      ensures l[k] == r[k]
    {
      if k == i {
        assert forall m :: 0 <= m < |l[k]| ==> l[k][m] == r[k][m];
      }
    }
  }

  lemma OutlineDeleteRow(g: Grid, i: nat)
    requires i < |g|
    ensures Outline(DeleteRow(g, i)) == Outline(g)[..i] + Outline(g)[i + 1..]
  {
    var l, r := Outline(DeleteRow(g, i)), Outline(g)[..i] + Outline(g)[i + 1..];
    forall k | 0 <= k < |l|
      ensures l[k] == r[k]
    {
      var src := if k < i then k else k + 1;
      assert DeleteRow(g, i)[k] == g[src];
      assert r[k] == Outline(g)[src];
    }
  }

  /** A row is empty exactly when its outline is. */
  lemma OutlineAllNone(g: Grid, i: nat)
    requires i < |g|
    ensures AllNone(g[i]) <==> forall k :: 0 <= k < |Outline(g)[i]| ==> Outline(g)[i][k].None?
  {
    assert forall k :: 0 <= k < |g[i]| ==> (Outline(g)[i][k].None? <==> g[i][k].None?);
  }

  lemma RemoveSlotTwins(a: Grid, b: Grid, i: nat, j: nat)
    requires Twins(a, b) && Live(a, i, j)
    ensures AllNone(NullSlot(a, i, j)[i]) == AllNone(NullSlot(b, i, j)[i])
    ensures Twins(RemoveSlot(a, i, j), RemoveSlot(b, i, j))
  {
    var na, nb := NullSlot(a, i, j), NullSlot(b, i, j);
    OutlineNullSlot(a, i, j);
    OutlineNullSlot(b, i, j);
    OutlineAllNone(na, i);
    OutlineAllNone(nb, i);
    if AllNone(na[i]) {
      OutlineDeleteRow(na, i);
      OutlineDeleteRow(nb, i);
    }
    OutlineTwins(RemoveSlot(a, i, j), RemoveSlot(b, i, j));
  }

  lemma RemoveSlotOrdered(a: Grid, i: nat, j: nat)
    requires Ordered(a) && Live(a, i, j)
    ensures Ordered(RemoveSlot(a, i, j))
  {
    var r := RemoveSlot(a, i, j);
    if AllNone(a[i][j := None]) {
      assert forall k :: 0 <= k < |r| ==> r[k] == if k < i then a[k] else a[k + 1];
      forall p, q, p', q' | Live(r, p, q) && Live(r, p', q')
        ensures (q < q' ==> r[p][q].value.x < r[p'][q'].value.x) &&
          (q == q' ==> r[p][q].value.x == r[p'][q'].value.x) &&
          (p < p' ==> r[p][q].value.y > r[p'][q'].value.y) &&
          (p == p' ==> r[p][q].value.y == r[p'][q'].value.y)
      {
        var ap := if p < i then p else p + 1;
        var ap' := if p' < i then p' else p' + 1;
        assert r[p] == a[ap] && r[p'] == a[ap'];
        assert Live(a, ap, q) && Live(a, ap', q');
      }
    } else {
      forall p, q, p', q' | Live(r, p, q) && Live(r, p', q')
        ensures (q < q' ==> r[p][q].value.x < r[p'][q'].value.x) &&
          (q == q' ==> r[p][q].value.x == r[p'][q'].value.x) &&
          (p < p' ==> r[p][q].value.y > r[p'][q'].value.y) &&
          (p == p' ==> r[p][q].value.y == r[p'][q'].value.y)
      {
        assert Live(a, p, q) && Live(a, p', q');
      }
    }
  }

  lemma RemoveSlotRowsHaveLive(a: Grid, i: nat, j: nat)
    requires Widths(a) && RowsHaveLive(a) && Live(a, i, j)
    ensures Widths(RemoveSlot(a, i, j)) && RowsHaveLive(RemoveSlot(a, i, j))
  {
    var row := a[i][j := None];
    var r := RemoveSlot(a, i, j);
    if AllNone(row) {
      assert forall k :: 0 <= k < |r| ==> r[k] == if k < i then a[k] else a[k + 1];
    } else {
      RowAliensHead(row);
    }
  }

  /** Removing a live slot removes exactly one live alien, keeps the two
      grids twins, and keeps every remaining row non-empty and in order. */
  lemma RemoveSlotKeepsFormation(a: Grid, b: Grid, i: nat, j: nat)
    requires Formation(a, b) && Live(a, i, j)
    ensures Formation(RemoveSlot(a, i, j), RemoveSlot(b, i, j))
    ensures |LiveAliens(RemoveSlot(a, i, j))| == |LiveAliens(a)| - 1
  {
    RemoveSlotTwins(a, b, i, j);
    RemoveSlotOrdered(a, i, j);
    RemoveSlotRowsHaveLive(a, i, j);
    RemoveSlotCount(a, i, j);
  }

  // ---------------------------------------------------------------------
  // The lowest visible alien of each column.

  /** The last row below n whose slot in column j is live. */
  function LowestIn(g: Grid, j: nat, n: nat): Option<nat>
    requires n <= |g|
    decreases n
  {
    if n == 0 then None
    else if j < |g[n - 1]| && g[n - 1][j].Some? then Some(n - 1)
    else LowestIn(g, j, n - 1)
  }

  lemma {:induction false} LowestInIsLowest(g: Grid, j: nat, n: nat)
    requires n <= |g|
    ensures match LowestIn(g, j, n)
      case Some(i) => i < n && Live(g, i, j) && forall i' :: i < i' < n ==> !Live(g, i', j)
      case None => forall i' :: 0 <= i' < n ==> !Live(g, i', j)
    decreases n
  {
    if n > 0 {
      LowestInIsLowest(g, j, n - 1);
    }
  }

  /** Column j's lowest live alien, if it has one. */
  predicate LowestOfColumn(g: Grid, i: int, j: int)
  {
    Live(g, i, j) && forall i' :: i < i' < |g| ==> !Live(g, i', j)
  }

  /** What column j adds to the frontier: its lowest live alien, or nothing. */
  function ColumnLowest(g: Grid, j: nat): (r: seq<Alien>)
    ensures |r| <= 1
  {
    match LowestIn(g, j, |g|)
    case Some(i) => LowestInIsLowest(g, j, |g|); [g[i][j].value]
    case None => []
  }

  /** The lowest live alien of each of the columns below n, in column order. */
  function Frontier(g: Grid, n: nat): seq<Alien>
  {
    if n == 0 then [] else Frontier(g, n - 1) + ColumnLowest(g, n - 1)
  }

  /** A column contributes its lowest live alien, and an empty column nothing. */
  lemma ColumnLowestIs(g: Grid, j: nat)
    ensures ColumnLowest(g, j) == [] <==> forall i :: !Live(g, i, j)
    ensures forall i :: LowestOfColumn(g, i, j) ==> ColumnLowest(g, j) == [g[i][j].value]
    ensures |ColumnLowest(g, j)| == 1 ==> exists i :: LowestOfColumn(g, i, j) && ColumnLowest(g, j) == [g[i][j].value]
  {
    LowestInIsLowest(g, j, |g|);
    match LowestIn(g, j, |g|)
    case Some(i) =>
      assert LowestOfColumn(g, i, j);
      forall i' | LowestOfColumn(g, i', j)
        ensures i' == i
      {
      }
    case None =>
  }

  /** `a` is the lowest live alien of some column below n. */
  ghost predicate LowestBelow(g: Grid, a: Alien, n: nat)
  {
    exists i, j :: 0 <= j < n && LowestOfColumn(g, i, j) && a == g[i][j].value
  }

  /** Every member of the frontier is the lowest live alien of a column. */
  lemma {:induction false} FrontierMembers(g: Grid, n: nat)
    ensures forall k :: 0 <= k < |Frontier(g, n)| ==> LowestBelow(g, Frontier(g, n)[k], n)
    decreases n
  {
    if n > 0 {
      FrontierMembers(g, n - 1);
      ColumnLowestIs(g, n - 1);
      var prev := Frontier(g, n - 1);
      forall k | 0 <= k < |Frontier(g, n)|
        ensures LowestBelow(g, Frontier(g, n)[k], n)
      {
        if k < |prev| {
          assert Frontier(g, n)[k] == prev[k];
          assert LowestBelow(g, prev[k], n - 1);
          var i1, j1 :| 0 <= j1 < n - 1 && LowestOfColumn(g, i1, j1) && prev[k] == g[i1][j1].value;
          assert 0 <= j1 < n && LowestOfColumn(g, i1, j1) && Frontier(g, n)[k] == g[i1][j1].value;
        } else {
          assert Frontier(g, n)[k] == ColumnLowest(g, n - 1)[0];
          var i1 :| LowestOfColumn(g, i1, n - 1) && ColumnLowest(g, n - 1) == [g[i1][n - 1].value];
          assert 0 <= n - 1 < n && LowestOfColumn(g, i1, n - 1) && Frontier(g, n)[k] == g[i1][n - 1].value;
        }
      }
    }
  }

  /** Every column below n with a live alien contributes its lowest one. */
  lemma {:induction false} FrontierComplete(g: Grid, n: nat)
    ensures forall i, j :: 0 <= j < n && LowestOfColumn(g, i, j) ==> g[i][j].value in Frontier(g, n)
    decreases n
  {
    if n > 0 {
      FrontierComplete(g, n - 1);
      ColumnLowestIs(g, n - 1);
    }
  }

  /** In an ordered grid the frontier runs strictly left to right. */
  lemma {:induction false} FrontierSorted(g: Grid, n: nat)
    requires Ordered(g)
    ensures forall k, k' :: 0 <= k < k' < |Frontier(g, n)| ==> Frontier(g, n)[k].x < Frontier(g, n)[k'].x
    decreases n
  {
    if n > 0 {
      FrontierSorted(g, n - 1);
      FrontierMembers(g, n - 1);
      ColumnLowestIs(g, n - 1);
      var prev := Frontier(g, n - 1);
      var f := Frontier(g, n);
      forall k, k' | 0 <= k < k' < |f|
        ensures f[k].x < f[k'].x
      {
        if k' < |prev| {
          assert f[k] == prev[k] && f[k'] == prev[k'];
        } else {
          assert f[k] == prev[k];
          assert LowestBelow(g, prev[k], n - 1);
          var i1, j1 :| 0 <= j1 < n - 1 && LowestOfColumn(g, i1, j1) && prev[k] == g[i1][j1].value;
          var i2 :| LowestOfColumn(g, i2, n - 1) && ColumnLowest(g, n - 1) == [g[i2][n - 1].value];
          assert f[k'] == g[i2][n - 1].value;
          assert Live(g, i1, j1) && Live(g, i2, n - 1);
        }
      }
    }
  }

  // ---------------------------------------------------------------------
  // Moving the formation.

  /** Every live alien moved by (dx, dy). */
  function Translate(g: Grid, dx: real, dy: real): (r: Grid)
    ensures |r| == |g| && forall i :: 0 <= i < |g| ==> |r[i]| == |g[i]|
  {
    seq(|g|, i requires 0 <= i < |g| =>
      seq(|g[i]|, j requires 0 <= j < |g[i]| =>
        match g[i][j]
        case Some(a) => Some(a.(x := a.x + dx, y := a.y + dy))
        case None => None))
  }

  lemma TranslateCount(a: Grid, dx: real, dy: real)
    ensures forall i :: 0 <= i < |a| ==> |RowAliens(Translate(a, dx, dy)[i])| == |RowAliens(a[i])|
    ensures |LiveAliens(Translate(a, dx, dy))| == |LiveAliens(a)|
  {
    var t := Translate(a, dx, dy);
    forall i | 0 <= i < |a|
      ensures |RowAliens(t[i])| == |RowAliens(a[i])|
    {
      SamePatternRow(t[i], a[i]);
    }
    SamePatternGrid(t, a);
  }

  lemma TranslateOrdered(a: Grid, dx: real, dy: real)
    requires Ordered(a)
    ensures Ordered(Translate(a, dx, dy))
  {
    var t := Translate(a, dx, dy);
    forall i, j, i', j' | Live(t, i, j) && Live(t, i', j')
      ensures (j < j' ==> t[i][j].value.x < t[i'][j'].value.x) &&
        (j == j' ==> t[i][j].value.x == t[i'][j'].value.x) &&
        (i < i' ==> t[i][j].value.y > t[i'][j'].value.y) &&
        (i == i' ==> t[i][j].value.y == t[i'][j'].value.y)
    {
      assert Live(a, i, j) && Live(a, i', j');
    }
  }

  lemma TranslateTwins(a: Grid, b: Grid, dx: real, dy: real)
    requires Twins(a, b)
    ensures Twins(Translate(a, dx, dy), Translate(b, dx, dy))
  {
    TwinsSlots(a, b);
    SlotsTwins(Translate(a, dx, dy), Translate(b, dx, dy));
  }

  /** Moving both grids by the same amount keeps them a formation and keeps
      the live count. */
  lemma TranslateKeepsFormation(a: Grid, b: Grid, dx: real, dy: real)
    requires Formation(a, b)
    ensures Formation(Translate(a, dx, dy), Translate(b, dx, dy))
    ensures |LiveAliens(Translate(a, dx, dy))| == |LiveAliens(a)|
  {
    TranslateCount(a, dx, dy);
    TranslateOrdered(a, dx, dy);
    TranslateTwins(a, b, dx, dy);
  }

  // ---------------------------------------------------------------------
  // The starting layout.

  /** The image of row i: image 0 for the top row, 1 for the next two, 2 below. */
  function RowImage(i: int): nat
  {
    if i < 1 then 0 else if i < 3 then 1 else 2
  }

  /** `create_all_aliens`: 5 rows of 11, spaced (sx, sy), centred at the top. */
  function Layout(screenW: real, screenH: real, sx: real, sy: real, imgs: seq<Sprite>): (g: Grid)
    requires |imgs| >= 3
    ensures |g| == Rows && Widths(g)
  {
    seq(Rows, i =>
      seq(Columns, j => Some(Alien(ColumnX(screenW, sx, j), RowY(screenH, sy, i), imgs[RowImage(i)]))))
  }

  /** The x of column j: the 11 columns centred on the screen, `sx` apart. */
  function ColumnX(screenW: real, sx: real, j: int): real
  {
    -screenW / 2.0 + (screenW - sx * 11.0) / 2.0 + sx / 2.0 + (j as real) * sx
  }

  /** The y of row i: the 5 rows hung from the top of the screen, `sy` apart. */
  function RowY(screenH: real, sy: real, i: int): real
  {
    screenH / 2.0 - sy * 5.0 / 2.0 - sy / 2.0 - (i as real) * sy
  }

  lemma ScaleMonotone(k: int, k': int, s: real)
    requires k < k' && s > 0.0
    ensures (k as real) * s < (k' as real) * s
  {
    assert (k' as real) * s - (k as real) * s == ((k' - k) as real) * s;
  }

  lemma LayoutOrder(screenW: real, screenH: real, sx: real, sy: real, imgs: seq<Sprite>, i: nat, j: nat, i': nat, j': nat)
    requires |imgs| >= 3 && sx > 0.0 && sy > 0.0 && i < Rows && i' < Rows && j < Columns && j' < Columns
    ensures var g := Layout(screenW, screenH, sx, sy, imgs);
      (j < j' ==> g[i][j].value.x < g[i'][j'].value.x) &&
      (j == j' ==> g[i][j].value.x == g[i'][j'].value.x) &&
      (i < i' ==> g[i][j].value.y > g[i'][j'].value.y) &&
      (i == i' ==> g[i][j].value.y == g[i'][j'].value.y)
  {
    if j < j' {
      ScaleMonotone(j, j', sx);
      assert ColumnX(screenW, sx, j) < ColumnX(screenW, sx, j');
    }
    if i < i' {
      ScaleMonotone(i, i', sy);
      assert RowY(screenH, sy, i) > RowY(screenH, sy, i');
    }
  }

  /** Any two layouts with the same spacing form a full 55-alien formation. */
  lemma LayoutIsFormation(screenW: real, screenH: real, sx: real, sy: real, imgs: seq<Sprite>, imgsMoving: seq<Sprite>)
    requires |imgs| >= 3 && |imgsMoving| >= 3 && sx > 0.0 && sy > 0.0
    ensures Formation(Layout(screenW, screenH, sx, sy, imgs), Layout(screenW, screenH, sx, sy, imgsMoving))
    ensures |LiveAliens(Layout(screenW, screenH, sx, sy, imgs))| == Rows * Columns
  {
    var g := Layout(screenW, screenH, sx, sy, imgs);
    forall i, j, i', j' | Live(g, i, j) && Live(g, i', j')
      ensures (j < j' ==> g[i][j].value.x < g[i'][j'].value.x) &&
        (j == j' ==> g[i][j].value.x == g[i'][j'].value.x) &&
        (i < i' ==> g[i][j].value.y > g[i'][j'].value.y) &&
        (i == i' ==> g[i][j].value.y == g[i'][j'].value.y)
    {
      LayoutOrder(screenW, screenH, sx, sy, imgs, i, j, i', j');
    }
    forall i | 0 <= i < |g|
      ensures |RowAliens(g[i])| == Columns
    {
      FullRow(g[i]);
    }
    FullGrid(g);
    SlotsTwins(g, Layout(screenW, screenH, sx, sy, imgsMoving));
  }

  lemma {:induction false} FullRow(row: seq<Option<Alien>>)
    requires forall j :: 0 <= j < |row| ==> row[j].Some?
    ensures |RowAliens(row)| == |row|
    decreases |row|
  {
    if row != [] {
      FullRow(row[..|row| - 1]);
    }
  }

  lemma {:induction false} FullGrid(g: Grid)
    requires forall i :: 0 <= i < |g| ==> |RowAliens(g[i])| == Columns
    ensures |LiveAliens(g)| == |g| * Columns
    decreases |g|
  {
    if g != [] {
      FullGrid(g[..|g| - 1]);
    }
  }

  // ---------------------------------------------------------------------
  // Facts the formation's operations rely on.

  /** With no empty rows, a grid has live aliens exactly when it has rows. */
  lemma LiveIffRows(g: Grid)
    requires RowsHaveLive(g)
    ensures |LiveAliens(g)| > 0 <==> |g| > 0
  {
  }

  /** Some slot holds the head of a row's list, with nothing live before it. */
  lemma RowHeadSlot(g: Grid, i: nat)
    requires i < |g| && |RowAliens(g[i])| > 0
    ensures exists j :: Live(g, i, j) && g[i][j].value == RowAliens(g[i])[0]
  {
    RowAliensHead(g[i]);
  }

  /** Twin grids agree on which rows are level with a shot and which slots it hits. */
  lemma TwinRows(a: Grid, b: Grid, i: nat)
    requires Twins(a, b) && i < |a|
    ensures RowAliens(a[i]) == [] <==> RowAliens(b[i]) == []
    ensures |RowAliens(a[i])| > 0 ==> RowAliens(a[i])[0].y == RowAliens(b[i])[0].y
  {
    TwinsSlots(a, b);
    RowAliensHead(a[i]);
    RowAliensHead(b[i]);
    if |RowAliens(a[i])| > 0 {
      var j :| 0 <= j < |a[i]| && a[i][j] == Some(RowAliens(a[i])[0]) && forall k :: 0 <= k < j ==> a[i][k].None?;
      var j' :| 0 <= j' < |b[i]| && b[i][j'] == Some(RowAliens(b[i])[0]) && forall k :: 0 <= k < j' ==> b[i][k].None?;
      assert forall k :: 0 <= k < j ==> b[i][k].None?;
      assert forall k :: 0 <= k < j' ==> a[i][k].None?;
      assert j == j';
    }
  }

  /** Twins share the lattice order and the empty-row invariant. */
  lemma TwinsSymmetric(a: Grid, b: Grid)
    requires Formation(a, b)
    ensures Twins(b, a) && Widths(b) && RowsHaveLive(b) && Ordered(b)
  {
    TwinsSlots(a, b);
    forall i | 0 <= i < |b|
      ensures |RowAliens(b[i])| > 0
    {
      TwinRows(a, b, i);
    }
    forall i, j, i', j' | Live(b, i, j) && Live(b, i', j')
      ensures (j < j' ==> b[i][j].value.x < b[i'][j'].value.x) &&
        (j == j' ==> b[i][j].value.x == b[i'][j'].value.x) &&
        (i < i' ==> b[i][j].value.y > b[i'][j'].value.y) &&
        (i == i' ==> b[i][j].value.y == b[i'][j'].value.y)
    {
      assert Live(a, i, j) && Live(a, i', j');
    }
  }

  /** A shot hits the same slot of twin grids. */
  lemma {:induction false} TwinsHitFrom(a: Grid, b: Grid, x: real, y: real, halfW: real, halfH: real, n: nat)
    requires Twins(a, b) && n <= |a|
    ensures HitFrom(a, x, y, halfW, halfH, n) == HitFrom(b, x, y, halfW, halfH, n)
    decreases n
  {
    if n > 0 {
      TwinRowHit(a, b, n - 1, x, y, halfW, halfH);
      TwinsHitFrom(a, b, x, y, halfW, halfH, n - 1);
    }
  }

  /** Row i of twin grids is at the shot's level in both or neither, and the shot meets the same slot in both. */
  lemma TwinRowHit(a: Grid, b: Grid, i: nat, x: real, y: real, halfW: real, halfH: real)
    requires Twins(a, b) && i < |a|
    ensures RowLevel(a[i], y, halfH) == RowLevel(b[i], y, halfH)
    ensures SlotHit(a[i], x, halfW, 0) == SlotHit(b[i], x, halfW, 0)
  {
    TwinsSlots(a, b);
    TwinRows(a, b, i);
    TwinsSlotHit(a[i], b[i], x, halfW, 0);
  }

  lemma {:induction false} TwinsSlotHit(r: seq<Option<Alien>>, s: seq<Option<Alien>>, x: real, halfW: real, j: nat)
    requires |r| == |s|
    requires forall k :: 0 <= k < |r| ==> r[k].Some? == s[k].Some? && (r[k].Some? ==> r[k].value.x == s[k].value.x)
    ensures SlotHit(r, x, halfW, j) == SlotHit(s, x, halfW, j)
    decreases |r| - j
  {
    if j < |r| {
      TwinsSlotHit(r, s, x, halfW, j + 1);
    }
  }

  /** What `check_shot_in_range` relies on when its shot meets slot (i, j) of the shown grid `vis`. */
  lemma HitBookkeeping(a: Grid, b: Grid, vis: Grid, i: nat, j: nat)
    requires Formation(a, b) && (vis == a || vis == b) && Live(vis, i, j)
    ensures Live(a, i, j) && Live(b, i, j)
    ensures AllNone(NullSlot(vis, i, j)[i]) == AllNone(NullSlot(a, i, j)[i])
    ensures Formation(RemoveSlot(a, i, j), RemoveSlot(b, i, j))
    ensures |LiveAliens(RemoveSlot(a, i, j))| == |LiveAliens(a)| - 1
  {
    TwinsSlots(a, b);
    RemoveSlotTwins(a, b, i, j);
    RemoveSlotKeepsFormation(a, b, i, j);
  }

  /** Twin grids have the same live slots. */
  lemma TwinsLive(a: Grid, b: Grid)
    requires Twins(a, b)
    ensures forall i, j :: Live(a, i, j) <==> Live(b, i, j)
  {
    TwinsSlots(a, b);
  }

  // ---------------------------------------------------------------------
  // The walls.

  /** Slot (i', j') comes before position (i, j) in a row-by-row scan. */
  predicate ScannedBefore(i': int, j': int, i: int, j: int)
  {
    i' < i || (i' == i && j' < j)
  }

  /**
   * No live alien would come within the wall margin of the side it is
   * heading for: the test `check_hit_wall` makes before a sideways step.
   */
  ghost predicate ClearOfWalls(g: Grid, right: bool, halfW: real, screenW: real)
  {
    forall i, j :: Live(g, i, j) ==>
      if right then g[i][j].value.x + halfW + WallMargin <= screenW / 2.0
      else -screenW / 2.0 <= g[i][j].value.x - halfW - WallMargin
  }

  /**
   * `get_furthest_left_index`: the leftmost live
   * column and the top live slot in it, found row by row, stopping at column
   * 0; without a live alien the starting guess (0, 20) comes back.
   */
  method FurthestLeftIndex(g: Grid) returns (fr: nat, fc: nat)
    requires Widths(g)
    ensures fc == 20 ==> fr == 0 && forall i, j :: !Live(g, i, j)
    ensures fc != 20 ==> (
      Live(g, fr, fc) &&
      (forall i, j :: Live(g, i, j) ==> fc <= j) &&
      (forall i :: 0 <= i < fr ==> !Live(g, i, fc)))
  {
    fr, fc := 0, 20;
    for i := 0 to |g|
      invariant 0 < fc <= 20
      invariant fc < 20 ==> Live(g, fr, fc) && fr < i
      invariant fc == 20 ==> fr == 0 && forall i', j' :: Live(g, i', j') ==> i' >= i
      invariant forall i', j' :: Live(g, i', j') && i' < i ==> fc <= j' && (j' == fc ==> fr <= i')
    {
      for j := 0 to |g[i]|
        invariant 0 < fc <= 20
        invariant fc < 20 ==> Live(g, fr, fc) && ScannedBefore(fr, fc, i, j)
        invariant fc == 20 ==> fr == 0 && forall i', j' :: Live(g, i', j') ==> !ScannedBefore(i', j', i, j)
        invariant forall i', j' :: Live(g, i', j') && ScannedBefore(i', j', i, j) ==>
          fc <= j' && (j' == fc ==> fr <= i')
      {
        if g[i][j].Some? {
          if j < fc {
            fr, fc := i, j;
          }
          if fc == 0 {
            return;
          }
        }
      }
    }
  }

  /**
   * `get_furthest_right_index`: the rightmost live
   * column and the top live slot in it, stopping at the last column. It
   * starts from (0, 0), which is the answer only when that slot is live; it
   * is whenever every live alien is in column 0, because row 0 has one.
   */
  method FurthestRightIndex(g: Grid) returns (fr: nat, fc: nat)
    requires |g| > 0 && Widths(g) && RowsHaveLive(g)
    ensures Live(g, fr, fc)
    ensures forall i, j :: Live(g, i, j) ==> j <= fc
    ensures forall i :: 0 <= i < fr ==> !Live(g, i, fc)
  {
    RowHeadSlot(g, 0);
    ghost var j0 :| Live(g, 0, j0);
    // Every row has the width of row 0, the row the source measures.
    var maxColumn := |g[0]| - 1;
    ghost var seen := false;
    fr, fc := 0, 0;
    for i := 0 to |g|
      invariant fc < maxColumn
      invariant seen ==> Live(g, fr, fc) && fr < i
      invariant !seen ==> fr == 0 && fc == 0 && forall i', j' :: Live(g, i', j') ==> i' >= i
      invariant forall i', j' :: Live(g, i', j') && i' < i ==> j' <= fc && (j' == fc ==> fr <= i')
    {
      for j := 0 to |g[i]|
        invariant fc < maxColumn
        invariant seen ==> Live(g, fr, fc) && ScannedBefore(fr, fc, i, j)
        invariant !seen ==> fr == 0 && fc == 0 && forall i', j' :: Live(g, i', j') ==> !ScannedBefore(i', j', i, j)
        invariant forall i', j' :: Live(g, i', j') && ScannedBefore(i', j', i, j) ==>
          j' <= fc && (j' == fc ==> fr <= i')
      {
        if g[i][j].Some? {
          if !seen {
            assert !ScannedBefore(0, j0, i, j);
          }
          seen := true;
          if j > fc {
            fr, fc := i, j;
          }
          if j == maxColumn {
            return;
          }
        }
      }
    }
    assert Live(g, 0, j0);
  }

  /**
   * In an ordered grid the alien of the furthest live column on the side the
   * formation heads for decides the wall test for all of them.
   */
  lemma FurthestDecidesWall(g: Grid, right: bool, fr: int, fc: int, halfW: real, screenW: real)
    requires Ordered(g) && Live(g, fr, fc)
    requires right ==> forall i, j :: Live(g, i, j) ==> j <= fc
    requires !right ==> forall i, j :: Live(g, i, j) ==> fc <= j
    ensures ClearOfWalls(g, right, halfW, screenW) <==>
      if right then g[fr][fc].value.x + halfW + WallMargin <= screenW / 2.0
      else -screenW / 2.0 <= g[fr][fc].value.x - halfW - WallMargin
  {
    forall i, j | Live(g, i, j)
      ensures if right then g[i][j].value.x <= g[fr][fc].value.x else g[fr][fc].value.x <= g[i][j].value.x
    {
      assert Live(g, fr, fc);
    }
  }

  /** Every `move` applies one translation to a grid. */
  method ShiftGrid(g: Grid, dx: real, dy: real) returns (r: Grid)
    ensures r == Translate(g, dx, dy)
  {
    r := [];
    for i := 0 to |g|
      invariant |r| == i
      invariant forall i' :: 0 <= i' < i ==> r[i'] == Translate(g, dx, dy)[i']
    {
      var row: seq<Option<Alien>> := [];
      for j := 0 to |g[i]|
        invariant |row| == j
        invariant forall j' :: 0 <= j' < j ==> row[j'] == Translate(g, dx, dy)[i][j']
      {
        var ship := g[i][j];
        if ship.Some? {
          ship := Some(ship.value.(x := ship.value.x + dx, y := ship.value.y + dy));
        }
        row := row + [ship];
      }
      r := r + [row];
    }
  }

  /**
   * The search loops of `check_shot_in_range`:
   * rows from the bottom up, and in the first row level with the shot whose
   * slots hold an alien in range, the leftmost such slot.
   */
  method FindHit(g: Grid, x: real, y: real, halfW: real, halfH: real) returns (found: Option<(nat, nat)>)
    requires RowsHaveLive(g)
    ensures found == HitFrom(g, x, y, halfW, halfH, |g|)
  {
    var numRows := |g| - 1;
    var k := 0;
    while k < |g|
      invariant 0 <= k <= |g|
      invariant HitFrom(g, x, y, halfW, halfH, |g| - k) == HitFrom(g, x, y, halfW, halfH, |g|)
    {
      var i: nat := numRows - k;
      var row := g[i];
      var available := RowAliens(row);
      if available[0].y - halfH <= y <= available[0].y + halfH {
        var j: nat := 0;
        while j < |row|
          invariant j <= |row|
          invariant SlotHit(row, x, halfW, j) == SlotHit(row, x, halfW, 0)
        {
          if row[j].Some? && row[j].value.x - halfW <= x <= row[j].value.x + halfW {
            return Some((i, j));
          }
          j := j + 1;
        }
      }
      k := k + 1;
    }
    return None;
  }

  /**
   * A sideways step no larger than the margin, taken after the wall test
   * passed, leaves every alien's image inside the screen on that side.
   */
  lemma SideStepStaysInside(g: Grid, right: bool, halfW: real, screenW: real, step: real)
    requires ClearOfWalls(g, right, halfW, screenW) && 0.0 <= step <= WallMargin
    ensures var t := Translate(g, if right then step else -step, 0.0);
      forall i, j :: Live(t, i, j) ==>
        if right then t[i][j].value.x + halfW <= screenW / 2.0
        else -screenW / 2.0 <= t[i][j].value.x - halfW
  {
    var t := Translate(g, if right then step else -step, 0.0);
    forall i, j | Live(t, i, j)
      ensures if right then t[i][j].value.x + halfW <= screenW / 2.0
        else -screenW / 2.0 <= t[i][j].value.x - halfW
    {
      assert Live(g, i, j);
    }
  }

  /** The slot a seeded `random.choice` over the live-alien list picks. */
  function ChosenAlien(g: Grid, choice: nat): (a: Alien)
    requires |LiveAliens(g)| > 0
    ensures exists i, j :: Live(g, i, j) && g[i][j] == Some(a)
  {
    var a := LiveAliens(g)[choice % |LiveAliens(g)|];
    ListedAlienLive(g, a);
    a
  }

  /** Every live alien is the one some seed picks. */
  lemma EveryAlienCanShoot(g: Grid, i: nat, j: nat)
    requires Live(g, i, j)
    ensures |LiveAliens(g)| > 0 && exists choice: nat :: ChosenAlien(g, choice) == g[i][j].value
  {
    LiveAlienListed(g, i, j);
    var n := |LiveAliens(g)|;
    var k :| 0 <= k < n && LiveAliens(g)[k] == g[i][j].value;
    ModSmall(k, n);
    assert ChosenAlien(g, k) == g[i][j].value;
  }

  /** Every shot moved down by d (`move_shots`); nothing moves sideways. */
  function ShotsDropped(shots: seq<Point>, d: real): (r: seq<Point>)
    ensures |r| == |shots|
  {
    seq(|shots|, k requires 0 <= k < |shots| => Point(shots[k].x, shots[k].y - d))
  }

  /** Both grids of a formation moved alike. */
  method ShiftFormation(a: Grid, b: Grid, dx: real, dy: real) returns (ra: Grid, rb: Grid)
    requires Formation(a, b)
    ensures ra == Translate(a, dx, dy) && rb == Translate(b, dx, dy)
    ensures Formation(ra, rb) && |LiveAliens(ra)| == |LiveAliens(a)|
  {
    TranslateKeepsFormation(a, b, dx, dy);
    ra := ShiftGrid(a, dx, dy);
    rb := ShiftGrid(b, dx, dy);
  }

  // ---------------------------------------------------------------------
  // The alien formation object.

  /**
   * The alien formation: two grids of the same aliens drawn with two images
   * (`shipList` and `shipListMoving`, one of them shown), the shots the
   * aliens have fired, and the counters and flags the game loop reads.
   */
  class AlienShips {
    const screenW: real
    const screenH: real
    /** Width and height of the first alien image. */
    const alienW: real
    const alienH: real
    const spacingX: real
    const spacingY: real
    const imgs: seq<Sprite>
    const imgsMoving: seq<Sprite>

    var shipList: Grid
    var shipListMoving: Grid
    var shotsFired: seq<Point>
    var originalColumnLength: nat
    var aliensLeft: int
    var firstShapeList: bool
    var movingRight: bool
    var lastShip: bool
    var noMoreShips: bool

    /** The fixed configuration: spacings derived from the screen, three row images. */
    ghost predicate Configured()
      reads this
    {
      spacingX == screenW / 17.0 && spacingY == screenH / 15.0 &&
      spacingX > 0.0 && spacingY > 0.0 &&
      |imgs| >= 3 && |imgsMoving| >= 3
    }

    /** Two twin grids, and counters and flags that agree with them. */
    ghost predicate Tracking()
      reads this
    {
      Formation(shipList, shipListMoving) &&
      aliensLeft == |LiveAliens(shipList)| &&
      lastShip == (aliensLeft == 1) && noMoreShips == (aliensLeft == 0)
    }

    ghost predicate Valid()
      reads this
    {
      Configured() && originalColumnLength == Columns && Tracking()
    }

    /** The grid currently shown. */
    function Visible(): Grid
      reads this
    {
      if firstShapeList then shipList else shipListMoving
    }

    /** The grid not shown, which is the one shown before the last switch of images. */
    function Hidden(): Grid
      reads this
    {
      if firstShapeList then shipListMoving else shipList
    }

    /** The shown grid is a twin of `shipList`, with the same live slots. */
    lemma VisibleTwin()
      requires Valid()
      ensures Twins(shipList, Visible()) && Twins(Visible(), shipList)
      ensures Widths(Visible()) && RowsHaveLive(Visible()) && Ordered(Visible())
      ensures forall i, j :: Live(shipList, i, j) <==> Live(Visible(), i, j)
    {
      TwinsSymmetric(shipList, shipListMoving);
      TwinsLive(shipList, Visible());
    }

    constructor (screenW: real, screenH: real, imgs: seq<Sprite>, imgsMoving: seq<Sprite>, alienW: real, alienH: real)
      requires screenW > 0.0 && screenH > 0.0 && |imgs| >= 3 && |imgsMoving| >= 3
      ensures Valid()
      ensures this.screenW == screenW && this.screenH == screenH && this.alienW == alienW && this.alienH == alienH
      ensures this.imgs == imgs && this.imgsMoving == imgsMoving
      ensures shipList == Layout(screenW, screenH, spacingX, spacingY, imgs)
      ensures shipListMoving == Layout(screenW, screenH, spacingX, spacingY, imgsMoving)
      ensures shotsFired == [] && aliensLeft == Rows * Columns
      ensures firstShapeList && movingRight && !lastShip && !noMoreShips
    {
      this.screenW := screenW;
      this.screenH := screenH;
      this.alienW := alienW;
      this.alienH := alienH;
      this.imgs := imgs;
      this.imgsMoving := imgsMoving;
      spacingX := screenW / 17.0;
      spacingY := screenH / 15.0;
      new;
      PlaceAliens();
      shotsFired := [];
      originalColumnLength := |shipList[0]|;
    }

    /**
     * The part `__init__` and `reset_alien_ships` share: both grids drawn
     * afresh at their starting positions, all 55 aliens counted, the flags
     * cleared.
     */
    method PlaceAliens()
      requires Configured()
      modifies this`shipList, this`shipListMoving, this`aliensLeft
      modifies this`firstShapeList, this`movingRight, this`lastShip, this`noMoreShips
      ensures Tracking()
      ensures shipList == Layout(screenW, screenH, spacingX, spacingY, imgs)
      ensures shipListMoving == Layout(screenW, screenH, spacingX, spacingY, imgsMoving)
      ensures aliensLeft == Rows * Columns
      ensures firstShapeList && movingRight && !lastShip && !noMoreShips
    {
      var grid := CreateAllAliens(imgs);
      var gridMoving := CreateAllAliens(imgsMoving);
      LayoutIsFormation(screenW, screenH, spacingX, spacingY, imgs, imgsMoving);
      shipList := grid;
      shipListMoving := gridMoving;
      firstShapeList := true;
      movingRight := true;
      lastShip := false;
      noMoreShips := false;
      aliensLeft := |shipList| * |shipList[0]|;
    }

    /** `reset_alien_ships`: the formation back at its start; the shots are kept. */
    method ResetAlienShips()
      requires Valid()
      modifies this`shipList, this`shipListMoving, this`aliensLeft
      modifies this`firstShapeList, this`movingRight, this`lastShip, this`noMoreShips
      ensures Valid()
      ensures shipList == Layout(screenW, screenH, spacingX, spacingY, imgs)
      ensures shipListMoving == Layout(screenW, screenH, spacingX, spacingY, imgsMoving)
      ensures aliensLeft == Rows * Columns
      ensures firstShapeList && movingRight && !lastShip && !noMoreShips
    {
      PlaceAliens();
    }

    /** `create_all_aliens`: the 5 by 11 starting grid drawn with `imgList`. */
    method CreateAllAliens(imgList: seq<Sprite>) returns (g: Grid)
      requires |imgList| >= 3
      ensures g == Layout(screenW, screenH, spacingX, spacingY, imgList)
    {
      var containerX := spacingX * 11.0;
      var leftOffset := -screenW / 2.0 + (screenW - containerX) / 2.0;
      var initialX := leftOffset + spacingX / 2.0;
      var startingX := initialX;
      var containerY := spacingY * 5.0;
      var topOffset := screenH / 2.0 - containerY / 2.0;
      var initialY := topOffset - spacingY / 2.0;
      var startingY := initialY;
      ghost var want := Layout(screenW, screenH, spacingX, spacingY, imgList);
      g := [];
      for i := 0 to Rows
        invariant |g| == i && startingX == initialX
        invariant startingY == initialY - (i as real) * spacingY
        invariant forall i' :: 0 <= i' < i ==> g[i'] == want[i']
      {
        var img := if i < 1 then imgList[0] else if i < 3 then imgList[1] else imgList[2];
        var row: seq<Option<Alien>> := [];
        for j := 0 to Columns
          invariant |row| == j
          invariant startingX == initialX + (j as real) * spacingX
          invariant forall j' :: 0 <= j' < j ==> row[j'] == want[i][j']
        {
          assert startingX == ColumnX(screenW, spacingX, j) && startingY == RowY(screenH, spacingY, i);
          row := row + [Some(Alien(startingX, startingY, img))];
          startingX := startingX + spacingX;
        }
        g := g + [row];
        startingY := startingY - spacingY;
        startingX := initialX;
      }
    }
  
    /** `get_highest_y_axis`: the y of the top row, which no live alien is above. */
    function GetHighestYAxis(): (y: real)
      reads this
      requires Valid() && aliensLeft > 0
      ensures exists i, j :: Live(shipList, i, j) && shipList[i][j].value.y == y
      ensures forall i, j :: Live(shipList, i, j) ==> shipList[i][j].value.y <= y
    {
      LiveIffRows(shipList);
      RowHeadSlot(shipList, 0);
      RowAliens(shipList[0])[0].y
    }

    /** `get_lowest_y_axis`: the y of the bottom row, which no live alien is below. */
    function GetLowestYAxis(): (y: real)
      reads this
      requires Valid() && aliensLeft > 0
      ensures exists i, j :: Live(shipList, i, j) && shipList[i][j].value.y == y
      ensures forall i, j :: Live(shipList, i, j) ==> y <= shipList[i][j].value.y
    {
      LiveIffRows(shipList);
      RowHeadSlot(shipList, |shipList| - 1);
      RowAliens(shipList[|shipList| - 1])[0].y
    }

    /** `get_lowest_visible_aliens`: the lowest shown alien of every column, left to right. */
    method GetLowestVisibleAliens() returns (lowest: seq<Alien>)
      requires Valid()
      ensures lowest == Frontier(Visible(), Columns)
    {
      assert Widths(Visible());
      var aliens := if firstShapeList then shipList else shipListMoving;
      lowest := [];
      for j := 0 to originalColumnLength
        invariant lowest == Frontier(aliens, j)
      {
        var lowestI: Option<nat> := None;
        for i := 0 to |aliens|
          invariant lowestI == LowestIn(aliens, j, i)
        {
          if aliens[i][j].Some? {
            lowestI := Some(i);
          }
        }
        LowestInIsLowest(aliens, j, |aliens|);
        if lowestI.Some? {
          lowest := lowest + [aliens[lowestI.value][j].value];
        }
      }
    }

    /**
     * The hit branch of `check_shot_in_range`: slot (i, j) emptied in both
     * grids, the count and flags updated, and the row deleted from both
     * grids when that left it empty.
     */
    method DestroyAlien(i: nat, j: nat)
      requires Valid() && Live(Visible(), i, j)
      modifies this`shipList, this`shipListMoving, this`aliensLeft, this`lastShip, this`noMoreShips
      ensures Valid()
      ensures Live(old(shipList), i, j) && Live(old(shipListMoving), i, j)
      ensures shipList == RemoveSlot(old(shipList), i, j)
      ensures shipListMoving == RemoveSlot(old(shipListMoving), i, j)
      ensures aliensLeft == old(aliensLeft) - 1
    {
      HitBookkeeping(shipList, shipListMoving, Visible(), i, j);
      var grid := NullSlot(shipList, i, j);
      var gridMoving := NullSlot(shipListMoving, i, j);
      var left := aliensLeft - 1;
      var last := lastShip;
      var none := noMoreShips;
      if left == 1 {
        last := true;
      }
      var emptied := AllNone(if firstShapeList then grid[i] else gridMoving[i]);
      if emptied {
        grid := DeleteRow(grid, i);
        gridMoving := DeleteRow(gridMoving, i);
      }
      assert grid == RemoveSlot(shipList, i, j) && gridMoving == RemoveSlot(shipListMoving, i, j);
      if left == 0 {
        last := false;
        none := true;
      }
      assert last == (left == 1) && none == (left == 0);
      shipList, shipListMoving, aliensLeft, lastShip, noMoreShips := grid, gridMoving, left, last, none;
    }

    /**
     * `check_shot_in_range`: a shot at (shotX, shotY) destroys the first
     * alien in range on the lowest row level with it, in both grids; a row
     * left empty is deleted.
     */
    method CheckShotInRange(shotY: real, shotX: real) returns (hit: bool)
      requires Valid()
      modifies this`shipList, this`shipListMoving, this`aliensLeft, this`lastShip, this`noMoreShips
      ensures Valid()
      ensures var h := HitFrom(old(Visible()), shotX, shotY, alienW / 2.0, alienH / 2.0, |old(Visible())|);
        hit == h.Some? &&
        (h.Some? ==>
          Live(old(shipList), h.value.0, h.value.1) && Live(old(shipListMoving), h.value.0, h.value.1) &&
          shipList == RemoveSlot(old(shipList), h.value.0, h.value.1) &&
          shipListMoving == RemoveSlot(old(shipListMoving), h.value.0, h.value.1) &&
          aliensLeft == old(aliensLeft) - 1) &&
        (h.None? ==>
          shipList == old(shipList) && shipListMoving == old(shipListMoving) && aliensLeft == old(aliensLeft))
    {
      VisibleTwin();
      var aliens := if firstShapeList then shipList else shipListMoving;
      var found := FindHit(aliens, shotX, shotY, alienW / 2.0, alienH / 2.0);
      hit := found.Some?;
      if hit {
        HitFromIsLowest(aliens, shotX, shotY, alienW / 2.0, alienH / 2.0, |aliens|);
        DestroyAlien(found.value.0, found.value.1);
      }
    }

    /**
     * `check_hit_wall`: true exactly when a step of the wall margin towards
     * the side the formation is heading keeps every alien's image on screen.
     * The furthest slot is found in the shown grid and read in `shipList`.
     */
    method CheckHitWall() returns (ok: bool)
      requires Valid() && aliensLeft > 0
      ensures ok == ClearOfWalls(shipList, movingRight, alienW / 2.0, screenW)
    {
      TwinsSymmetric(shipList, shipListMoving);
      TwinsLive(shipList, Visible());
      LiveIffRows(shipList);
      var current := if firstShapeList then shipList else shipListMoving;
      var move: real;
      var positiveNegative: real;
      var fr: nat, fc: nat;
      if movingRight {
        move := WallMargin;
        positiveNegative := 1.0;
        fr, fc := FurthestRightIndex(current);
      } else {
        move := -WallMargin;
        positiveNegative := -1.0;
        RowHeadSlot(current, 0);
        fr, fc := FurthestLeftIndex(current);
      }
      FurthestDecidesWall(shipList, movingRight, fr, fc, alienW / 2.0, screenW);
      var edge := shipList[fr][fc].value.x + positiveNegative * alienW / 2.0 + move;
      if movingRight {
        ok := !(edge > positiveNegative * screenW / 2.0);
      } else {
        ok := !(edge < positiveNegative * screenW / 2.0);
      }
    }

    /**
     * `move`: a sideways step of `moveAmount` towards the current side when
     * the wall test passes; otherwise a drop of two thirds of a row spacing
     * and a turn. Both grids move alike; the result says the wall was hit.
     */
    method Move(moveAmount: real) returns (hitWall: bool)
      requires Valid() && aliensLeft > 0
      modifies this`shipList, this`shipListMoving, this`movingRight
      ensures Valid()
      ensures hitWall == !ClearOfWalls(old(shipList), old(movingRight), alienW / 2.0, screenW)
      ensures movingRight == (old(movingRight) != hitWall)
      ensures var dx := if hitWall then 0.0 else if old(movingRight) then moveAmount else -moveAmount;
        var dy := if hitWall then -(spacingY / 1.5) else 0.0;
        shipList == Translate(old(shipList), dx, dy) && shipListMoving == Translate(old(shipListMoving), dx, dy)
    {
      var direction := if movingRight then moveAmount else -moveAmount;
      var clear := CheckHitWall();
      hitWall := !clear;
      var dx := if clear then direction else 0.0;
      var dy := if clear then 0.0 else -(spacingY / 1.5);
      var a, b := ShiftFormation(shipList, shipListMoving, dx, dy);
      shipList, shipListMoving, movingRight := a, b, movingRight != hitWall;
    }

    /** `switch_ships`: the hidden grid becomes the shown one. */
    method SwitchShips(switch: bool)
      requires Valid()
      modifies this`firstShapeList
      ensures Valid()
      ensures firstShapeList == !old(firstShapeList)
      ensures Visible() == if old(firstShapeList) then shipListMoving else shipList
    {
      if firstShapeList {
        firstShapeList := false;
      } else {
        firstShapeList := true;
      }
    }

    /**
     * `random_shot`: the live aliens of `shipList` listed row by row, one of
     * them picked by the seed, and a shot added half an image below it.
     */
    method RandomShot(choice: nat)
      requires Valid() && aliensLeft > 0
      modifies this`shotsFired
      ensures var a := ChosenAlien(shipList, choice);
        shotsFired == old(shotsFired) + [Point(a.x, a.y - alienH / 2.0)]
    {
      var available: seq<Alien> := [];
      for i := 0 to |shipList|
        invariant available == LiveAliens(shipList[..i])
      {
        var row := shipList[i];
        for j := 0 to |row|
          invariant available == LiveAliens(shipList[..i]) + RowAliens(row[..j])
        {
          assert row[..j + 1][..j] == row[..j];
          if row[j].Some? {
            available := available + [row[j].value];
          }
        }
        assert row[..|row|] == row;
        assert shipList[..i + 1][..i] == shipList[..i];
      }
      assert shipList[..|shipList|] == shipList;
      var ship := available[choice % |available|];
      shotsFired := shotsFired + [Point(ship.x, ship.y - alienH / 2.0)];
    }

    /** `move_shots`: every alien shot moved down by `moveAmount`. */
    method MoveShots(moveAmount: real)
      modifies this`shotsFired
      ensures shotsFired == ShotsDropped(old(shotsFired), moveAmount)
    {
      if |shotsFired| > 0 {
        for k := 0 to |shotsFired|
          invariant |shotsFired| == |old(shotsFired)|
          invariant forall k' :: 0 <= k' < k ==> shotsFired[k'] == ShotsDropped(old(shotsFired), moveAmount)[k']
          invariant forall k' :: k <= k' < |shotsFired| ==> shotsFired[k'] == old(shotsFired)[k']
        {
          shotsFired := shotsFired[k := Point(shotsFired[k].x, shotsFired[k].y - moveAmount)];
        }
      }
    }

    /** `remove_all_shots`: no alien shot is left. */
    method RemoveAllShots()
      modifies this`shotsFired
      ensures shotsFired == []
    {
      shotsFired := [];
    }
  }
}
