/** The occupancy grid of a map, and the check that a pose keeps its distance from obstacles. */
module GridMaps {

  /** The grid as a value: its size, the (row, column) pairs that are occupied, and its place in the
      world.  Row 0 is at the top of the image, the origin at its bottom left. */
  datatype Grid = Grid(height: nat, width: nat, occupied: set<(int, int)>, resolution: real, originX: real,
                       originY: real) {
    ghost predicate Valid() {
      resolution > 0.0 && forall p | p in occupied :: 0 <= p.0 < height && 0 <= p.1 < width
    }
  }

  /** Where the map ends, along x and along y. */
  function Bounds(height: nat, width: nat, resolution: real, originX: real, originY: real)
      : ((real, real), (real, real)) {
    ((originX, width as real * resolution + originX), (originY, height as real * resolution + originY))
  }

  // ----- The check -----

  function Ceiling(x: real): int {
    -((-x).Floor)
  }

  /** Column and row of the world point. */
  function ToImage(g: Grid, x: real, y: real): (int, int)
    requires g.resolution > 0.0
  {
    (((x - g.originX) / g.resolution).Floor, g.height - ((y - g.originY) / g.resolution).Floor)
  }

  /** Where a slice bound of a sequence of n elements falls: negative ones count from the end, and
      all are clipped. */
  function SliceBound(i: int, n: nat): (b: int)
    ensures 0 <= b <= n
  {
    if i >= n then n else if i >= 0 then i else if i + n >= 0 then i + n else 0
  }

  /** The cell at (row, column) is in the patch around the image point. */
  predicate InPatch(g: Grid, point: (int, int), d: int, row: int, col: int) {
    var rowStart := if point.1 - d < 0 then 0 else point.1 - d;
    var colStart := if point.0 - d < 0 then 0 else point.0 - d;
    && SliceBound(rowStart, g.height) <= row < SliceBound(point.1 + d, g.height)
    && SliceBound(colStart, g.width) <= col < SliceBound(point.0 + d, g.width)
  }

  predicate ObstacleInDistance(g: Grid, point: (int, int), d: int) {
    exists p | p in g.occupied :: InPatch(g, point, d, p.0, p.1)
  }

  predicate ValidPose(g: Grid, x: real, y: real, distance: real)
    requires g.resolution > 0.0
  {
    !ObstacleInDistance(g, ToImage(g, x, y), Ceiling(distance / g.resolution))
  }

  // ----- World coordinates -----

  /** The world cell of a grid entry, counted from the origin to the right and upwards. */
  function CellX(g: Grid, p: (int, int)): int { p.1 }

  function CellY(g: Grid, p: (int, int)): int { g.height - 1 - p.0 }

  /** The world cell a coordinate falls into. */
  function CellOf(g: Grid, x: real, origin: real): int
    requires g.resolution > 0.0
  {
    ((x - origin) / g.resolution).Floor
  }

  function Radius(g: Grid, distance: real): int
    requires g.resolution > 0.0
  {
    Ceiling(distance / g.resolution)
  }

  /** The cell of p is in the square of side 2d whose lower left quarter ends at the point's cell. */
  predicate InSquare(g: Grid, p: (int, int), x: real, y: real, distance: real)
    requires g.resolution > 0.0
  {
    var d := Radius(g, distance);
    && CellOf(g, x, g.originX) - d <= CellX(g, p) < CellOf(g, x, g.originX) + d
    && CellOf(g, y, g.originY) - d <= CellY(g, p) < CellOf(g, y, g.originY) + d
  }

  /** Neither end of the patch is off the map so far that it would be counted from the other side. */
  predicate NotWrapped(g: Grid, x: real, y: real, distance: real)
    requires g.resolution > 0.0
  {
    CellOf(g, x, g.originX) + Radius(g, distance) >= 0 && CellOf(g, y, g.originY) - Radius(g, distance) <= g.height
  }

  lemma PatchIsSquare(g: Grid, p: (int, int), x: real, y: real, distance: real)
    requires g.Valid() && p in g.occupied && NotWrapped(g, x, y, distance)
    ensures InPatch(g, ToImage(g, x, y), Radius(g, distance), p.0, p.1) <==> InSquare(g, p, x, y, distance)
  {
  }

  /** What is inspected is exactly the square around the point, in world coordinates: the flip of the
      rows and the half-open slices cancel. */
  lemma ValidIffSquareFree(g: Grid, x: real, y: real, distance: real)
    requires g.Valid() && NotWrapped(g, x, y, distance)
    ensures ValidPose(g, x, y, distance) <==> forall p | p in g.occupied :: !InSquare(g, p, x, y, distance)
  {
    forall p | p in g.occupied
      ensures InPatch(g, ToImage(g, x, y), Radius(g, distance), p.0, p.1) <==> InSquare(g, p, x, y, distance)
    {
      PatchIsSquare(g, p, x, y, distance);
    }
  }

  /** What is inspected when a bound is counted from the other side: the square, with its right edge
      moved to the right by the width of the map, or its lower edge moved down by the height. */
  predicate InWrapped(g: Grid, p: (int, int), x: real, y: real, distance: real)
    requires g.resolution > 0.0
  {
    var fx, fy, d := CellOf(g, x, g.originX), CellOf(g, y, g.originY), Radius(g, distance);
    && fx - d <= CellX(g, p) < (if fx + d < 0 then fx + d + g.width else fx + d)
    && (if fy - d > g.height then fy - d - g.height else fy - d) <= CellY(g, p) < fy + d
  }

  lemma PatchIsWrapped(g: Grid, p: (int, int), x: real, y: real, distance: real)
    requires g.Valid() && p in g.occupied
    ensures InPatch(g, ToImage(g, x, y), Radius(g, distance), p.0, p.1) <==> InWrapped(g, p, x, y, distance)
  {
  }

  /** A finding: that far out the square holds no cell at all, yet the pose is refused exactly when
      there is an obstacle in the region with the moved edges. */
  lemma WrappedIff(g: Grid, x: real, y: real, distance: real)
    requires g.Valid() && !NotWrapped(g, x, y, distance)
    ensures forall p | p in g.occupied :: !InSquare(g, p, x, y, distance)
    ensures !ValidPose(g, x, y, distance) <==> exists p | p in g.occupied :: InWrapped(g, p, x, y, distance)
  {
    forall p | p in g.occupied
      ensures InPatch(g, ToImage(g, x, y), Radius(g, distance), p.0, p.1) <==> InWrapped(g, p, x, y, distance)
    {
      PatchIsWrapped(g, p, x, y, distance);
    }
    hide InPatch, InWrapped;
  }

  // ----- Clearance -----

  /** How far a coordinate is from an interval. */
  function Gap(x: real, lo: real, hi: real): real {
    if x < lo then lo - x else if x > hi then x - hi else 0.0
  }

  function Times(a: real, r: real): real {
    a * r
  }

  /** The width of n cells. */
  function Width(g: Grid, n: int): real {
    Times(n as real, g.resolution)
  }

  function CellGap(g: Grid, x: real, origin: real, cell: int): real {
    Gap(x, origin + Width(g, cell), origin + Width(g, cell + 1))
  }

  /** The maximum-norm distance between the point and the cell of p. */
  function Clearance(g: Grid, p: (int, int), x: real, y: real): real {
    var a, b := CellGap(g, x, g.originX, CellX(g, p)), CellGap(g, y, g.originY, CellY(g, p));
    if a < b then b else a
  }

  lemma TimesOrder(a: real, b: real, r: real)
    requires r > 0.0
    ensures a <= b <==> Times(a, r) <= Times(b, r)
  {
    if a < b {
      assert (b - a) * r > 0.0;
    } else if b < a {
      assert (a - b) * r > 0.0;
    }
  }

  lemma TimesSum(a: real, b: real, r: real)
    ensures Times(a + b, r) == Times(a, r) + Times(b, r)
    ensures Times(a - b, r) == Times(a, r) - Times(b, r)
    ensures Times(1.0, r) == r && Times(0.0, r) == 0.0
  {
  }

  lemma TimesQuotient(a: real, r: real)
    requires r > 0.0
    ensures Times(a / r, r) == a
  {
  }

  lemma FloorBounds(a: real, r: real)
    requires r > 0.0
    ensures var w := Times((a / r).Floor as real, r); w <= a < w + r
  {
    hide Times;
    var q := a / r;
    var f := q.Floor as real;
    TimesQuotient(a, r);
    TimesOrder(f, q, r);
    TimesOrder(f + 1.0, q, r);
    TimesSum(f, 1.0, r);
  }

  lemma CeilingBounds(a: real, r: real)
    requires r > 0.0
    ensures var w := Times(Ceiling(a / r) as real, r); w - r < a <= w
  {
    hide Times;
    var q := a / r;
    var f := Ceiling(q) as real;
    TimesQuotient(a, r);
    TimesOrder(q, f, r);
    TimesOrder(q, f - 1.0, r);
    TimesSum(f, 1.0, r);
  }

  lemma CellOfBounds(g: Grid, x: real, origin: real)
    requires g.resolution > 0.0
    ensures var w := Width(g, CellOf(g, x, origin)); w <= x - origin < w + g.resolution
  {
    FloorBounds(x - origin, g.resolution);
  }

  lemma RadiusBounds(g: Grid, distance: real)
    requires g.resolution > 0.0
    ensures var w := Width(g, Radius(g, distance)); w - g.resolution < distance <= w
  {
    CeilingBounds(distance, g.resolution);
  }

  lemma Widths(g: Grid, m: int, n: int)
    requires g.resolution > 0.0
    ensures m <= n <==> Width(g, m) <= Width(g, n)
    ensures Width(g, m + n) == Width(g, m) + Width(g, n) && Width(g, m - n) == Width(g, m) - Width(g, n)
    ensures Width(g, 1) == g.resolution && Width(g, 0) == 0.0
  {
    hide Times;
    TimesOrder(m as real, n as real, g.resolution);
    TimesSum(m as real, n as real, g.resolution);
  }

  /** Along one axis: outside the square there is more than the distance less one cell, inside it
      less than the distance plus one cell. */
  lemma AxisBounds(g: Grid, x: real, origin: real, cell: int, distance: real)
    requires g.resolution > 0.0
    ensures var f, d := CellOf(g, x, origin), Radius(g, distance);
            && (cell < f - d || f + d <= cell ==> CellGap(g, x, origin, cell) > distance - g.resolution)
            && (f - d <= cell < f + d && distance > 0.0 ==> CellGap(g, x, origin, cell) < distance + g.resolution)
  {
    hide CellOf, Radius, Width;
    var f, d := CellOf(g, x, origin), Radius(g, distance);
    CellOfBounds(g, x, origin);
    RadiusBounds(g, distance);
    CellEdges(g, f, d, cell);
  }

  lemma CellEdges(g: Grid, f: int, d: int, cell: int)
    requires g.resolution > 0.0
    ensures Width(g, cell + 1) == Width(g, cell) + g.resolution
    ensures f + d <= cell <==> Width(g, f) + Width(g, d) <= Width(g, cell)
    ensures cell < f + d <==> Width(g, cell + 1) <= Width(g, f) + Width(g, d)
    ensures f - d <= cell <==> Width(g, f) - Width(g, d) <= Width(g, cell)
    ensures cell < f - d <==> Width(g, cell + 1) <= Width(g, f) - Width(g, d)
    ensures Width(g, f + d) == Width(g, f) + Width(g, d)
  {
    hide Width;
    Widths(g, cell, 1);
    Widths(g, f, d);
    Widths(g, f + d, cell);
    Widths(g, cell + 1, f + d);
    Widths(g, f - d, cell);
    Widths(g, cell + 1, f - d);
  }

  /** A pose that is accepted is further from every obstacle than the distance less one cell; one that
      is refused has an obstacle nearer than the distance plus one cell. */
  lemma ClearanceBounds(g: Grid, x: real, y: real, distance: real)
    requires g.Valid() && NotWrapped(g, x, y, distance) && distance > 0.0
    ensures ValidPose(g, x, y, distance) ==>
              forall p | p in g.occupied :: Clearance(g, p, x, y) > distance - g.resolution
    ensures !ValidPose(g, x, y, distance) ==>
              exists p :: p in g.occupied && Clearance(g, p, x, y) < distance + g.resolution
  {
    hide ValidPose, CellOf, Radius, CellGap;
    ValidIffSquareFree(g, x, y, distance);
    forall p | p in g.occupied
      ensures !InSquare(g, p, x, y, distance) ==> Clearance(g, p, x, y) > distance - g.resolution
      ensures InSquare(g, p, x, y, distance) ==> Clearance(g, p, x, y) < distance + g.resolution
    {
      AxisBounds(g, x, g.originX, CellX(g, p), distance);
      AxisBounds(g, y, g.originY, CellY(g, p), distance);
    }
  }

  /** For instance, a point two cells to the left of a map with an obstacle in its leftmost cell is
      refused at distance one. */
  lemma FarOffRefused()
    ensures var g := Grid(1, 3, {(0, 0)}, 1.0, 0.0, 0.0);
            g.Valid() && !ValidPose(g, -2.0, 0.5, 1.0) && Clearance(g, (0, 0), -2.0, 0.5) == 2.0
  {
    var g := Grid(1, 3, {(0, 0)}, 1.0, 0.0, 0.0);
    assert (0, 0) in g.occupied && InPatch(g, ToImage(g, -2.0, 0.5), 1, 0, 0);
  }

  // ----- When the full distance is kept -----

  /** How much further than the distance the square reaches on the far side. */
  function Slack(g: Grid, x: real, origin: real, distance: real): real
    requires g.resolution > 0.0
  {
    origin + Width(g, CellOf(g, x, origin) + Radius(g, distance)) - x - distance
  }

  lemma AxisKeeps(g: Grid, x: real, origin: real, cell: int, distance: real)
    requires g.resolution > 0.0 && distance > 0.0
    ensures var f, d := CellOf(g, x, origin), Radius(g, distance);
            && (Slack(g, x, origin, distance) >= 0.0 && (cell < f - d || f + d <= cell) ==>
                CellGap(g, x, origin, cell) >= distance)
            && (Slack(g, x, origin, distance) < 0.0 && cell == f + d ==> CellGap(g, x, origin, cell) < distance)
            && (cell == f ==> CellGap(g, x, origin, cell) == 0.0)
  {
    hide CellOf, Radius, Width;
    var f, d := CellOf(g, x, origin), Radius(g, distance);
    CellOfBounds(g, x, origin);
    RadiusBounds(g, distance);
    CellEdges(g, f, d, cell);
  }

  /** If the map accepts the pose, every obstacle is at least the distance away. */
  ghost predicate KeepsDistance(g: Grid, x: real, y: real, distance: real) {
    g.Valid() && NotWrapped(g, x, y, distance) && ValidPose(g, x, y, distance) ==>
      forall p | p in g.occupied :: Clearance(g, p, x, y) >= distance
  }

  /** The map with a single obstacle, at a given world cell. */
  function OneObstacle(g: Grid, cellX: nat, cellY: nat): Grid {
    g.(height := cellY + 1, width := cellX + 1, occupied := {(0, cellX)})
  }

  /** A finding: accepted poses do not always keep the distance.  Maps with the same resolution and
      origin keep it for a given point, whatever their size and their obstacles, exactly when the point
      is off them by at least the distance to the left or below, or the square reaches at least as far
      as the distance to the right and above. */
  lemma KeepsDistanceIff(g: Grid, x: real, y: real, distance: real)
    requires g.resolution > 0.0 && distance > 0.0
    ensures (forall h: Grid | h.resolution == g.resolution && h.originX == g.originX && h.originY == g.originY ::
               KeepsDistance(h, x, y, distance)) <==>
            || x <= g.originX - distance || y <= g.originY - distance
            || (Slack(g, x, g.originX, distance) >= 0.0 && Slack(g, y, g.originY, distance) >= 0.0)
  {
    hide CellGap, KeepsDistance, Slack;
    if Slack(g, x, g.originX, distance) >= 0.0 && Slack(g, y, g.originY, distance) >= 0.0 {
      forall h: Grid | h.resolution == g.resolution && h.originX == g.originX && h.originY == g.originY
        ensures KeepsDistance(h, x, y, distance)
      {
        SlackSuffices(g, h, x, y, distance);
      }
    } else if x <= g.originX - distance || y <= g.originY - distance {
      forall h: Grid | h.resolution == g.resolution && h.originX == g.originX && h.originY == g.originY
        ensures KeepsDistance(h, x, y, distance)
      {
        FarIsKept(h, x, y, distance);
      }
    } else if Slack(g, x, g.originX, distance) < 0.0 {
      NearOnTheRight(g, x, y, distance);
    } else {
      NearAbove(g, x, y, distance);
    }
  }

  /** Off the map by the distance, no cell is nearer. */
  lemma FarIsKept(h: Grid, x: real, y: real, distance: real)
    requires h.resolution > 0.0 && distance > 0.0 && (x <= h.originX - distance || y <= h.originY - distance)
    ensures KeepsDistance(h, x, y, distance)
  {
    hide ValidPose, Width;
    if h.Valid() {
      forall p | p in h.occupied
        ensures Clearance(h, p, x, y) >= distance
      {
        Widths(h, 0, CellX(h, p));
        Widths(h, 0, CellY(h, p));
      }
    }
  }

  lemma SlackSuffices(g: Grid, h: Grid, x: real, y: real, distance: real)
    requires g.resolution > 0.0 && distance > 0.0
    requires h.resolution == g.resolution && h.originX == g.originX && h.originY == g.originY
    requires Slack(g, x, g.originX, distance) >= 0.0 && Slack(g, y, g.originY, distance) >= 0.0
    ensures KeepsDistance(h, x, y, distance)
  {
    hide ValidPose, CellGap, Slack, NotWrapped;
    SameSlack(g, h, x, distance, g.originX);
    SameSlack(g, h, y, distance, g.originY);
    if h.Valid() && NotWrapped(h, x, y, distance) && ValidPose(h, x, y, distance) {
      ValidIffSquareFree(h, x, y, distance);
      forall p | p in h.occupied
        ensures Clearance(h, p, x, y) >= distance
      {
        assert !InSquare(h, p, x, y, distance);
        AxisKeeps(h, x, h.originX, CellX(h, p), distance);
        AxisKeeps(h, y, h.originY, CellY(h, p), distance);
      }
    }
  }

  lemma SameSlack(g: Grid, h: Grid, x: real, distance: real, origin: real)
    requires g.resolution > 0.0 && h.resolution == g.resolution
    ensures Slack(h, x, origin, distance) == Slack(g, x, origin, distance)
    ensures CellOf(h, x, origin) == CellOf(g, x, origin) && Radius(h, distance) == Radius(g, distance)
  {
  }

  /** The cell of the map that is nearest to the coordinate, along one axis and upwards. */
  function NearestCell(g: Grid, x: real, origin: real): nat
    requires g.resolution > 0.0
  {
    if CellOf(g, x, origin) >= 0 then CellOf(g, x, origin) else 0
  }

  lemma NearestIsNear(g: Grid, x: real, origin: real, distance: real)
    requires g.resolution > 0.0 && distance > 0.0 && x > origin - distance
    ensures CellGap(g, x, origin, NearestCell(g, x, origin)) < distance
    ensures CellOf(g, x, origin) + Radius(g, distance) >= 0 && Radius(g, distance) > 0
  {
    hide CellOf, Radius, Width;
    var f, d := CellOf(g, x, origin), Radius(g, distance);
    CellOfBounds(g, x, origin);
    RadiusBounds(g, distance);
    Widths(g, 0, d);
    Widths(g, d, 0);
    Widths(g, f, 1);
    Widths(g, f + 1, d);
    Widths(g, f + 1 + d, 0);
    Widths(g, 0, 1);
  }

  lemma SameGap(g: Grid, h: Grid, x: real, origin: real, cell: int)
    requires h.resolution == g.resolution
    ensures CellGap(h, x, origin, cell) == CellGap(g, x, origin, cell)
  {
  }

  lemma NearOnTheRight(g: Grid, x: real, y: real, distance: real)
    requires g.resolution > 0.0 && distance > 0.0 && Slack(g, x, g.originX, distance) < 0.0
    requires x > g.originX - distance && y > g.originY - distance
    ensures CellOf(g, x, g.originX) + Radius(g, distance) >= 0
    ensures !KeepsDistance(OneObstacle(g, CellOf(g, x, g.originX) + Radius(g, distance), NearestCell(g, y, g.originY)),
                           x, y, distance)
  {
    NearestIsNear(g, x, g.originX, distance);
    NearestIsNear(g, y, g.originY, distance);
    hide CellGap, Slack, KeepsDistance, Radius, CellOf;
    var cellX, cellY := CellOf(g, x, g.originX) + Radius(g, distance), NearestCell(g, y, g.originY);
    var h := OneObstacle(g, cellX, cellY);
    SameSlack(g, h, x, distance, g.originX);
    SameSlack(g, h, y, distance, g.originY);
    AxisKeeps(g, x, g.originX, cellX, distance);
    RefutedBy(g, h, (0, cellX), x, y, distance);
  }

  lemma NearAbove(g: Grid, x: real, y: real, distance: real)
    requires g.resolution > 0.0 && distance > 0.0 && Slack(g, y, g.originY, distance) < 0.0
    requires x > g.originX - distance && y > g.originY - distance
    ensures CellOf(g, y, g.originY) + Radius(g, distance) >= 0
    ensures !KeepsDistance(OneObstacle(g, NearestCell(g, x, g.originX), CellOf(g, y, g.originY) + Radius(g, distance)),
                           x, y, distance)
  {
    NearestIsNear(g, x, g.originX, distance);
    NearestIsNear(g, y, g.originY, distance);
    hide CellGap, Slack, KeepsDistance, Radius, CellOf;
    var cellX, cellY := NearestCell(g, x, g.originX), CellOf(g, y, g.originY) + Radius(g, distance);
    var h := OneObstacle(g, cellX, cellY);
    SameSlack(g, h, x, distance, g.originX);
    SameSlack(g, h, y, distance, g.originY);
    AxisKeeps(g, y, g.originY, cellY, distance);
    RefutedBy(g, h, (0, cellX), x, y, distance);
  }

  lemma RefutedBy(g: Grid, h: Grid, p: (int, int), x: real, y: real, distance: real)
    requires g.resolution > 0.0 && h.Valid() && h.resolution == g.resolution && h.originX == g.originX
             && h.originY == g.originY
    requires h.occupied == {p} && NotWrapped(h, x, y, distance) && !InSquare(h, p, x, y, distance)
    requires CellGap(g, x, g.originX, CellX(h, p)) < distance && CellGap(g, y, g.originY, CellY(h, p)) < distance
    ensures !KeepsDistance(h, x, y, distance)
  {
    hide ValidPose, InSquare, NotWrapped, CellGap;
    ValidIffSquareFree(h, x, y, distance);
    SameGap(g, h, x, g.originX, CellX(h, p));
    SameGap(g, h, y, g.originY, CellY(h, p));
    assert p in h.occupied && Clearance(h, p, x, y) < distance;
  }

  const TWO_CELLS: Grid := Grid(1, 2, {(0, 1)}, 1.0, 0.0, 0.0)

  lemma HalfAway()
    ensures Clearance(TWO_CELLS, (0, 1), 0.5, 0.5) == 0.5
  {
  }

  lemma NextCellSeen()
    ensures ToImage(TWO_CELLS, 0.5, 0.5) == (0, 1) && Ceiling(1.0 / TWO_CELLS.resolution) == 1
    ensures NotWrapped(TWO_CELLS, 0.5, 0.5, 1.0)
  {
  }

  lemma NextCellOutside()
    ensures !InPatch(TWO_CELLS, (0, 1), 1, 0, 1)
  {
  }

  /** For instance, a point in the middle of the left one of two cells is accepted at distance one,
      though the obstacle in the right cell is half that away. */
  lemma NextCellAccepted()
    ensures TWO_CELLS.Valid() && NotWrapped(TWO_CELLS, 0.5, 0.5, 1.0) && ValidPose(TWO_CELLS, 0.5, 0.5, 1.0)
    ensures (0, 1) in TWO_CELLS.occupied && Clearance(TWO_CELLS, (0, 1), 0.5, 0.5) == 0.5
  {
    hide Clearance, NotWrapped, ToImage, Ceiling, InPatch;
    HalfAway();
    NextCellSeen();
    NextCellOutside();
  }

  // ----- Points on the map -----

  /** For points on the map, or off it by no more than the distance to the left or above, the bounds
      are never counted from the other side. */
  lemma NearbyIsNotWrapped(g: Grid, x: real, y: real, distance: real)
    requires g.resolution > 0.0 && distance > 0.0
    requires g.originX - distance <= x && y <= g.originY + Width(g, g.height) + distance
    ensures NotWrapped(g, x, y, distance)
  {
    hide CellOf, Radius, Width;
    var d := Radius(g, distance);
    CellOfBounds(g, x, g.originX);
    CellOfBounds(g, y, g.originY);
    RadiusBounds(g, distance);
    Widths(g, CellOf(g, x, g.originX), d);
    Widths(g, CellOf(g, x, g.originX) + d, -1);
    Widths(g, 0, 1);
    Widths(g, g.height, d);
    Widths(g, CellOf(g, y, g.originY), g.height + d);
  }

  /** Along one axis, a coordinate is between the bounds exactly when it falls into one of the map's cells. */
  lemma OnAxisIff(g: Grid, x: real, origin: real, cells: nat)
    requires g.resolution > 0.0
    ensures origin <= x < Width(g, cells) + origin <==> 0 <= CellOf(g, x, origin) < cells
  {
    hide CellOf, Width;
    var f := CellOf(g, x, origin);
    CellOfBounds(g, x, origin);
    Widths(g, 0, f);
    Widths(g, f + 1, 0);
    Widths(g, f, 1);
    Widths(g, f + 1, cells);
    Widths(g, cells, f);
  }

  /** The bounds that goals are drawn from are those of the map: the points between them are the points
      that fall into a cell of it. */
  lemma BoundsAreTheMap(g: Grid, x: real, y: real)
    requires g.resolution > 0.0
    ensures var range := Bounds(g.height, g.width, g.resolution, g.originX, g.originY);
            range.0.0 <= x < range.0.1 && range.1.0 <= y < range.1.1 <==>
            0 <= CellOf(g, x, g.originX) < g.width && 0 <= CellOf(g, y, g.originY) < g.height
  {
    OnAxisIff(g, x, g.originX, g.width);
    OnAxisIff(g, y, g.originY, g.height);
    hide CellOf;
  }

  // ----- The map object -----

  /** A pixel counts as an obstacle when its (possibly inverted) darkness is above the threshold. */
  predicate IsOccupied(pixel: int, negate: bool, freeThresh: real) {
    (if negate then pixel as real / 255.0 else (255 - pixel) as real / 255.0) > freeThresh
  }

  function WhereInRow(row: seq<int>, r: nat, n: nat, negate: bool, freeThresh: real): (s: seq<(nat, nat)>)
    requires n <= |row|
    ensures forall p | p in s :: p.0 == r && p.1 < n
  {
    if n == 0 then []
    else
      var here: seq<(nat, nat)> := if IsOccupied(row[n - 1], negate, freeThresh) then [(r, n - 1)] else [];
      WhereInRow(row, r, n - 1, negate, freeThresh) + here
  }

  /** The (row, column) pairs of the obstacles in the first n rows of the image. */
  function Where(img: seq<seq<int>>, n: nat, negate: bool, freeThresh: real): (s: seq<(nat, nat)>)
    requires n <= |img|
    ensures forall p | p in s :: p.0 < n && p.1 < |img[p.0]|
  {
    if n == 0 then []
    else Where(img, n - 1, negate, freeThresh) + WhereInRow(img[n - 1], n - 1, |img[n - 1]|, negate, freeThresh)
  }

  lemma {:induction false} WhereInRowIff(row: seq<int>, r: nat, n: nat, negate: bool, freeThresh: real, c: nat)
    requires n <= |row|
    ensures (r, c) in WhereInRow(row, r, n, negate, freeThresh) <==> c < n && IsOccupied(row[c], negate, freeThresh)
  {
    if n > 0 { WhereInRowIff(row, r, n - 1, negate, freeThresh, c); }
  }

  lemma {:induction false} WhereIff(img: seq<seq<int>>, n: nat, negate: bool, freeThresh: real, r: nat, c: nat)
    requires n <= |img|
    ensures (r, c) in Where(img, n, negate, freeThresh) <==>
            && r < n && c < |img[r]|
            && if negate then img[r][c] as real > 255.0 * freeThresh else 255.0 - img[r][c] as real > 255.0 * freeThresh
  {
    if n > 0 {
      hide IsOccupied;
      WhereIff(img, n - 1, negate, freeThresh, r, c);
      if r == n - 1 {
        WhereInRowIff(img[r], r, |img[r]|, negate, freeThresh, c);
        if c < |img[r]| {
          OccupiedIff(img[r][c], negate, freeThresh);
        }
      }
    }
  }

  /** In terms of the brightness of the pixel. */
  lemma OccupiedIff(pixel: int, negate: bool, freeThresh: real)
    ensures IsOccupied(pixel, negate, freeThresh) <==>
            if negate then pixel as real > 255.0 * freeThresh else 255.0 - pixel as real > 255.0 * freeThresh
  {
  }

  /** Black is an obstacle and white is free; with negate it is the other way round. */
  lemma BlackAndWhite(img: seq<seq<int>>, freeThresh: real, r: nat, c: nat)
    requires r < |img| && c < |img[r]| && 0.0 <= freeThresh < 1.0
    ensures img[r][c] == 0 ==>
              (r, c) in Where(img, |img|, false, freeThresh) && (r, c) !in Where(img, |img|, true, freeThresh)
    ensures img[r][c] == 255 ==>
              (r, c) !in Where(img, |img|, false, freeThresh) && (r, c) in Where(img, |img|, true, freeThresh)
  {
    hide Where;
    WhereIff(img, |img|, false, freeThresh, r, c);
    WhereIff(img, |img|, true, freeThresh, r, c);
  }

  /** The second image has the shape of the first and is nowhere brighter. */
  ghost predicate NowhereBrighter(img: seq<seq<int>>, dark: seq<seq<int>>) {
    |dark| == |img| && forall r | 0 <= r < |img| ::
      |dark[r]| == |img[r]| && forall c | 0 <= c < |img[r]| :: dark[r][c] <= img[r][c]
  }

  /** Darkening an image frees no cell without negate, and occupies none with it. */
  lemma DarkeningFreesNothing(img: seq<seq<int>>, dark: seq<seq<int>>, freeThresh: real, r: nat, c: nat)
    requires NowhereBrighter(img, dark)
    ensures (r, c) in Where(img, |img|, false, freeThresh) ==> (r, c) in Where(dark, |dark|, false, freeThresh)
    ensures (r, c) in Where(dark, |dark|, true, freeThresh) ==> (r, c) in Where(img, |img|, true, freeThresh)
  {
    hide Where;
    WhereIff(img, |img|, false, freeThresh, r, c);
    WhereIff(img, |img|, true, freeThresh, r, c);
    WhereIff(dark, |dark|, false, freeThresh, r, c);
    WhereIff(dark, |dark|, true, freeThresh, r, c);
  }

  ghost predicate Negative(img: seq<seq<int>>, other: seq<seq<int>>) {
    |other| == |img| && forall r | 0 <= r < |img| ::
      |other[r]| == |img[r]| && forall c | 0 <= c < |img[r]| :: other[r][c] == 255 - img[r][c]
  }

  /** The flag amounts to taking the negative of the image. */
  lemma NegateIsNegative(img: seq<seq<int>>, other: seq<seq<int>>, freeThresh: real, r: nat, c: nat)
    requires Negative(img, other)
    ensures (r, c) in Where(img, |img|, true, freeThresh) <==> (r, c) in Where(other, |other|, false, freeThresh)
  {
    hide Where;
    WhereIff(img, |img|, true, freeThresh, r, c);
    WhereIff(other, |other|, false, freeThresh, r, c);
  }

  class GridMap {
    var gridMap: array2<bool>
    var resolution: real
    var originX: real
    var originY: real

    ghost predicate Valid()
      reads this
    {
      resolution > 0.0
    }

    ghost function Map(): Grid
      reads this, gridMap
    {
      Grid(gridMap.Length0, gridMap.Length1,
           set r, c | 0 <= r < gridMap.Length0 && 0 <= c < gridMap.Length1 && gridMap[r, c] :: (r, c),
           resolution, originX, originY)
    }

    /** The grid starts out free; the obstacles found in the image are then set one by one. */
    constructor (img: seq<seq<int>>, width: nat, negate: bool, freeThresh: real, resolution: real, originX: real,
                 originY: real)
      requires resolution > 0.0 && forall r | 0 <= r < |img| :: |img[r]| == width
      ensures Valid() && fresh(gridMap)
      ensures Map().height == |img| && Map().width == width && Map().Valid()
      ensures Map().resolution == resolution && Map().originX == originX && Map().originY == originY
      ensures forall r, c | 0 <= r < |img| && 0 <= c < width ::
                (r, c) in Map().occupied <==>
                if negate then img[r][c] as real > 255.0 * freeThresh
                  else 255.0 - img[r][c] as real > 255.0 * freeThresh
    {
      var grid := new bool[|img|, width]((r, c) => false);
      gridMap := grid;
      this.resolution, this.originX, this.originY := resolution, originX, originY;
      new;
      var res := Where(img, |img|, negate, freeThresh);
      for i := 0 to |res|
        invariant gridMap == grid && fresh(grid) && this.resolution == resolution && this.originX == originX
                  && this.originY == originY
        invariant forall r: nat, c: nat | r < |img| && c < width :: gridMap[r, c] <==> (r, c) in res[..i]
      {
        gridMap[res[i].0, res[i].1] := true;
        assert res[..i + 1] == res[..i] + [res[i]];
      }
      assert res[..|res|] == res;
      forall r: nat, c: nat | r < |img| && c < width
        ensures gridMap[r, c] <==>
                if negate then img[r][c] as real > 255.0 * freeThresh
                else 255.0 - img[r][c] as real > 255.0 * freeThresh
      {
        WhereIff(img, |img|, negate, freeThresh, r, c);
      }
    }

    /** The bounds of the map along x and along y. */
    function GetRange(): ((real, real), (real, real))
      reads this, gridMap
    {
      Bounds(gridMap.Length0, gridMap.Length1, resolution, originX, originY)
    }

    method IsObstacleInDistance(col: int, row: int, d: int) returns (found: bool)
      ensures found == ObstacleInDistance(Map(), (col, row), d)
    {
      var rowStart := if row - d < 0 then 0 else row - d;
      var colStart := if col - d < 0 then 0 else col - d;
      var r0, r1 := SliceBound(rowStart, gridMap.Length0), SliceBound(row + d, gridMap.Length0);
      var c0, c1 := SliceBound(colStart, gridMap.Length1), SliceBound(col + d, gridMap.Length1);
      found := exists r, c | r0 <= r < r1 && c0 <= c < c1 :: gridMap[r, c];
      ghost var g := Map();
      if found {
        ghost var r: int, c: int :| r0 <= r < r1 && c0 <= c < c1 && gridMap[r, c];
        assert (r, c) in g.occupied && InPatch(g, (col, row), d, (r, c).0, (r, c).1);
      }
    }

    method IsValidPose(x: real, y: real, distance: real) returns (valid: bool)
      requires Valid()
      ensures valid == ValidPose(Map(), x, y, distance)
    {
      hide ObstacleInDistance;
      var col := ((x - originX) / resolution).Floor;
      var row := gridMap.Length0 - ((y - originY) / resolution).Floor;
      var found := IsObstacleInDistance(col, row, Ceiling(distance / resolution));
      valid := !found;
    }
  }
}
