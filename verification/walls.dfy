/** Wall rectangles and the wall manager of `src/walls.py`: closest points,
    containment with a margin, collision, push-out, the nearest wall within a
    look range and the avoidance turn, and the construction of the maze
    walls. */
module Walls {
  import opened Common
  import opened Selection
  import opened Maze

  /** `rect.left`, `rect.right`, `rect.top`, `rect.bottom`. */
  function Left(r: Rect): int { r.x }
  function Right(r: Rect): int { r.x + r.width }
  function Top(r: Rect): int { r.y }
  function Bottom(r: Rect): int { r.y + r.height }

  /** A rectangle of non-negative size, as every wall is. */
  predicate Proper(r: Rect) { r.width >= 0 && r.height >= 0 }

  /** `Wall.get_closest_point`: the query point clamped into the rectangle. */
  function ClosestPoint(r: Rect, x: real, y: real): (p: (real, real))
    requires Proper(r)
    ensures Left(r) as real <= p.0 <= Right(r) as real && Top(r) as real <= p.1 <= Bottom(r) as real
  {
    (Max(Left(r) as real, Min(x, Right(r) as real)), Max(Top(r) as real, Min(y, Bottom(r) as real)))
  }

  /** No point of the rectangle is closer, coordinate by coordinate, than the
      closest point; a point inside is its own closest point. */
  lemma ClosestIsClosest(r: Rect, x: real, y: real, qx: real, qy: real)
    requires Proper(r)
    requires Left(r) as real <= qx <= Right(r) as real && Top(r) as real <= qy <= Bottom(r) as real
    ensures Abs(x - ClosestPoint(r, x, y).0) <= Abs(x - qx)
    ensures Abs(y - ClosestPoint(r, x, y).1) <= Abs(y - qy)
    ensures IsPointInside(r, x, y, 0.0) <==> ClosestPoint(r, x, y) == (x, y)
  {
  }

  /** A displacement in the plane. */
  datatype Vec = Vec(dx: real, dy: real)

  /** The offset from the closest point of the wall to the query point. */
  function Offset(r: Rect, x: real, y: real): (o: Vec)
    requires Proper(r)
    ensures IsPointInside(r, x, y, 0.0) <==> o == Vec(0.0, 0.0)
  {
    Vec(x - ClosestPoint(r, x, y).0, y - ClosestPoint(r, x, y).1)
  }

  /** `Wall.distance_to`. */
  function DistanceTo(m: Maths, r: Rect, x: real, y: real): real
    requires Proper(r)
  {
    var o := Offset(r, x, y);
    m.sqrt(o.dx * o.dx + o.dy * o.dy)
  }

  /** `Wall.is_point_inside`: the closed rectangle grown by `margin` on each side. */
  predicate IsPointInside(r: Rect, x: real, y: real, margin: real)
  {
    && (Left(r) as real) - margin <= x <= (Right(r) as real) + margin
    && (Top(r) as real) - margin <= y <= (Bottom(r) as real) + margin
  }

  /** A point is inside the rectangle grown by a non-negative `margin`
      exactly when it lies within `margin` of the closest point of the
      rectangle along each axis. */
  lemma InsideByOffset(r: Rect, x: real, y: real, margin: real)
    requires Proper(r) && margin >= 0.0
    ensures IsPointInside(r, x, y, margin) <==>
              Abs(Offset(r, x, y).dx) <= margin && Abs(Offset(r, x, y).dy) <= margin
  {
  }

  /** Growing the margin never loses a point. */
  lemma InsideMonotone(r: Rect, x: real, y: real, m1: real, m2: real)
    requires m1 <= m2 && IsPointInside(r, x, y, m1)
    ensures IsPointInside(r, x, y, m2)
  {
  }

  /** The first wall, from `i` on, that contains the point with `margin`. */
  function FirstInside(walls: seq<Rect>, x: real, y: real, margin: real, i: nat): (r: Option<nat>)
    requires i <= |walls|
    ensures r.None? <==> forall j :: i <= j < |walls| ==> !IsPointInside(walls[j], x, y, margin)
    ensures r.Some? ==>
              && i <= r.value < |walls| && IsPointInside(walls[r.value], x, y, margin)
              && forall j :: i <= j < r.value ==> !IsPointInside(walls[j], x, y, margin)
    decreases |walls| - i
  {
    if i == |walls| then None
    else if IsPointInside(walls[i], x, y, margin) then Some(i)
    else FirstInside(walls, x, y, margin, i + 1)
  }

  /** `is_colliding`: `(True, wall)` for the first wall containing the point
      with margin `radius`, else `(False, None)`. */
  function IsColliding(walls: seq<Rect>, x: real, y: real, radius: real): (r: (bool, Option<nat>))
    ensures r.0 <==> r.1.Some?
    ensures r.0 <==> exists j :: 0 <= j < |walls| && IsPointInside(walls[j], x, y, radius)
    ensures r.1.Some? ==>
              && r.1.value < |walls| && IsPointInside(walls[r.1.value], x, y, radius)
              && forall j :: 0 <= j < r.1.value ==> !IsPointInside(walls[j], x, y, radius)
  {
    var hit := FirstInside(walls, x, y, radius, 0);
    (hit.Some?, hit)
  }

  /** `push_out_of_wall` for a wall known to contain the point: move across
      the nearest edge to `radius + 1` beyond it; ties go to left, right, top,
      bottom in that order. */
  function PushOutOf(r: Rect, x: real, y: real, radius: real): (p: (real, real))
  {
    var dl := x - Left(r) as real;
    var dr := Right(r) as real - x;
    var dt := y - Top(r) as real;
    var db := Bottom(r) as real - y;
    var md := Min(Min(Min(dl, dr), dt), db);
    if md == dl then (Left(r) as real - radius - 1.0, y)
    else if md == dr then (Right(r) as real + radius + 1.0, y)
    else if md == dt then (x, Top(r) as real - radius - 1.0)
    else (x, Bottom(r) as real + radius + 1.0)
  }

  /** `push_out_of_wall`: unchanged unless some wall contains the point with
      margin 0; otherwise pushed out of the first such wall. */
  function PushOutOfWall(walls: seq<Rect>, x: real, y: real, radius: real): (p: (real, real))
    ensures FirstInside(walls, x, y, 0.0, 0).None? ==> p == (x, y)
    ensures FirstInside(walls, x, y, 0.0, 0).Some? ==>
              var r := walls[FirstInside(walls, x, y, 0.0, 0).value];
              var dl, dr := x - Left(r) as real, Right(r) as real - x;
              var dt, db := y - Top(r) as real, Bottom(r) as real - y;
              || (p == (Left(r) as real - radius - 1.0, y) && dl <= dr && dl <= dt && dl <= db)
              || (p == (Right(r) as real + radius + 1.0, y) && dr < dl && dr <= dt && dr <= db)
              || (p == (x, Top(r) as real - radius - 1.0) && dt < dl && dt < dr && dt <= db)
              || (p == (x, Bottom(r) as real + radius + 1.0) && db < dl && db < dr && db < dt)
  {
    match FirstInside(walls, x, y, 0.0, 0)
    case None => (x, y)
    case Some(i) => PushOutOf(walls[i], x, y, radius)
  }

  /** After a push with a non-negative radius the point has left the wall it
      was in, and exactly one coordinate changed. */
  lemma PushOutLeaves(walls: seq<Rect>, x: real, y: real, radius: real)
    requires radius >= 0.0
    requires FirstInside(walls, x, y, 0.0, 0).Some?
    ensures var i := FirstInside(walls, x, y, 0.0, 0).value;
      var p := PushOutOfWall(walls, x, y, radius);
      && !IsPointInside(walls[i], p.0, p.1, 0.0)
      && (p.0 == x) != (p.1 == y)
  {
  }

  /** The look-up of `get_nearest_wall_info`: the distance, the angle from
      the point towards the closest point, and the index of the wall. */
  datatype WallInfo = WallInfo(dist: real, angle: real, wall: nat)

  function Distances(m: Maths, walls: seq<Rect>, x: real, y: real): (ds: seq<real>)
    requires forall i :: 0 <= i < |walls| ==> Proper(walls[i])
    ensures |ds| == |walls|
    ensures forall i :: 0 <= i < |walls| ==> ds[i] == DistanceTo(m, walls[i], x, y)
  {
    seq(|walls|, i requires 0 <= i < |walls| => DistanceTo(m, walls[i], x, y))
  }

  /** `get_nearest_wall_info`: the first wall of least distance among those
      strictly closer than `lookRange`. */
  function NearestWallInfo(m: Maths, walls: seq<Rect>, x: real, y: real, lookRange: real): (r: Option<WallInfo>)
    requires forall i :: 0 <= i < |walls| ==> Proper(walls[i])
    ensures r.None? <==> forall i :: 0 <= i < |walls| ==> DistanceTo(m, walls[i], x, y) >= lookRange
    ensures r.Some? ==>
              && IsFirstMinBelow(Distances(m, walls, x, y), lookRange, r.value.wall)
              && r.value.dist == DistanceTo(m, walls[r.value.wall], x, y)
              && r.value.angle == m.atan2(ClosestPoint(walls[r.value.wall], x, y).1 - y,
                                          ClosestPoint(walls[r.value.wall], x, y).0 - x)
  {
    var ds := Distances(m, walls, x, y);
    match FirstMin(ds, lookRange)
    case None => None
    case Some(i) =>
      var (cx, cy) := ClosestPoint(walls[i], x, y);
      Some(WallInfo(ds[i], m.atan2(cy - y, cx - x), i))
  }

  /** A non-negative number whose square is at most 1 is itself at most 1. */
  lemma RootAtMostOne(s: real, u: real)
    requires 0.0 <= s && s * s == u && u <= 1.0
    ensures s <= 1.0
  {
    if s > 1.0 {
      MulMonotone(1.0, s, s);
    }
  }

  /** `(1 - dist / look_range) ** 0.5` for a distance inside the look range:
      a number in `[0, 1]`. */
  function Urgency(m: Maths, dist: real, lookRange: real): (u: real)
    requires SqrtLaw(m) && 0.0 <= dist < lookRange
    ensures 0.0 <= u <= 1.0
  {
    FractionBelowOne(dist, lookRange);
    var v := 1.0 - dist / lookRange;
    RootAtMostOne(m.sqrt(v), v);
    m.sqrt(v)
  }

  /** With a lawful square root the distance is a non-negative root of the
      offset's squared length. */
  lemma DistanceSquared(m: Maths, r: Rect, x: real, y: real)
    requires SqrtLaw(m) && Proper(r)
    ensures var o := Offset(r, x, y);
      var d := DistanceTo(m, r, x, y);
      0.0 <= d && d * d == o.dx * o.dx + o.dy * o.dy
  {
    var o := Offset(r, x, y);
    SquareNonNegative(o.dx);
    SquareNonNegative(o.dy);
  }

  /** With a lawful square root the distance to a wall is the Euclidean
      distance to its closest point: never negative, and zero exactly when
      the point lies in the wall. */
  lemma DistanceToClosest(m: Maths, r: Rect, x: real, y: real)
    requires SqrtLaw(m) && Proper(r)
    ensures var o := Offset(r, x, y);
      var d := DistanceTo(m, r, x, y);
      0.0 <= d && d * d == o.dx * o.dx + o.dy * o.dy
    ensures DistanceTo(m, r, x, y) == 0.0 <==> IsPointInside(r, x, y, 0.0)
  {
    var o := Offset(r, x, y);
    var d := DistanceTo(m, r, x, y);
    DistanceSquared(m, r, x, y);
    if !IsPointInside(r, x, y, 0.0) {
      SumOfSquaresPositive(o.dx, o.dy);
    } else {
      assert o.dx == 0.0 && o.dy == 0.0;
      assert o.dx * o.dx + o.dy * o.dy == 0.0;
    }
  }

  /** Each entry of `Distances` is its wall's distance: zero for the walls
      containing the point and positive for the rest. */
  lemma DistancesMeaning(m: Maths, walls: seq<Rect>, x: real, y: real)
    requires SqrtLaw(m) && forall i :: 0 <= i < |walls| ==> Proper(walls[i])
    ensures var ds := Distances(m, walls, x, y);
      forall i :: 0 <= i < |walls| ==> 0.0 <= ds[i] && (ds[i] == 0.0 <==> IsPointInside(walls[i], x, y, 0.0))
  {
    forall i | 0 <= i < |walls|
      ensures var ds := Distances(m, walls, x, y);
        0.0 <= ds[i] && (ds[i] == 0.0 <==> IsPointInside(walls[i], x, y, 0.0))
    {
      DistanceToClosest(m, walls[i], x, y);
    }
  }

  /** `get_avoidance_direction`: `(should_turn, turn)`. `urgency ** 0.5` is
      the supplied square root. */
  function AvoidanceDirection(m: Maths, walls: seq<Rect>, x: real, y: real, currentDir: real, lookRange: real): (r: (bool, real))
    requires forall i :: 0 <= i < |walls| ==> Proper(walls[i])
    requires SqrtLaw(m)
    ensures !r.0 ==> r.1 == 0.0
    ensures NearestWallInfo(m, walls, x, y, lookRange).None? ==> !r.0
    ensures r.0 <==>
              && NearestWallInfo(m, walls, x, y, lookRange).Some?
              && Abs(WrapAngle(NearestWallInfo(m, walls, x, y, lookRange).value.angle - currentDir)) <= PI * 0.6
    ensures r.0 ==> -0.5 <= r.1 <= 0.5
    ensures r.0 ==>
              var diff := WrapAngle(NearestWallInfo(m, walls, x, y, lookRange).value.angle - currentDir);
              (diff > 0.0 ==> r.1 <= 0.0) && (diff <= 0.0 ==> r.1 >= 0.0)
  {
    match NearestWallInfo(m, walls, x, y, lookRange)
    case None => (false, 0.0)
    case Some(info) =>
      var diff := WrapAngle(info.angle - currentDir);
      if Abs(diff) > PI * 0.6 then (false, 0.0)
      else
        DistanceToClosest(m, walls[info.wall], x, y);
        var urgency := Urgency(m, info.dist, lookRange);
        if diff > 0.0 then (true, -0.5 * urgency) else (true, 0.5 * urgency)
  }

  /** `grid_width -= 1` when the cell count is even. */
  function MakeOdd(n: int): (r: int)
    ensures r % 2 == 1
    ensures r == n || r == n - 1
  {
    if n % 2 == 0 then n - 1 else n
  }

  /** The start column or row of the carving: half the size, made odd. */
  function OddHalf(n: int): (r: int)
    requires n >= 3 && n % 2 == 1
    ensures 0 < r < n - 1 && r % 2 == 1
  {
    if (n / 2) % 2 == 0 then n / 2 + 1 else n / 2
  }

  /** The perimeter clearing of `_create_walls`: the two outermost rows and
      columns on every side become passages. */
  function ClearEdges(g: Grid, w: nat, h: nat): (r: Grid)
    requires Shaped(g, w, h)
    ensures Shaped(r, w, h)
    ensures forall x, y :: 0 <= x < w && 0 <= y < h ==>
              (r[y][x] <==> g[y][x] && 2 <= x < w - 2 && 2 <= y < h - 2)
  {
    seq(h, y requires 0 <= y < h => seq(w, x requires 0 <= x < w => g[y][x] && 2 <= x < w - 2 && 2 <= y < h - 2))
  }

  /** The maze cell size of `_create_walls`, in pixels. */
  const MazeCellSize: int := 60

  /** Grid size of `_create_walls` for an area. */
  function MazeDims(areaWidth: int, areaHeight: int): (int, int)
  {
    (MakeOdd(areaWidth / MazeCellSize), MakeOdd(areaHeight / MazeCellSize))
  }

  /** Whether `_create_walls` runs through for an area without raising: the
      grid must be at least 3 by 3 so that the start cell exists, and when
      extra passages are drawn `randint(2, size - 3)` needs a size of 5. */
  predicate CanBuild(areaWidth: int, areaHeight: int)
  {
    var (gw, gh) := MazeDims(areaWidth, areaHeight);
    gw >= 3 && gh >= 3 && (gw * gh / 15 == 0 || (gw >= 5 && gh >= 5))
  }

  /** `_create_walls`: carve a maze on an odd grid from a centre-ish odd
      start, clear radius 4 around the centre, add `w * h // 15` extra
      passages, clear the perimeter, and merge the walls into rectangles of
      60 pixels per cell. */
  method CreateWalls(areaWidth: int, areaHeight: int, offsetX: int, offsetY: int,
                     pick: nat -> nat, draws: seq<ExtraDraw>)
    returns (gw: nat, gh: nat, grid: Grid, rects: seq<Rect>, walls: seq<Rect>)
    requires CanBuild(areaWidth, areaHeight)
    requires |draws| == MazeDims(areaWidth, areaHeight).0 * MazeDims(areaWidth, areaHeight).1 / 15
    requires forall i :: 0 <= i < |draws| ==>
               DrawInRange(MazeDims(areaWidth, areaHeight).0, MazeDims(areaWidth, areaHeight).1, draws[i])
    ensures (gw, gh) == MazeDims(areaWidth, areaHeight) && gw % 2 == 1 && gh % 2 == 1
    ensures Shaped(grid, gw, gh)
    ensures forall x, y :: 0 <= x < gw && 0 <= y < gh && (x < 2 || x >= gw - 2 || y < 2 || y >= gh - 2) ==> !grid[y][x]
    ensures PairwiseDisjoint(rects) && Covered(rects) == WallCells(grid, gw, gh)
    ensures forall i :: 0 <= i < |rects| ==> rects[i].width >= 1 && rects[i].height >= 1
    ensures walls == ToPixels(rects, offsetX, offsetY, MazeCellSize)
  {
    var dims := MazeDims(areaWidth, areaHeight);
    gw, gh := dims.0, dims.1;
    var sx, sy := OddHalf(gw), OddHalf(gh);
    grid := Generate(AllWalls(gw, gh), gw, gh, sx, sy, pick);
    grid := ClearArea(grid, gw, gh, gw / 2, gh / 2, 4);
    grid := AddExtraPassages(grid, gw, gh, draws);
    grid := ClearEdges(grid, gw, gh);
    rects, walls := ToWalls(grid, gw, gh, MazeCellSize, offsetX, offsetY);
  }

  /** Every merged wall block of `_create_walls` lies off the cleared
      perimeter: inside columns `2 .. w - 2` and rows `2 .. h - 2`. */
  lemma BlocksAvoidPerimeter(grid: Grid, gw: nat, gh: nat, rects: seq<Rect>, i: int, cx: int, cy: int)
    requires Shaped(grid, gw, gh)
    requires forall x, y :: 0 <= x < gw && 0 <= y < gh && (x < 2 || x >= gw - 2 || y < 2 || y >= gh - 2) ==> !grid[y][x]
    requires Covered(rects) == WallCells(grid, gw, gh)
    requires 0 <= i < |rects| && (cx, cy) in RectCells(rects[i])
    ensures 2 <= cx < gw - 2 && 2 <= cy < gh - 2
  {
    CoveredContains(rects, i);
  }
}
