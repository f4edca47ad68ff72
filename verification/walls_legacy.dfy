/** The first wall system, `walls.py`: six fixed obstacles, a repulsion
    field that fades with distance, an open-rectangle collision test and a
    move that is blocked axis by axis. The rectangles and their closest
    points are those of the maze walls. */
module WallsLegacy {
  import opened Common
  import opened Maze
  import opened Walls

  /** `WALL_REPEL_RANGE` and `WALL_REPEL_STRENGTH`. */
  const RepelRange: real := 120.0
  const RepelStrength: real := 3.0

  /** `(1 - distance / repel_range) * WALL_REPEL_STRENGTH`. */
  function Strength(d: real, range: real): real
    requires range != 0.0
  {
    (1.0 - d / range) * RepelStrength
  }

  /** The repulsion for an offset `o` whose computed length is `d0`. A zero
      length is replaced by 0.01 before the range test. */
  function Push(o: Vec, d0: real, range: real): Vec
    requires d0 >= 0.0
  {
    var d := if d0 == 0.0 then 0.01 else d0;
    if d > range then Vec(0.0, 0.0)
    else
      var strength := Strength(d, range);
      if d > 0.0 then Vec(o.dx / d * strength, o.dy / d * strength) else o
  }

  /** `Wall.get_repel_vector`. */
  function RepelVector(m: Maths, r: Rect, x: real, y: real, range: real): Vec
    requires SqrtLaw(m) && Proper(r)
  {
    var o := Offset(r, x, y);
    SquareNonNegative(o.dx);
    SquareNonNegative(o.dy);
    Push(o, m.sqrt(o.dx * o.dx + o.dy * o.dy), range)
  }

  /** No push on a point inside the wall, and none beyond the range. */
  lemma RepelZero(m: Maths, r: Rect, x: real, y: real, range: real)
    requires SqrtLaw(m) && Proper(r)
    ensures IsPointInside(r, x, y, 0.0) ==> RepelVector(m, r, x, y, range) == Vec(0.0, 0.0)
    ensures DistanceTo(m, r, x, y) > range ==> RepelVector(m, r, x, y, range) == Vec(0.0, 0.0)
  {
    var o := Offset(r, x, y);
    SquareNonNegative(o.dx);
    SquareNonNegative(o.dy);
    var d0 := m.sqrt(o.dx * o.dx + o.dy * o.dy);
    if o == Vec(0.0, 0.0) {
      var d := if d0 == 0.0 then 0.01 else d0;
      if d <= range && d > 0.0 {
        var strength := Strength(d, range);
        assert 0.0 / d * strength == 0.0;
      }
    }
  }

  /** Outside the wall the distance is positive, and its square is the
      squared length of the offset. */
  lemma OutsideDistance(m: Maths, r: Rect, x: real, y: real)
    requires SqrtLaw(m) && Proper(r) && !IsPointInside(r, x, y, 0.0)
    ensures var o := Offset(r, x, y);
      var d := DistanceTo(m, r, x, y);
      d > 0.0 && d * d == o.dx * o.dx + o.dy * o.dy
  {
    var o := Offset(r, x, y);
    SumOfSquaresPositive(o.dx, o.dy);
  }

  lemma FractionUpToOne(d: real, range: real)
    requires 0.0 < d <= range
    ensures 0.0 < d / range <= 1.0
  {
    var f := d / range;
    assert f * range == d;
    if f > 1.0 { MulMonotone(1.0, f, range); }
    if f <= 0.0 { MulMonotone(f, 0.0, range); }
  }

  /** The strength lies in `[0, 3)` for `0 < d <= range`. */
  lemma StrengthRange(d: real, range: real)
    requires 0.0 < d <= range
    ensures 0.0 <= Strength(d, range) < RepelStrength
  {
    FractionUpToOne(d, range);
  }

  /** `a / d * s` is `a` scaled by the non-negative `s / d`. */
  lemma Rescale(a: real, d: real, s: real)
    requires d > 0.0 && s >= 0.0
    ensures a / d * s == a * (s / d)
    ensures (s / d) * d == s && s / d >= 0.0
  {
  }

  /** The push for a length `d` within the range is the offset scaled by the
      non-negative `k = s / d`, where `s` is the strength, in `[0, 3)`; so its
      length is `k * d == s`. */
  lemma PushMagnitude(o: Vec, d: real, range: real)
    requires 0.0 < d <= range
    ensures var v := Push(o, d, range);
      var s := Strength(d, range);
      && 0.0 <= s < RepelStrength
      && s / d >= 0.0 && (s / d) * d == s
      && v.dx == o.dx * (s / d) && v.dy == o.dy * (s / d)
  {
    StrengthRange(d, range);
    var s := Strength(d, range);
    Rescale(o.dx, d, s);
    Rescale(o.dy, d, s);
  }

  /** Outside the wall and within range, the repulsion is the offset from the
      wall's closest point, pointing away from the wall, scaled so that its
      length is the strength `(1 - d / range) * 3` for the distance `d`. */
  lemma RepelMagnitude(m: Maths, r: Rect, x: real, y: real, range: real)
    requires SqrtLaw(m) && Proper(r)
    requires !IsPointInside(r, x, y, 0.0) && DistanceTo(m, r, x, y) <= range
    ensures var v := RepelVector(m, r, x, y, range);
      var o := Offset(r, x, y);
      var d := DistanceTo(m, r, x, y);
      var s := if range == 0.0 then 0.0 else Strength(d, range);
      && 0.0 < d <= range && d * d == o.dx * o.dx + o.dy * o.dy
      && 0.0 <= s < RepelStrength
      && (s / d) * d == s
      && v.dx == o.dx * (s / d) && v.dy == o.dy * (s / d)
  {
    var o := Offset(r, x, y);
    var d := DistanceTo(m, r, x, y);
    assert RepelVector(m, r, x, y, range) == Push(o, d, range);
    OutsideDistance(m, r, x, y);
    assert 0.0 < d <= range && range != 0.0;
    PushMagnitude(o, d, range);
  }

  /** `WallManager.get_repel_vector`: the component-wise sum over the walls. */
  function TotalRepel(m: Maths, walls: seq<Rect>, x: real, y: real, range: real): Vec
    requires SqrtLaw(m) && forall i :: 0 <= i < |walls| ==> Proper(walls[i])
    decreases |walls|
  {
    if |walls| == 0 then Vec(0.0, 0.0)
    else
      var rest := TotalRepel(m, walls[..|walls| - 1], x, y, range);
      var last := RepelVector(m, walls[|walls| - 1], x, y, range);
      Vec(rest.dx + last.dx, rest.dy + last.dy)
  }

  /** A point that no wall pushes, each because the point is inside it or
      beyond the range, gets no combined push. */
  lemma {:induction false} TotalRepelFar(m: Maths, walls: seq<Rect>, x: real, y: real, range: real)
    requires SqrtLaw(m) && forall i :: 0 <= i < |walls| ==> Proper(walls[i])
    requires forall i :: 0 <= i < |walls| ==>
      IsPointInside(walls[i], x, y, 0.0) || DistanceTo(m, walls[i], x, y) > range
    ensures TotalRepel(m, walls, x, y, range) == Vec(0.0, 0.0)
    decreases |walls|
  {
    if |walls| > 0 {
      TotalRepelFar(m, walls[..|walls| - 1], x, y, range);
      RepelZero(m, walls[|walls| - 1], x, y, range);
    }
  }

  /** Summing over two lists of walls is summing each and adding. */
  lemma {:induction false} TotalRepelAppend(m: Maths, a: seq<Rect>, b: seq<Rect>, x: real, y: real, range: real)
    requires SqrtLaw(m)
    requires forall i :: 0 <= i < |a| ==> Proper(a[i])
    requires forall i :: 0 <= i < |b| ==> Proper(b[i])
    ensures var ab := TotalRepel(m, a + b, x, y, range);
      var va := TotalRepel(m, a, x, y, range);
      var vb := TotalRepel(m, b, x, y, range);
      ab == Vec(va.dx + vb.dx, va.dy + vb.dy)
    decreases |b|
  {
    if |b| == 0 {
      assert a + b == a;
    } else {
      var b' := b[..|b| - 1];
      assert (a + b)[..|a + b| - 1] == a + b';
      assert (a + b)[|a + b| - 1] == b[|b| - 1];
      TotalRepelAppend(m, a, b', x, y, range);
    }
  }

  /** Of two numbers, the positive one with the larger square is larger. */
  lemma SquareOrder(a: real, d: real)
    requires 0.0 < d && d * d >= a * a
    ensures a <= d
  {
    if a > d {
      MulMonotone(d, a, a);
      MulMonotone(d, a, d);
    }
  }

  /** A coordinate of a vector is at most its length. */
  lemma CoordinateBelowLength(a: real, b: real, d: real)
    requires d > 0.0 && d * d == a * a + b * b
    ensures -d <= a <= d
  {
    SquareNonNegative(b);
    SquareOrder(a, d);
    assert (-a) * (-a) == a * a;
    SquareOrder(-a, d);
  }

  /** Scaling by a non-negative factor keeps a coordinate within the scaled length. */
  lemma ScaledWithin(a: real, d: real, k: real)
    requires -d <= a <= d && k >= 0.0
    ensures -(d * k) <= a * k <= d * k
  {
    if k > 0.0 {
      MulMonotone(a, d, k);
      MulMonotone(-d, a, k);
    }
  }

  /** A vector of length `d` scaled by `k` with `k * d < 3` has both
      components in `(-3, 3)`. */
  lemma ScaledBounded(ox: real, oy: real, d: real, k: real)
    requires d > 0.0 && d * d == ox * ox + oy * oy
    requires k >= 0.0 && 0.0 <= k * d < RepelStrength
    ensures -RepelStrength < ox * k < RepelStrength
    ensures -RepelStrength < oy * k < RepelStrength
  {
    CoordinateBelowLength(ox, oy, d);
    CoordinateBelowLength(oy, ox, d);
    ScaledWithin(ox, d, k);
    ScaledWithin(oy, d, k);
    assert d * k == k * d;
  }

  /** A non-negative number over a positive one is non-negative. */
  lemma NonNegativeRatio(s: real, d: real)
    requires 0.0 <= s && 0.0 < d
    ensures s / d >= 0.0
  {
  }

  /** Each wall pushes by less than 3 along either axis. */
  lemma RepelComponentsBounded(m: Maths, r: Rect, x: real, y: real, range: real)
    requires SqrtLaw(m) && Proper(r)
    ensures var v := RepelVector(m, r, x, y, range);
      -RepelStrength < v.dx < RepelStrength && -RepelStrength < v.dy < RepelStrength
  {
    if IsPointInside(r, x, y, 0.0) || DistanceTo(m, r, x, y) > range {
      RepelZero(m, r, x, y, range);
    } else {
      RepelNear(m, r, x, y, range);
    }
  }

  /** Outside the wall and within range, the repulsion is a push along the
      offset of length `distance_to`. */
  lemma RepelNear(m: Maths, r: Rect, x: real, y: real, range: real)
    requires SqrtLaw(m) && Proper(r)
    requires !IsPointInside(r, x, y, 0.0) && DistanceTo(m, r, x, y) <= range
    ensures var v := RepelVector(m, r, x, y, range);
      -RepelStrength < v.dx < RepelStrength && -RepelStrength < v.dy < RepelStrength
  {
    OutsideDistance(m, r, x, y);
    var o := Offset(r, x, y);
    var d := DistanceTo(m, r, x, y);
    assert RepelVector(m, r, x, y, range) == Push(o, d, range);
    PushWithin(o, d, range);
  }

  /** Within range, a push along an offset of length `d` has both
      components in `(-3, 3)`. */
  lemma PushWithin(o: Vec, d: real, range: real)
    requires 0.0 < d <= range && d * d == o.dx * o.dx + o.dy * o.dy
    ensures var v := Push(o, d, range);
      -RepelStrength < v.dx < RepelStrength && -RepelStrength < v.dy < RepelStrength
  {
    PushMagnitude(o, d, range);
    PushBounded(o.dx, o.dy, d, Strength(d, range), Push(o, d, range));
  }

  /** A push of strength below 3 along an offset of length `d` has both
      components in `(-3, 3)`. */
  lemma PushBounded(ox: real, oy: real, d: real, s: real, v: Vec)
    requires 0.0 < d && d * d == ox * ox + oy * oy
    requires 0.0 <= s < RepelStrength && (s / d) * d == s
    requires v.dx == ox * (s / d) && v.dy == oy * (s / d)
    ensures -RepelStrength < v.dx < RepelStrength && -RepelStrength < v.dy < RepelStrength
  {
    NonNegativeRatio(s, d);
    ScaledBounded(ox, oy, d, s / d);
  }

  /** The combined push along either axis is less than 3 per wall. */
  lemma {:induction false} TotalRepelBounded(m: Maths, walls: seq<Rect>, x: real, y: real, range: real)
    requires SqrtLaw(m) && forall i :: 0 <= i < |walls| ==> Proper(walls[i])
    ensures var v := TotalRepel(m, walls, x, y, range);
      var n := |walls| as real * RepelStrength;
      -n <= v.dx <= n && -n <= v.dy <= n
    decreases |walls|
  {
    if |walls| > 0 {
      TotalRepelBounded(m, walls[..|walls| - 1], x, y, range);
      RepelComponentsBounded(m, walls[|walls| - 1], x, y, range);
    }
  }

  /** The open rectangle grown by `radius`: `left - radius < x < right + radius`
      and likewise for `y`. */
  predicate InsideOpen(r: Rect, x: real, y: real, radius: real)
  {
    && (Left(r) as real) - radius < x < (Right(r) as real) + radius
    && (Top(r) as real) - radius < y < (Bottom(r) as real) + radius
  }

  function FirstOpen(walls: seq<Rect>, x: real, y: real, radius: real, i: nat): (r: Option<nat>)
    requires i <= |walls|
    ensures r.None? <==> forall j :: i <= j < |walls| ==> !InsideOpen(walls[j], x, y, radius)
    ensures r.Some? ==>
              && i <= r.value < |walls| && InsideOpen(walls[r.value], x, y, radius)
              && forall j :: i <= j < r.value ==> !InsideOpen(walls[j], x, y, radius)
    decreases |walls| - i
  {
    if i == |walls| then None
    else if InsideOpen(walls[i], x, y, radius) then Some(i)
    else FirstOpen(walls, x, y, radius, i + 1)
  }

  /** `WallManager.is_colliding`: the first wall whose open, grown rectangle
      holds the point. */
  function Colliding(walls: seq<Rect>, x: real, y: real, radius: real): (r: (bool, Option<nat>))
    ensures r.0 <==> r.1.Some?
    ensures r.0 <==> exists j :: 0 <= j < |walls| && InsideOpen(walls[j], x, y, radius)
    ensures r.1.Some? ==>
              && r.1.value < |walls| && InsideOpen(walls[r.1.value], x, y, radius)
              && forall j :: 0 <= j < r.1.value ==> !InsideOpen(walls[j], x, y, radius)
  {
    var hit := FirstOpen(walls, x, y, radius, 0);
    (hit.Some?, hit)
  }

  /** The legacy test is the new closed test with the boundary removed: every
      open hit is a closed hit, and a closed hit with a smaller margin is an
      open hit. */
  lemma OpenWithinClosed(r: Rect, x: real, y: real, radius: real, smaller: real)
    requires smaller < radius
    ensures InsideOpen(r, x, y, radius) ==> IsPointInside(r, x, y, radius)
    ensures IsPointInside(r, x, y, smaller) ==> InsideOpen(r, x, y, radius)
  {
  }

  /** `get_avoid_position`: keep the new position when it is free; otherwise
      block each axis whose lone move collides, and stay put if that still
      collides. */
  function AvoidPosition(walls: seq<Rect>, oldX: real, oldY: real, newX: real, newY: real, radius: real): (p: (real, real))
    ensures !Colliding(walls, newX, newY, radius).0 ==> p == (newX, newY)
    ensures p.0 == oldX || p.0 == newX
    ensures p.1 == oldY || p.1 == newY
    ensures !Colliding(walls, p.0, p.1, radius).0 || p == (oldX, oldY)
  {
    if !Colliding(walls, newX, newY, radius).0 then (newX, newY)
    else
      var rx := if Colliding(walls, newX, oldY, radius).0 then oldX else newX;
      var ry := if Colliding(walls, oldX, newY, radius).0 then oldY else newY;
      if Colliding(walls, rx, ry, radius).0 then (oldX, oldY) else (rx, ry)
  }

  /** An ant that starts clear of every wall stays clear. */
  lemma AvoidKeepsClear(walls: seq<Rect>, oldX: real, oldY: real, newX: real, newY: real, radius: real)
    requires !Colliding(walls, oldX, oldY, radius).0
    ensures var p := AvoidPosition(walls, oldX, oldY, newX, newY, radius);
      !Colliding(walls, p.0, p.1, radius).0
  {
  }

  /** Following `get_avoid_position` along any path of proposed moves never
      enters a wall. */
  function Follow(walls: seq<Rect>, x: real, y: real, moves: seq<(real, real)>, radius: real): (p: (real, real))
    requires !Colliding(walls, x, y, radius).0
    ensures !Colliding(walls, p.0, p.1, radius).0
    decreases |moves|
  {
    if |moves| == 0 then (x, y)
    else
      var q := AvoidPosition(walls, x, y, moves[0].0, moves[0].1, radius);
      AvoidKeepsClear(walls, x, y, moves[0].0, moves[0].1, radius);
      Follow(walls, q.0, q.1, moves[1..], radius)
  }

  /** `_create_walls`: six obstacles placed relative to the area's offset and size. */
  function CreateWalls(areaWidth: int, areaHeight: int, offsetX: int, offsetY: int): (ws: seq<Rect>)
    ensures |ws| == 6
    ensures forall i :: 0 <= i < |ws| ==> ws[i].width > 0 && ws[i].height > 0
  {
    [ Rect(offsetX + 150, offsetY + 200, 40, 300),
      Rect(offsetX + areaWidth - 200, offsetY + 250, 40, 280),
      Rect(offsetX + 400, offsetY + 100, 50, 200),
      Rect(offsetX + areaWidth - 450, offsetY + 400, 50, 220),
      Rect(offsetX + 600, offsetY + areaHeight - 250, 300, 40),
      Rect(offsetX + areaWidth / 2 - 100, offsetY + 80, 80, 40) ]
  }

  /** In an area of at least 900 by 620 pixels every obstacle lies inside it. */
  lemma WallsInsideArea(areaWidth: int, areaHeight: int, offsetX: int, offsetY: int)
    requires areaWidth >= 900 && areaHeight >= 620
    ensures forall r <- CreateWalls(areaWidth, areaHeight, offsetX, offsetY) ::
              && offsetX <= Left(r) && Right(r) <= offsetX + areaWidth
              && offsetY <= Top(r) && Bottom(r) <= offsetY + areaHeight
  {
  }
}
