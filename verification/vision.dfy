/** The ray vision of `src/vision.py`: seven rays spread over a half turn
    around the heading, each reporting the normalised distance to the nearest
    wall (by stepping and bisection), ant and food source (by ray-circle
    intersection), and the inverted readings the controller takes as input. */
module Vision {
  import opened Common
  import opened Maze
  import opened Walls

  const NumRays: nat := 7
  const FovDegrees: real := 180.0
  const RayLength: real := 100.0
  const RayLengthSq: real := RayLength * RayLength
  /** Spacing of the wall probes along a ray. */
  const StepSize: real := 8.0
  /** `int(RAY_LENGTH / step_size)`. */
  const NumSteps: int := Trunc(RayLength / StepSize)
  /** Halvings of the bracket around the first wall probe that hit. */
  const Refinements: nat := 4

  /** Offset of ray `i` from the heading: `-fov/2 + (i / (n - 1)) * fov`, in radians. */
  function RayAngle(i: nat): real
  {
    -(FovDegrees / 2.0 * PI / 180.0) + (i as real / (NumRays - 1) as real) * FovDegrees * PI / 180.0
  }

  /** `RAY_ANGLES`. */
  function RayAngles(): (a: seq<real>)
    ensures |a| == NumRays
    ensures forall i :: 0 <= i < NumRays ==> a[i] == RayAngle(i)
  {
    seq(NumRays, i requires 0 <= i < NumRays => RayAngle(i))
  }

  /** The seven offsets run from -pi/2 to pi/2 in equal steps of pi/6. */
  lemma RayAnglesLayout()
    ensures RayAngles()[0] == -PI / 2.0 && RayAngles()[NumRays - 1] == PI / 2.0
    ensures forall i :: 0 < i < NumRays ==> RayAngles()[i] - RayAngles()[i - 1] == PI / 6.0
    ensures forall i, j :: 0 <= i < j < NumRays ==> RayAngles()[i] < RayAngles()[j]
  {
    var a := RayAngles();
    forall i | 0 < i < NumRays
      ensures a[i] - a[i - 1] == PI / 6.0
    {
      assert (i as real / 6.0) - ((i - 1) as real / 6.0) == 1.0 / 6.0;
    }
    forall i, j | 0 <= i < j < NumRays
      ensures a[i] < a[j]
    {
      assert a[j] - a[i] == (j - i) as real * (PI / 6.0);
    }
  }

  lemma NumStepsIsTwelve()
    ensures NumSteps == 12
  {
    assert RayLength / StepSize == 12.5;
  }

  /** One ray's readings: distances as a fraction of the ray length, with 1.0
      and no hit when nothing is in range. */
  datatype VisionRay = VisionRay(wallDist: real, antDist: real, foodDist: real,
                                 hitWall: bool, hitAnt: bool, hitFood: bool)

  const EmptyRay: VisionRay := VisionRay(1.0, 1.0, 1.0, false, false, false)

  /** Every reading is in `[0, 1]` and a hit is reported exactly when the
      reading is below 1. */
  predicate RayLawful(r: VisionRay)
  {
    && 0.0 <= r.wallDist <= 1.0 && (r.hitWall <==> r.wallDist < 1.0)
    && 0.0 <= r.antDist <= 1.0 && (r.hitAnt <==> r.antDist < 1.0)
    && 0.0 <= r.foodDist <= 1.0 && (r.hitFood <==> r.foodDist < 1.0)
  }

  /** A ray from `(sx, sy)` along `(dx, dy)`. */
  datatype Ray = Ray(sx: real, sy: real, dx: real, dy: real)

  /** The wall probe at distance `t`: `is_colliding` with margin 1. */
  predicate WallHit(walls: seq<Rect>, ray: Ray, t: real)
  {
    IsColliding(walls, ray.sx + ray.dx * t, ray.sy + ray.dy * t, 1.0).0
  }

  /** Whether the point at a given distance along the ray is inside a wall. */
  type Probe = real -> bool

  function WallProbe(walls: seq<Rect>, ray: Ray): Probe
  {
    t => WallHit(walls, ray, t)
  }

  /** The probe at step `j`, distance `8 j`. */
  predicate StepHit(hit: Probe, j: int)
  {
    hit(j as real * StepSize)
  }

  /** The first probe step, from `s` on, that hits. */
  function FirstStep(hit: Probe, s: nat): (r: Option<nat>)
    requires s >= 1
    ensures r.Some? ==> s <= r.value <= NumSteps && StepHit(hit, r.value)
    decreases NumSteps + 1 - s
  {
    if s > NumSteps then None
    else if StepHit(hit, s) then Some(s)
    else FirstStep(hit, s + 1)
  }

  lemma {:induction false} FirstStepFrom(hit: Probe, k: nat, s: nat)
    requires 1 <= k <= s <= NumSteps + 1
    requires forall j :: k <= j < s ==> !StepHit(hit, j)
    requires s <= NumSteps ==> StepHit(hit, s)
    ensures FirstStep(hit, k) == if s <= NumSteps then Some(s) else None
    decreases s - k
  {
    if k < s {
      FirstStepFrom(hit, k + 1, s);
    }
  }

  /** What `_raycast_walls` promises: the full ray length when no probe hits;
      otherwise, with `s` the first step that hits, a distance in
      `[(s - 1) * 8, s * 8 - 0.5]` that lies within 0.5 before a hit and is
      itself clear unless it is the ray's origin. */
  ghost predicate WallReading(hit: Probe, d: real)
  {
    match FirstStep(hit, 1)
    case None => d == RayLength
    case Some(s) =>
      && (s - 1) as real * StepSize <= d <= s as real * StepSize - 0.5
      && hit(d + 0.5)
      && (d == 0.0 || !hit(d))
  }

  /** Bracket widths after each halving. */
  const Widths: seq<real> := [8.0, 4.0, 2.0, 1.0, 0.5]

  /** `_raycast_walls`: march in steps of 8, then bisect four times between
      the last clear step and the first step that hits. */
  method RaycastWalls(hit: Probe) returns (d: real)
    ensures WallReading(hit, d)
    ensures 0.0 <= d <= RayLength
  {
    NumStepsIsTwelve();
    var step := 1;
    while step <= NumSteps
      invariant 1 <= step <= NumSteps + 1
      invariant forall j :: 1 <= j < step ==> !StepHit(hit, j)
    {
      if StepHit(hit, step) {
        FirstStepFrom(hit, 1, step);
        var low := Bisect(hit, step);
        HitReading(hit, step, low);
        return low;
      }
      step := step + 1;
    }
    FirstStepFrom(hit, 1, NumSteps + 1);
    return RayLength;
  }

  /** A bisection result after the first hitting step is a lawful reading. */
  lemma HitReading(hit: Probe, s: int, d: real)
    requires 1 <= s <= 12 && FirstStep(hit, 1) == Some(s)
    requires (s - 1) as real * StepSize <= d <= s as real * StepSize - 0.5
    requires hit(d + 0.5) && (d == 0.0 || !hit(d))
    ensures WallReading(hit, d) && 0.0 <= d <= RayLength
  {
  }

  /** The four halvings between the clear step `step - 1` (or the origin)
      and the hitting step `step`: the result lies within 0.5 before a hit
      and is clear unless it is the origin. */
  method Bisect(hit: Probe, step: int) returns (low: real)
    requires 1 <= step && StepHit(hit, step)
    requires step > 1 ==> !StepHit(hit, step - 1)
    ensures (step - 1) as real * StepSize <= low <= step as real * StepSize - 0.5
    ensures hit(low + 0.5) && (low == 0.0 || !hit(low))
  {
    var dist := step as real * StepSize;
    low := (step - 1) as real * StepSize;
    var high := dist;
    var k := 0;
    while k < Refinements
      invariant 0 <= k <= Refinements
      invariant (step - 1) as real * StepSize <= low && high <= dist
      invariant high - low == Widths[k]
      invariant hit(high)
      invariant low == 0.0 || !hit(low)
    {
      var mid := (low + high) / 2.0;
      if hit(mid) {
        high := mid;
      } else {
        low := mid;
      }
      k := k + 1;
    }
  }

  /** The quadratic coefficient `a`: the squared length of the direction. */
  function SquaredLength(ray: Ray): real
  {
    ray.dx * ray.dx + ray.dy * ray.dy
  }

  /** The ray has a direction; Python divides by its squared length. */
  predicate Moving(ray: Ray)
  {
    SquaredLength(ray) > 0.0
  }

  /** The two roots `t1 <= t2` of the ray-circle equation. */
  datatype Roots = Roots(t1: real, t2: real)

  /** The real roots of `a t^2 + b t + c = 0`, nearer first; `None` when the
      discriminant is negative. */
  function SolveQuadratic(m: Maths, a: real, b: real, c: real): (r: Option<Roots>)
    requires a > 0.0
  {
    var disc := b * b - 4.0 * a * c;
    if disc >= 0.0 then
      var s := m.sqrt(disc);
      Some(Roots((-b - s) / (2.0 * a), (-b + s) / (2.0 * a)))
    else None
  }

  /** The quadratic's linear coefficient `b = 2 (o . d)`, with `o` the ray's
      origin relative to the centre. */
  function LinearCoeff(ray: Ray, cx: real, cy: real): real
  {
    2.0 * ((ray.sx - cx) * ray.dx + (ray.sy - cy) * ray.dy)
  }

  /** The quadratic's constant `c = o . o - radius^2`. */
  function ConstCoeff(ray: Ray, cx: real, cy: real, radius: real): real
  {
    (ray.sx - cx) * (ray.sx - cx) + (ray.sy - cy) * (ray.sy - cy) - radius * radius
  }

  /** Ray-circle intersection: the quadratic whose roots are the distances
      along the ray at which it meets the circle. */
  function Intersect(m: Maths, ray: Ray, cx: real, cy: real, radius: real): (r: Option<Roots>)
    requires Moving(ray)
  {
    SolveQuadratic(m, SquaredLength(ray), LinearCoeff(ray, cx, cy), ConstCoeff(ray, cx, cy, radius))
  }

  lemma DivMonotone(x: real, y: real, d: real)
    requires x <= y && d > 0.0
    ensures x / d <= y / d
  {
    var p, q := x / d, y / d;
    assert p * d == x && q * d == y;
    if p > q {
      MulMonotone(q, p, d);
    }
  }

  /** The nearer root is never beyond the farther one. */
  lemma RootsOrdered(m: Maths, ray: Ray, cx: real, cy: real, radius: real)
    requires SqrtLaw(m) && Moving(ray)
    requires Intersect(m, ray, cx, cy, radius).Some?
    ensures Intersect(m, ray, cx, cy, radius).value.t1 <= Intersect(m, ray, cx, cy, radius).value.t2
  {
    var a, b := SquaredLength(ray), LinearCoeff(ray, cx, cy);
    var s := m.sqrt(b * b - 4.0 * a * ConstCoeff(ray, cx, cy, radius));
    DivMonotone(-b - s, -b + s, 2.0 * a);
  }

  /** The point at distance `t` along the ray lies on the circle of the
      given centre and radius. */
  ghost predicate Meets(ray: Ray, cx: real, cy: real, radius: real, t: real)
  {
    var px := ray.sx + ray.dx * t - cx;
    var py := ray.sy + ray.dy * t - cy;
    px * px + py * py == radius * radius
  }

  /** The value of `a t^2 + b t + c`. */
  function Poly(a: real, b: real, c: real, t: real): real
  {
    a * t * t + b * t + c
  }

  /** `4a (a t^2 + b t + c) == (2 a t + b)^2 - (b^2 - 4 a c)`. */
  lemma CompleteSquare(a: real, b: real, c: real, t: real)
    ensures 4.0 * a * (a * t * t + b * t + c) == (2.0 * a * t + b) * (2.0 * a * t + b) - (b * b - 4.0 * a * c)
  {
  }

  /** Two numbers with the same square are equal or opposite. */
  lemma SameSquare(u: real, s: real)
    requires u * u == s * s
    ensures u == s || u == -s
  {
    assert (u - s) * (u + s) == u * u - s * s;
    if u != s && u != -s {
      ProductNonZero(u - s, u + s);
    }
  }

  lemma ProductNonZero(x: real, y: real)
    requires x != 0.0 && y != 0.0
    ensures x * y != 0.0
  {
    if x > 0.0 && y > 0.0 { MulMonotone(0.0, x, y); }
    else if x > 0.0 { MulMonotone(y, 0.0, x); }
    else if y > 0.0 { MulMonotone(x, 0.0, y); }
    else { MulMonotone(0.0, -x, -y); }
  }

  /** With `a > 0` and `s` the square root of the discriminant, the roots of
      `a t^2 + b t + c` are exactly `(-b - s) / 2a` and `(-b + s) / 2a`. */
  lemma QuadraticRoots(a: real, b: real, c: real, s: real, t: real)
    requires a > 0.0 && s >= 0.0 && s * s == b * b - 4.0 * a * c
    ensures a * t * t + b * t + c == 0.0 <==> (t == (-b - s) / (2.0 * a) || t == (-b + s) / (2.0 * a))
  {
    var q := a * t * t + b * t + c;
    var u := 2.0 * a * t + b;
    CompleteSquare(a, b, c, t);
    assert 4.0 * a * q == u * u - s * s;
    if q == 0.0 {
      SameSquare(u, s);
    } else {
      ProductNonZero(4.0 * a, q);
    }
  }

  /** With a negative discriminant `a t^2 + b t + c` has no root. */
  lemma QuadraticNoRoot(a: real, b: real, c: real, t: real)
    requires a > 0.0 && b * b - 4.0 * a * c < 0.0
    ensures a * t * t + b * t + c != 0.0
  {
    var u := 2.0 * a * t + b;
    CompleteSquare(a, b, c, t);
    SquareNonNegative(u);
  }

  /** Meeting the circle is a root of the quadratic `Intersect` solves. */
  lemma MeetsQuadratic(ray: Ray, cx: real, cy: real, radius: real, t: real)
    ensures Meets(ray, cx, cy, radius, t) <==>
              Poly(SquaredLength(ray), LinearCoeff(ray, cx, cy), ConstCoeff(ray, cx, cy, radius), t) == 0.0
  {
    var ox := ray.sx - cx;
    var oy := ray.sy - cy;
    var px := ray.sx + ray.dx * t - cx;
    var py := ray.sy + ray.dy * t - cy;
    assert px == ox + ray.dx * t && py == oy + ray.dy * t;
    assert px * px + py * py - radius * radius
        == (ray.dx * ray.dx + ray.dy * ray.dy) * t * t + 2.0 * (ox * ray.dx + oy * ray.dy) * t
           + (ox * ox + oy * oy - radius * radius);
  }

  /** `SolveQuadratic` finds every root: none when it returns nothing,
      otherwise exactly its two. */
  lemma SolveQuadraticRoots(m: Maths, a: real, b: real, c: real, t: real)
    requires SqrtLaw(m) && a > 0.0
    ensures SolveQuadratic(m, a, b, c).None? ==> Poly(a, b, c, t) != 0.0
    ensures SolveQuadratic(m, a, b, c).Some? ==>
              (Poly(a, b, c, t) == 0.0 <==>
                 t == SolveQuadratic(m, a, b, c).value.t1 || t == SolveQuadratic(m, a, b, c).value.t2)
  {
    var disc := b * b - 4.0 * a * c;
    if disc >= 0.0 {
      QuadraticRoots(a, b, c, m.sqrt(disc), t);
    } else {
      QuadraticNoRoot(a, b, c, t);
    }
  }

  /** `Intersect` finds exactly the distances at which the ray's line meets
      the circle: none when it returns nothing, otherwise its two roots. */
  lemma IntersectMeets(m: Maths, ray: Ray, cx: real, cy: real, radius: real, t: real)
    requires SqrtLaw(m) && Moving(ray)
    ensures Intersect(m, ray, cx, cy, radius).None? ==> !Meets(ray, cx, cy, radius, t)
    ensures Intersect(m, ray, cx, cy, radius).Some? ==>
              (Meets(ray, cx, cy, radius, t) <==>
                 t == Intersect(m, ray, cx, cy, radius).value.t1 || t == Intersect(m, ray, cx, cy, radius).value.t2)
  {
    MeetsQuadratic(ray, cx, cy, radius, t);
    SolveQuadraticRoots(m, SquaredLength(ray), LinearCoeff(ray, cx, cy), ConstCoeff(ray, cx, cy, radius), t);
  }

  /** What the vision reads of another ant. */
  datatype AntTarget = AntTarget(alive: bool, id: int, x: real, y: real, radius: real)

  /** What the vision reads of a food source. */
  datatype FoodTarget = FoodTarget(x: real, y: real, amount: real, radius: real)

  /** The point `(x, y)` lies within the ray length of the ray's origin. */
  predicate InRange(ray: Ray, x: real, y: real)
  {
    (x - ray.sx) * (x - ray.sx) + (y - ray.sy) * (y - ray.sy) <= RayLengthSq
  }

  /** The distance at which the ray meets ant `t`: live ants other than the
      viewer, within range, contribute their first positive root, taken on a
      circle two units wider than the ant. */
  function AntCandidate(m: Maths, ray: Ray, t: AntTarget, excludeId: int): Option<real>
    requires Moving(ray)
  {
    if !t.alive || t.id == excludeId || !InRange(ray, t.x, t.y) then None
    else match Intersect(m, ray, t.x, t.y, t.radius + 2.0)
      case None => None
      case Some(rs) => if rs.t1 > 0.0 then Some(rs.t1) else if rs.t2 > 0.0 then Some(rs.t2) else None
  }

  /** The distance at which the ray meets food source `f`: non-empty sources
      within range contribute their nearer root when it is positive. */
  function FoodCandidate(m: Maths, ray: Ray, f: FoodTarget): Option<real>
    requires Moving(ray)
  {
    if f.amount <= 0.0 || !InRange(ray, f.x, f.y) then None
    else match Intersect(m, ray, f.x, f.y, f.radius)
      case None => None
      case Some(rs) => if rs.t1 > 0.0 then Some(rs.t1) else None
  }

  /** An ant's candidate is the nearest positive distance at which the ray
      meets the ant's widened circle: absent for dead ants, the viewer and
      ants out of range, present whenever such a distance exists. */
  lemma AntCandidateNearest(m: Maths, ray: Ray, t: AntTarget, excludeId: int, d: real)
    requires SqrtLaw(m) && Moving(ray)
    ensures (!t.alive || t.id == excludeId || !InRange(ray, t.x, t.y)) ==> AntCandidate(m, ray, t, excludeId).None?
    ensures AntCandidate(m, ray, t, excludeId).Some? ==>
              && AntCandidate(m, ray, t, excludeId).value > 0.0
              && Meets(ray, t.x, t.y, t.radius + 2.0, AntCandidate(m, ray, t, excludeId).value)
    ensures AntCandidate(m, ray, t, excludeId).Some? && d > 0.0 && Meets(ray, t.x, t.y, t.radius + 2.0, d) ==>
              AntCandidate(m, ray, t, excludeId).value <= d
    ensures t.alive && t.id != excludeId && InRange(ray, t.x, t.y) && d > 0.0 && Meets(ray, t.x, t.y, t.radius + 2.0, d) ==>
              AntCandidate(m, ray, t, excludeId).Some?
  {
    var c := AntCandidate(m, ray, t, excludeId);
    var hit := Intersect(m, ray, t.x, t.y, t.radius + 2.0);
    IntersectMeets(m, ray, t.x, t.y, t.radius + 2.0, d);
    if c.Some? {
      RootsOrdered(m, ray, t.x, t.y, t.radius + 2.0);
      IntersectMeets(m, ray, t.x, t.y, t.radius + 2.0, c.value);
    }
  }

  /** A food source's candidate is the nearest distance, positive, at which the
      ray's line meets the source's circle: absent for empty sources and those
      out of range, present when every meeting distance lies ahead. */
  lemma FoodCandidateNearest(m: Maths, ray: Ray, f: FoodTarget, d: real)
    requires SqrtLaw(m) && Moving(ray)
    ensures (f.amount <= 0.0 || !InRange(ray, f.x, f.y)) ==> FoodCandidate(m, ray, f).None?
    ensures FoodCandidate(m, ray, f).Some? ==>
              FoodCandidate(m, ray, f).value > 0.0 && Meets(ray, f.x, f.y, f.radius, FoodCandidate(m, ray, f).value)
    ensures FoodCandidate(m, ray, f).Some? && Meets(ray, f.x, f.y, f.radius, d) ==> FoodCandidate(m, ray, f).value <= d
    ensures && f.amount > 0.0 && InRange(ray, f.x, f.y) && Meets(ray, f.x, f.y, f.radius, d)
            && (forall e :: Meets(ray, f.x, f.y, f.radius, e) ==> e > 0.0)
            ==> FoodCandidate(m, ray, f).Some?
  {
    var hit := Intersect(m, ray, f.x, f.y, f.radius);
    IntersectMeets(m, ray, f.x, f.y, f.radius, d);
    if hit.Some? {
      RootsOrdered(m, ray, f.x, f.y, f.radius);
      IntersectMeets(m, ray, f.x, f.y, f.radius, hit.value.t1);
    }
  }

  /** `d` is the smallest of the ray length and every candidate distance. */
  ghost predicate NearestOf(cands: seq<Option<real>>, d: real)
  {
    && 0.0 < d <= RayLength
    && (forall j :: 0 <= j < |cands| && cands[j].Some? ==> d <= cands[j].value)
    && (d == RayLength || exists j :: 0 <= j < |cands| && cands[j].Some? && cands[j].value == d)
  }

  function AntCandidates(m: Maths, ray: Ray, ants: seq<AntTarget>, excludeId: int): (c: seq<Option<real>>)
    requires Moving(ray)
    ensures |c| == |ants| && forall j :: 0 <= j < |ants| ==> c[j] == AntCandidate(m, ray, ants[j], excludeId)
  {
    seq(|ants|, j requires 0 <= j < |ants| => AntCandidate(m, ray, ants[j], excludeId))
  }

  function FoodCandidates(m: Maths, ray: Ray, foods: seq<FoodTarget>): (c: seq<Option<real>>)
    requires Moving(ray)
    ensures |c| == |foods| && forall j :: 0 <= j < |foods| ==> c[j] == FoodCandidate(m, ray, foods[j])
  {
    seq(|foods|, j requires 0 <= j < |foods| => FoodCandidate(m, ray, foods[j]))
  }

  /** `_raycast_ants`: the loop of the source, keeping the nearest hit. */
  method RaycastAnts(m: Maths, ray: Ray, ants: seq<AntTarget>, excludeId: int) returns (nearest: real)
    requires SqrtLaw(m) && Moving(ray)
    ensures NearestOf(AntCandidates(m, ray, ants, excludeId), nearest)
  {
    var cands := AntCandidates(m, ray, ants, excludeId);
    nearest := RayLength;
    var i := 0;
    while i < |ants|
      invariant 0 <= i <= |ants|
      invariant NearestOf(cands[..i], nearest)
    {
      ghost var prev := nearest;
      nearest := MeetAnt(m, ray, ants[i], excludeId, nearest);
      NearestExtend(cands[..i], prev, cands[i]);
      assert cands[..i + 1] == cands[..i] + [cands[i]];
      i := i + 1;
    }
    assert cands[..|ants|] == cands;
  }

  /** One iteration of `_raycast_ants`: the nearer positive root of an
      alive, other, in-range ant replaces the running distance when smaller,
      and otherwise the farther positive root does. */
  method MeetAnt(m: Maths, ray: Ray, t: AntTarget, excludeId: int, prev: real) returns (nearest: real)
    requires SqrtLaw(m) && Moving(ray)
    ensures nearest == Nearer(AntCandidate(m, ray, t, excludeId), prev)
  {
    nearest := prev;
    if t.alive && t.id != excludeId && InRange(ray, t.x, t.y) {
      var hit := Intersect(m, ray, t.x, t.y, t.radius + 2.0);
      if hit.Some? {
        RootsOrdered(m, ray, t.x, t.y, t.radius + 2.0);
        var t1, t2 := hit.value.t1, hit.value.t2;
        if t1 > 0.0 && t1 < nearest {
          nearest := t1;
        } else if t2 > 0.0 && t2 < nearest {
          nearest := t2;
        }
      }
    }
  }

  /** The running nearest distance after meeting candidate `c`. */
  function Nearer(c: Option<real>, d: real): real
  {
    if c.Some? && 0.0 < c.value < d then c.value else d
  }

  /** Meeting one more candidate keeps the running nearest distance. */
  lemma NearestExtend(cands: seq<Option<real>>, d: real, c: Option<real>)
    requires NearestOf(cands, d) && (c.Some? ==> c.value > 0.0)
    ensures NearestOf(cands + [c], Nearer(c, d))
  {
    var e := Nearer(c, d);
    if e != RayLength {
      if e == d {
        var j :| 0 <= j < |cands| && cands[j].Some? && cands[j].value == d;
        assert (cands + [c])[j] == cands[j];
      } else {
        assert (cands + [c])[|cands|] == c;
      }
    }
  }

  /** `_raycast_food`: the same scan with only the nearer root. */
  method RaycastFood(m: Maths, ray: Ray, foods: seq<FoodTarget>) returns (nearest: real)
    requires Moving(ray)
    ensures NearestOf(FoodCandidates(m, ray, foods), nearest)
  {
    var cands := FoodCandidates(m, ray, foods);
    nearest := RayLength;
    var i := 0;
    while i < |foods|
      invariant 0 <= i <= |foods|
      invariant NearestOf(cands[..i], nearest)
    {
      var f := foods[i];
      if f.amount > 0.0 && InRange(ray, f.x, f.y) {
        var hit := Intersect(m, ray, f.x, f.y, f.radius);
        if hit.Some? && hit.value.t1 > 0.0 && hit.value.t1 < nearest {
          nearest := hit.value.t1;
        }
      }
      assert cands[..i + 1] == cands[..i] + [cands[i]];
      i := i + 1;
    }
    assert cands[..|foods|] == cands;
  }

  /** A raw distance as a reading: its fraction of the ray length when it is
      below the ray length, else the 1.0 that means nothing seen. */
  ghost predicate Reading(raw: real, dist: real, hit: bool)
  {
    if raw < RayLength then hit && dist == raw / RayLength else !hit && dist == 1.0
  }

  /** What one ray reports for the heading `angle`: walls only when a wall
      manager is present, plus the nearest ant and food distances. */
  ghost predicate Sees(m: Maths, sx: real, sy: real, angle: real, walls: Option<seq<Rect>>,
                       ants: seq<AntTarget>, foods: seq<FoodTarget>, excludeId: int, r: VisionRay)
    requires TrigLaw(m)
  {
    var ray := Ray(sx, sy, m.cos(angle), m.sin(angle));
    && (walls.None? ==> r.wallDist == 1.0 && !r.hitWall)
    && (walls.Some? ==> exists d :: WallReading(WallProbe(walls.value, ray), d) && Reading(d, r.wallDist, r.hitWall))
    && (exists d :: NearestOf(AntCandidates(m, ray, ants, excludeId), d) && Reading(d, r.antDist, r.hitAnt))
    && (exists d :: NearestOf(FoodCandidates(m, ray, foods), d) && Reading(d, r.foodDist, r.hitFood))
  }

  lemma ReadingInRange(raw: real, dist: real, hit: bool)
    requires 0.0 <= raw <= RayLength && Reading(raw, dist, hit)
    ensures 0.0 <= dist <= 1.0 && (hit <==> dist < 1.0)
  {
  }

  /** `_cast_single_ray`. */
  method CastSingleRay(m: Maths, sx: real, sy: real, angle: real, walls: Option<seq<Rect>>,
                       ants: seq<AntTarget>, foods: seq<FoodTarget>, excludeId: int) returns (r: VisionRay)
    requires SqrtLaw(m) && TrigLaw(m)
    ensures Sees(m, sx, sy, angle, walls, ants, foods, excludeId, r)
    ensures RayLawful(r)
  {
    var ray := Ray(sx, sy, m.cos(angle), m.sin(angle));
    assert Moving(ray);
    r := EmptyRay;
    if walls.Some? {
      var wd := RaycastWalls(WallProbe(walls.value, ray));
      if wd < RayLength {
        r := r.(wallDist := wd / RayLength, hitWall := true);
      }
      assert Reading(wd, r.wallDist, r.hitWall);
      ReadingInRange(wd, r.wallDist, r.hitWall);
    }
    var ad := RaycastAnts(m, ray, ants, excludeId);
    if ad < RayLength {
      r := r.(antDist := ad / RayLength, hitAnt := true);
    }
    assert Reading(ad, r.antDist, r.hitAnt);
    ReadingInRange(ad, r.antDist, r.hitAnt);
    var fd := RaycastFood(m, ray, foods);
    if fd < RayLength {
      r := r.(foodDist := fd / RayLength, hitFood := true);
    }
    assert Reading(fd, r.foodDist, r.hitFood);
    ReadingInRange(fd, r.foodDist, r.hitFood);
  }

  /** `AntVision`: the rays of the last cast and the angle offsets in use. */
  datatype AntVision = AntVision(rays: seq<VisionRay>, rayAngles: seq<real>)

  /** `AntVision(num_rays)`: default rays, and the first `num_rays` offsets
      (all seven when more are asked for, as slicing does). */
  function NewVision(numRays: nat): (v: AntVision)
    ensures |v.rays| == numRays && |v.rayAngles| == MinInt(numRays, NumRays)
    ensures forall i :: 0 <= i < numRays ==> v.rays[i] == EmptyRay
    ensures v.rayAngles == RayAngles()[..MinInt(numRays, NumRays)]
  {
    AntVision(seq(numRays, _ => EmptyRay), RayAngles()[..MinInt(numRays, NumRays)])
  }

  /** `cast_rays`: ray `i` is cast at `heading + ray_angles[i]` for every angle
      in use; rays beyond the angle list keep their previous readings. */
  method CastRays(m: Maths, v: AntVision, sx: real, sy: real, heading: real, walls: Option<seq<Rect>>,
                  ants: seq<AntTarget>, foods: seq<FoodTarget>, excludeId: int) returns (r: AntVision)
    requires SqrtLaw(m) && TrigLaw(m)
    requires |v.rayAngles| <= |v.rays|
    ensures r.rayAngles == v.rayAngles && |r.rays| == |v.rays|
    ensures forall i :: 0 <= i < |v.rayAngles| ==>
              RayLawful(r.rays[i]) && Sees(m, sx, sy, heading + v.rayAngles[i], walls, ants, foods, excludeId, r.rays[i])
    ensures forall i :: |v.rayAngles| <= i < |v.rays| ==> r.rays[i] == v.rays[i]
  {
    var rays := v.rays;
    var i := 0;
    while i < |v.rayAngles|
      invariant 0 <= i <= |v.rayAngles| && |rays| == |v.rays|
      invariant forall j :: 0 <= j < i ==>
                  RayLawful(rays[j]) && Sees(m, sx, sy, heading + v.rayAngles[j], walls, ants, foods, excludeId, rays[j])
      invariant forall j :: i <= j < |rays| ==> rays[j] == v.rays[j]
    {
      var ray := CastSingleRay(m, sx, sy, heading + v.rayAngles[i], walls, ants, foods, excludeId);
      rays := rays[i := ray];
      i := i + 1;
    }
    r := v.(rays := rays);
  }

  /** `get_neural_inputs`: every wall reading inverted, then every ant
      reading, then every food reading. */
  function NeuralInputs(rays: seq<VisionRay>): (inputs: seq<real>)
    ensures |inputs| == 3 * |rays|
    ensures forall i :: 0 <= i < |rays| ==>
              && inputs[i] == 1.0 - rays[i].wallDist
              && inputs[|rays| + i] == 1.0 - rays[i].antDist
              && inputs[2 * |rays| + i] == 1.0 - rays[i].foodDist
  {
    seq(|rays|, i requires 0 <= i < |rays| => 1.0 - rays[i].wallDist)
    + seq(|rays|, i requires 0 <= i < |rays| => 1.0 - rays[i].antDist)
    + seq(|rays|, i requires 0 <= i < |rays| => 1.0 - rays[i].foodDist)
  }

  /** Lawful rays give inputs in `[0, 1]`, positive exactly where something was seen. */
  lemma NeuralInputsInRange(rays: seq<VisionRay>)
    requires forall i :: 0 <= i < |rays| ==> RayLawful(rays[i])
    ensures forall k :: 0 <= k < |NeuralInputs(rays)| ==> 0.0 <= NeuralInputs(rays)[k] <= 1.0
    ensures forall i :: 0 <= i < |rays| ==>
              && (NeuralInputs(rays)[i] > 0.0 <==> rays[i].hitWall)
              && (NeuralInputs(rays)[|rays| + i] > 0.0 <==> rays[i].hitAnt)
              && (NeuralInputs(rays)[2 * |rays| + i] > 0.0 <==> rays[i].hitFood)
  {
    var inputs := NeuralInputs(rays);
    var n := |rays|;
    forall k | 0 <= k < |inputs|
      ensures 0.0 <= inputs[k] <= 1.0
    {
      if k < n {
      } else if k < 2 * n {
        assert inputs[n + (k - n)] == 1.0 - rays[k - n].antDist;
      } else {
        assert inputs[2 * n + (k - 2 * n)] == 1.0 - rays[k - 2 * n].foodDist;
      }
    }
  }

  /** A freshly built vision reports nothing: every input is 0. */
  lemma FreshVisionBlank(numRays: nat)
    ensures forall k :: 0 <= k < 3 * numRays ==> NeuralInputs(NewVision(numRays).rays)[k] == 0.0
  {
    var rays := NewVision(numRays).rays;
    var inputs := NeuralInputs(rays);
    forall k | 0 <= k < 3 * numRays
      ensures inputs[k] == 0.0
    {
      if k < numRays {
      } else if k < 2 * numRays {
        assert inputs[numRays + (k - numRays)] == 1.0 - rays[k - numRays].antDist;
      } else {
        assert inputs[2 * numRays + (k - 2 * numRays)] == 1.0 - rays[k - 2 * numRays].foodDist;
      }
    }
  }
}
