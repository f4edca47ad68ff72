/** The ant agent of `src/ant.py`: one call of `Ant.update` per frame, with
    the stuck detector, the energy budget, the FORAGING / RETURNING / IDLE
    state machine, food pickup and drop-off, pheromone deposits, wall
    handling and the hard clamp to the play area. Steering angles are kept
    but never reasoned about numerically; random draws arrive in `Draws`. */
module Ants {
  import opened Common
  import opened Selection
  import opened Maze
  import opened Walls
  import PheromoneModel

  /** Energy spent every live frame (`DEFAULT_ENERGY_EFFICIENCY`). */
  const EnergyCost: real := 0.01
  /** Frames between two stuck checks. */
  const CheckInterval: int := 180
  /** Displacement an ant must make between two stuck checks. */
  const MinMovement: real := 80.0
  /** Failed escapes after which the ant dies. */
  const MaxEscapeAttempts: int := 5
  /** Frames an ant may spend inside a wall before it dies. */
  const WallStuckLimit: int := 60
  const PickupRange: real := 15.0
  /** `ANT_SMELL_RANGE` and `ANT_SMELL_STRENGTH` of `src/config.py`. */
  const SmellRange: real := 150.0
  const SmellStrength: real := 0.8
  /** Pheromone trails are followed only farther than this from the colony. */
  const TrailDistance: real := 150.0
  /** Inside this distance the wander heading is biased away from the colony. */
  const OutwardDistance: real := 250.0
  const DropRange: real := 25.0
  const EnergyRefill: real := 20.0
  /** Deposits happen only farther than this from the colony. */
  const DepositDistance: real := 50.0
  /** Frames between two deposits. */
  const DepositCooldown: int := 2
  const PheromoneDeposit: real := 8.0
  const PheromoneStrength: real := 1.5
  const PheromoneSensitivity: real := 0.15
  const Speed: real := 2.0
  const Radius: real := 6.0
  const Momentum: real := 0.7
  const EdgeBuffer: int := 35
  const EdgeTurn: real := 0.3
  const RepulsionRadius: real := 25.0
  const AntRepel: real := 0.3
  /** Look-ahead of the proactive wall avoidance. */
  const LookRange: real := 80.0
  /** Frames without progress before a random escape heading. */
  const StuckFrames: int := 30

  datatype Point = Point(x: real, y: real)

  /** A `FoodSource`; `amount` is a float in the source. */
  datatype Food = Food(x: real, y: real, amount: real)

  /** The state of one ant that `update` reads or writes. `timeSinceFood` is
      None until the first live frame creates the attribute. */
  datatype Ant = Ant(
    x: real, y: real,
    alive: bool,
    state: AntState,
    carryingFood: bool,
    foodAmount: int,
    knowsFoodLocation: bool,
    lastFood: Option<Point>,
    energy: real,
    maxEnergy: real,
    direction: real,
    previousDirection: real,
    depositCooldown: int,
    foodCollected: int,
    successfulTrips: int,
    movementTimer: int,
    checkpoint: Point,
    stuckEscapeCount: int,
    timeSinceFood: Option<int>,
    stuckCounter: int,
    wallStuckTime: int)

  /** The random values one frame may consume, one per `random` call site.
      The comments give the range each is drawn from. */
  datatype Draws = Draws(
    escapeHeading: real,   // uniform(0, 2 pi), stuck escape
    escapeDx: real,        // uniform(-15, 15)
    escapeDy: real,        // uniform(-15, 15)
    edgeLeft: real,        // uniform(0, 0.3), one per edge
    edgeRight: real,
    edgeTop: real,
    edgeBottom: real,
    edgeChance: real,      // random()
    edgeTurn: real,        // uniform(-pi/2, pi/2)
    smellJitter: real,     // uniform(-0.05, 0.05)
    trailJitter: real,     // uniform(-0.1, 0.1)
    wanderTurn: real,      // uniform(-0.15, 0.15)
    dropTurn: real,        // uniform(-0.8, 0.8)
    homeJitter: real,      // uniform(-0.05, 0.05)
    idleTurn: real,        // uniform(-0.2, 0.2)
    stuckHeading: real,    // uniform(0, 2 pi), escape after 30 stuck frames
    moveJitter: real,      // uniform(-0.05, 0.05)
    bounceJitter: real,    // uniform(-0.5, 0.5)
    faceRight: real,       // uniform(-pi/2, pi/2)
    faceLeft: real,        // uniform(pi/2, 3 pi/2)
    faceDown: real,        // uniform(-pi/2, pi/2)
    faceUp: real)          // uniform(pi/2, 3 pi/2)

  /** `Ant.__init__` at `(x, y)` with the random initial `heading`. */
  function NewAnt(x: real, y: real, heading: real): (a: Ant)
    ensures Lawful(a) && a.alive && a.state == Foraging && a.energy == a.maxEnergy
  {
    Ant(x, y, true, Foraging, false, 0, false, None, 100.0, 100.0, heading, heading, 0,
        0, 0, 0, Point(x, y), 0, None, 0, 0)
  }

  /** The invariant every frame keeps: energy never above the maximum, a
      cooldown in `[0, 2]`, RETURNING exactly while carrying one unit, one
      unit collected per trip, and the counters inside the ranges that keep
      a live ant alive. */
  predicate Lawful(a: Ant)
  {
    && a.energy <= a.maxEnergy
    && 0 <= a.depositCooldown <= DepositCooldown
    && (a.state == Returning <==> a.carryingFood)
    && a.foodAmount == (if a.carryingFood then 1 else 0)
    && a.foodCollected == a.successfulTrips
    && 0 <= a.movementTimer <= CheckInterval && (a.alive ==> a.movementTimer < CheckInterval)
    && 0 <= a.stuckEscapeCount <= MaxEscapeAttempts && (a.alive ==> a.stuckEscapeCount < MaxEscapeAttempts)
    && 0 <= a.wallStuckTime && (a.alive ==> a.wallStuckTime <= WallStuckLimit)
    && 0 <= a.stuckCounter
  }

  predicate WallsProper(walls: seq<Rect>)
  {
    forall i :: 0 <= i < |walls| ==> Proper(walls[i])
  }

  /** A pygame `Rect` is false when its width or height is zero. */
  predicate Truthy(b: Rect)
  {
    b.width != 0 && b.height != 0
  }

  // ---------------------------------------------------------------- stuck check

  /** The stuck detector at the top of `update`; the flag says the ant died. */
  function StuckCheck(m: Maths, a: Ant, d: Draws): (r: (Ant, bool))
    ensures var check := a.movementTimer + 1 >= CheckInterval;
      var slow := Dist(m, a.x, a.y, a.checkpoint.x, a.checkpoint.y) < MinMovement;
      && (r.1 <==> check && slow && a.stuckEscapeCount + 1 >= MaxEscapeAttempts)
      && (!check ==> r.0 == a.(movementTimer := a.movementTimer + 1))
      && (check && slow ==> r.0.stuckEscapeCount == a.stuckEscapeCount + 1)
      && (check && !slow ==> r.0.stuckEscapeCount == 0 && r.0.x == a.x && r.0.y == a.y)
      && (check && !r.1 ==> r.0.movementTimer == 0 && r.0.checkpoint == Point(r.0.x, r.0.y))
    ensures r.0.alive == (a.alive && !r.1)
    ensures r.0 == a.(x := r.0.x, y := r.0.y, direction := r.0.direction, alive := r.0.alive,
                      movementTimer := r.0.movementTimer, checkpoint := r.0.checkpoint,
                      stuckEscapeCount := r.0.stuckEscapeCount)
  {
    var timer := a.movementTimer + 1;
    if timer < CheckInterval then (a.(movementTimer := timer), false)
    else if Dist(m, a.x, a.y, a.checkpoint.x, a.checkpoint.y) < MinMovement then
      var count := a.stuckEscapeCount + 1;
      if count >= MaxEscapeAttempts then
        (a.(movementTimer := timer, stuckEscapeCount := count, alive := false), true)
      else
        var x, y := a.x + d.escapeDx, a.y + d.escapeDy;
        (a.(direction := d.escapeHeading, x := x, y := y, stuckEscapeCount := count,
            checkpoint := Point(x, y), movementTimer := 0), false)
    else
      (a.(stuckEscapeCount := 0, checkpoint := Point(a.x, a.y), movementTimer := 0), false)
  }

  // ---------------------------------------------------------------- steering helpers

  /** `_avoid_edges`: the heading after the four edge tests and the random
      large turn, for a live `bounds`. */
  function AvoidEdges(m: Maths, a: Ant, b: Rect, d: Draws): (dir: real)
    ensures !NearEdge(a, b) ==> dir == a.direction
  {
    var left := a.x < (Left(b) + EdgeBuffer) as real;
    var dir1 := if left && m.cos(a.direction) < 0.0 then a.direction + (EdgeTurn + d.edgeLeft) else a.direction;
    var right := a.x > (Right(b) - EdgeBuffer) as real;
    var dir2 := if right && m.cos(dir1) > 0.0 then dir1 - (EdgeTurn + d.edgeRight) else dir1;
    var top := a.y < (Top(b) + EdgeBuffer) as real;
    var dir3 := if top && m.sin(dir2) < 0.0 then dir2 + (EdgeTurn + d.edgeTop) else dir2;
    var bottom := a.y > (Bottom(b) - EdgeBuffer) as real;
    var dir4 := if bottom && m.sin(dir3) > 0.0 then dir3 - (EdgeTurn + d.edgeBottom) else dir3;
    if (left || right || top || bottom) && d.edgeChance < 0.4 then dir4 + d.edgeTurn else dir4
  }

  /** Within 35 of some edge of the play area. */
  predicate NearEdge(a: Ant, b: Rect)
  {
    || a.x < (Left(b) + EdgeBuffer) as real || a.x > (Right(b) - EdgeBuffer) as real
    || a.y < (Top(b) + EdgeBuffer) as real || a.y > (Bottom(b) - EdgeBuffer) as real
  }

  /** `_avoid_other_ants` from list position `i` on: each other ant strictly
      between 0 and 25 away pulls the heading 30% toward the bearing away
      from it. `me` is this ant's own list position, which is skipped.
      Each pull is a 30% blend toward a bearing in `[-pi, pi]`, so the
      heading never leaves the range spanned by its start and `[-pi, pi]`. */
  function AvoidOthers(m: Maths, x: real, y: real, dir: real, others: seq<Point>, me: int, i: nat): (r: real)
    requires i <= |others|
    ensures AtanLaw(m) ==> Min(dir, -PI) <= r <= Max(dir, PI)
    decreases |others| - i
  {
    if i == |others| then dir
    else
      var dx, dy := x - others[i].x, y - others[i].y;
      var dist := m.sqrt(dx * dx + dy * dy);
      var dir' := if i != me && dist < RepulsionRadius && dist > 0.0
                  then dir * (1.0 - AntRepel) + m.atan2(dy, dx) * AntRepel
                  else dir;
      AvoidOthers(m, x, y, dir', others, me, i + 1)
  }

  /** The ant is far enough from a lone other ant: the heading is kept. */
  lemma AvoidOthersFar(m: Maths, x: real, y: real, dir: real, others: seq<Point>, me: int)
    requires forall j :: 0 <= j < |others| && j != me ==>
      var dx, dy := x - others[j].x, y - others[j].y;
      !(m.sqrt(dx * dx + dy * dy) < RepulsionRadius && m.sqrt(dx * dx + dy * dy) > 0.0)
    ensures AvoidOthers(m, x, y, dir, others, me, 0) == dir
  {
    AvoidOthersFarFrom(m, x, y, dir, others, me, 0);
  }

  lemma {:induction false} AvoidOthersFarFrom(m: Maths, x: real, y: real, dir: real, others: seq<Point>, me: int, i: nat)
    requires i <= |others|
    requires forall j :: i <= j < |others| && j != me ==>
      var dx, dy := x - others[j].x, y - others[j].y;
      !(m.sqrt(dx * dx + dy * dy) < RepulsionRadius && m.sqrt(dx * dx + dy * dy) > 0.0)
    ensures AvoidOthers(m, x, y, dir, others, me, i) == dir
    decreases |others| - i
  {
    if i < |others| {
      AvoidOthersFarFrom(m, x, y, dir, others, me, i + 1);
    }
  }

  // ---------------------------------------------------------------- foraging

  /** Close enough to pick up a source that still holds food. */
  predicate CanPickUp(m: Maths, a: Ant, f: Food)
  {
    Dist(m, a.x, a.y, f.x, f.y) < PickupRange && f.amount > 0.0
  }

  /** The first source, at list position `i` or later, the ant can pick up from. */
  function FirstPickup(m: Maths, a: Ant, foods: seq<Food>, i: nat): (r: Option<nat>)
    requires i <= |foods|
    ensures r.None? <==> forall j :: i <= j < |foods| ==> !CanPickUp(m, a, foods[j])
    ensures r.Some? ==> && i <= r.value < |foods| && CanPickUp(m, a, foods[r.value])
                        && forall j :: i <= j < r.value ==> !CanPickUp(m, a, foods[j])
    decreases |foods| - i
  {
    if i == |foods| then None
    else if CanPickUp(m, a, foods[i]) then Some(i)
    else FirstPickup(m, a, foods, i + 1)
  }

  /** The value the smell scan compares for each source: its distance, or
      the smell range itself for an empty source, which can never win the
      strict `<` against a best that starts at the smell range. */
  function SmellDistances(m: Maths, a: Ant, foods: seq<Food>): (ds: seq<real>)
    ensures |ds| == |foods|
    ensures forall j :: 0 <= j < |foods| ==>
      ds[j] == if foods[j].amount <= 0.0 then SmellRange else Dist(m, a.x, a.y, foods[j].x, foods[j].y)
  {
    seq(|foods|, j requires 0 <= j < |foods| =>
      if foods[j].amount <= 0.0 then SmellRange else Dist(m, a.x, a.y, foods[j].x, foods[j].y))
  }

  /** The smell step: the nearest non-empty source strictly within the smell
      range, the first one on ties. */
  function SmelledFood(m: Maths, a: Ant, foods: seq<Food>): (r: Option<nat>)
    ensures r.None? <==> forall j :: 0 <= j < |foods| ==>
      foods[j].amount <= 0.0 || Dist(m, a.x, a.y, foods[j].x, foods[j].y) >= SmellRange
    ensures r.Some? ==>
      && r.value < |foods| && foods[r.value].amount > 0.0
      && Dist(m, a.x, a.y, foods[r.value].x, foods[r.value].y) < SmellRange
      && (forall j :: 0 <= j < |foods| && foods[j].amount > 0.0 ==>
            Dist(m, a.x, a.y, foods[r.value].x, foods[r.value].y) <= Dist(m, a.x, a.y, foods[j].x, foods[j].y))
      && (forall j :: 0 <= j < r.value && foods[j].amount > 0.0 ==>
            Dist(m, a.x, a.y, foods[r.value].x, foods[r.value].y) < Dist(m, a.x, a.y, foods[j].x, foods[j].y))
  {
    var ds := SmellDistances(m, a, foods);
    FirstMin(ds, SmellRange)
  }

  /** One steering step of `_forage`: turn by the wrapped difference `w`
      scaled by `k`, then add the random `jitter`. */
  function Steer(dir: real, w: real, k: real, jitter: real): real
  {
    dir + w * k + jitter
  }

  /** A step scaling a turn of at most `bound` by `k >= 0` turns by at most
      `bound * k` besides the jitter, strictly less for a strictly smaller
      turn and positive `k`. */
  lemma SteerTurn(dir: real, w: real, k: real, jitter: real, bound: real)
    requires Abs(w) <= bound && 0.0 <= k
    ensures Abs(Steer(dir, w, k, jitter) - dir - jitter) <= bound * k
    ensures Abs(w) < bound && 0.0 < k ==> Abs(Steer(dir, w, k, jitter) - dir - jitter) < bound * k
  {
    ScaledTurn(w, bound, k);
  }

  /** The share of the turn toward a source smelled at distance `dist`:
      the smell strength times `1 - dist / 150`. */
  function SmellBlend(dist: real): real
  {
    SmellStrength * (1.0 - dist / SmellRange)
  }

  /** The smell branch of `_forage`: blend toward source `f`, more strongly
      the nearer it is, plus the jitter. */
  function SmellSteer(m: Maths, a: Ant, f: Food, jitter: real): real
  {
    var toward := m.atan2(f.y - a.y, f.x - a.x);
    Steer(a.direction, WrapAngle(toward - a.direction), SmellBlend(Dist(m, a.x, a.y, f.x, f.y)), jitter)
  }

  /** The heading `_forage` leaves when nothing is picked up: toward the
      smelled source, else along a forward food trail far from the colony,
      else a wander with an outward bias near the colony. */
  function ForageHeading(m: Maths, a: Ant, foods: seq<Food>, p: PheromoneModel.Model, colony: Point, d: Draws): real
    requires PheromoneModel.Valid(p)
  {
    match SmelledFood(m, a, foods)
    case Some(k) => SmellSteer(m, a, foods[k], d.smellJitter)
    case None =>
      var cd := Dist(m, a.x, a.y, colony.x, colony.y);
      var trail := if cd > TrailDistance
                   then PheromoneModel.TrailDirection(p, a.x, a.y, PheromoneModel.FoodTrail, Some(a.direction))
                   else None;
      RoamSteer(m, a, colony, cd, trail, d)
  }

  /** `_forage` with no source smelled, at distance `cd` from the colony
      and with the food-trail bearing `trail` found there, if any: follow a
      roughly forward trail, else wander. */
  function RoamSteer(m: Maths, a: Ant, colony: Point, cd: real, trail: Option<real>, d: Draws): real
  {
    if trail.Some? && Abs(WrapAngle(trail.value - a.direction)) < PI * 0.6 then
      Steer(a.direction, WrapAngle(trail.value - a.direction), 0.25 * PheromoneSensitivity, d.trailJitter)
    else WanderSteer(m, a, colony, cd, d.wanderTurn)
  }

  /** The outward bias of the wander at distance `cd` from the colony:
      `(250 - cd) / 250 * 0.2`. */
  function OutwardBias(cd: real): real
  {
    (OutwardDistance - cd) / OutwardDistance * 0.2
  }

  /** The wander branch of `_forage` at distance `cd` from the colony: an
      outward bias inside 250, then the random turn. */
  function WanderSteer(m: Maths, a: Ant, colony: Point, cd: real, turn: real): real
  {
    if cd < OutwardDistance
    then Steer(a.direction, WrapAngle(m.atan2(a.y - colony.y, a.x - colony.x) - a.direction), OutwardBias(cd), turn)
    else a.direction + turn
  }

  /** How far each branch of the foraging steer can turn the ant, apart
      from its random jitter: toward a smelled source by at most
      `pi * 0.8 * (1 - dist / 150)`, so less the farther the source; along a
      food trail, only farther than 150 from the colony, by less than
      `pi * 0.6 * 0.25 * 0.15`; and in a wander by at most `pi * 0.2`, not at
      all at 250 or more from the colony. */
  lemma ForageHeadingTurn(m: Maths, a: Ant, foods: seq<Food>, p: PheromoneModel.Model, colony: Point, d: Draws)
    requires SqrtLaw(m) && PheromoneModel.Valid(p)
    ensures var r := ForageHeading(m, a, foods, p, colony, d);
            match SmelledFood(m, a, foods)
            case Some(k) =>
              Abs(r - a.direction - d.smellJitter) <= PI * SmellBlend(Dist(m, a.x, a.y, foods[k].x, foods[k].y))
            case None =>
              var cd := Dist(m, a.x, a.y, colony.x, colony.y);
              || (cd > TrailDistance && Abs(r - a.direction - d.trailJitter) < PI * 0.6 * (0.25 * PheromoneSensitivity))
              || (&& Abs(r - a.direction - d.wanderTurn) <= PI * 0.2
                  && (cd >= OutwardDistance ==> r == a.direction + d.wanderTurn))
  {
    match SmelledFood(m, a, foods)
    case Some(k) =>
      DistNonNegative(m, a.x, a.y, foods[k].x, foods[k].y);
      SmellSteerTurn(m, a, foods[k], d.smellJitter);
    case None =>
      var cd := Dist(m, a.x, a.y, colony.x, colony.y);
      DistNonNegative(m, a.x, a.y, colony.x, colony.y);
      var trail := if cd > TrailDistance
                   then PheromoneModel.TrailDirection(p, a.x, a.y, PheromoneModel.FoodTrail, Some(a.direction))
                   else None;
      RoamSteerTurn(m, a, colony, cd, trail, d);
  }

  lemma SmellSteerTurn(m: Maths, a: Ant, f: Food, jitter: real)
    requires 0.0 <= Dist(m, a.x, a.y, f.x, f.y) < SmellRange
    ensures Abs(SmellSteer(m, a, f, jitter) - a.direction - jitter) <= PI * SmellBlend(Dist(m, a.x, a.y, f.x, f.y))
  {
    SteerTurn(a.direction, WrapAngle(m.atan2(f.y - a.y, f.x - a.x) - a.direction),
              SmellBlend(Dist(m, a.x, a.y, f.x, f.y)), jitter, PI);
  }

  lemma RoamSteerTurn(m: Maths, a: Ant, colony: Point, cd: real, trail: Option<real>, d: Draws)
    requires 0.0 <= cd && (trail.Some? ==> cd > TrailDistance)
    ensures var r := RoamSteer(m, a, colony, cd, trail, d);
            || (cd > TrailDistance && Abs(r - a.direction - d.trailJitter) < PI * 0.6 * (0.25 * PheromoneSensitivity))
            || (&& Abs(r - a.direction - d.wanderTurn) <= PI * 0.2
                && (cd >= OutwardDistance ==> r == a.direction + d.wanderTurn))
  {
    if trail.Some? && Abs(WrapAngle(trail.value - a.direction)) < PI * 0.6 {
      SteerTurn(a.direction, WrapAngle(trail.value - a.direction), 0.25 * PheromoneSensitivity, d.trailJitter, PI * 0.6);
    } else {
      WanderSteerTurn(m, a, colony, cd, d.wanderTurn);
    }
  }

  lemma WanderSteerTurn(m: Maths, a: Ant, colony: Point, cd: real, turn: real)
    requires 0.0 <= cd
    ensures Abs(WanderSteer(m, a, colony, cd, turn) - a.direction - turn) <= PI * 0.2
    ensures cd >= OutwardDistance ==> WanderSteer(m, a, colony, cd, turn) == a.direction + turn
  {
    if cd < OutwardDistance {
      SteerTurn(a.direction, WrapAngle(m.atan2(a.y - colony.y, a.x - colony.x) - a.direction), OutwardBias(cd), turn, PI);
      MulMonotone(OutwardBias(cd), 0.2, PI);
    }
  }

  /** `_forage`: pick up one unit from the first source in reach and turn
      home, or only steer. */
  function Forage(m: Maths, a: Ant, foods: seq<Food>, p: PheromoneModel.Model, colony: Point, d: Draws): (r: (Ant, seq<Food>))
    requires PheromoneModel.Valid(p)
    ensures |r.1| == |foods|
    ensures match FirstPickup(m, a, foods, 0)
      case Some(k) =>
        && r.1 == foods[k := foods[k].(amount := foods[k].amount - 1.0)]
        && r.0 == a.(state := Returning, carryingFood := true, foodAmount := 1, knowsFoodLocation := true,
                     lastFood := Some(Point(foods[k].x, foods[k].y)), timeSinceFood := Some(0),
                     direction := r.0.direction)
      case None => r.1 == foods && r.0 == a.(direction := r.0.direction)
  {
    match FirstPickup(m, a, foods, 0)
    case Some(k) =>
      var f := foods[k];
      (a.(state := Returning, carryingFood := true, foodAmount := 1, knowsFoodLocation := true,
          lastFood := Some(Point(f.x, f.y)), timeSinceFood := Some(0),
          direction := m.atan2(colony.y - a.y, colony.x - a.x)),
       foods[k := f.(amount := f.amount - 1.0)])
    case None => (a.(direction := ForageHeading(m, a, foods, p, colony, d)), foods)
  }

  /** Total food held by the sources. */
  function TotalFood(foods: seq<Food>): real
  {
    if |foods| == 0 then 0.0 else TotalFood(foods[..|foods| - 1]) + foods[|foods| - 1].amount
  }

  /** Changing one source's amount changes the total by the same amount. */
  lemma {:induction false} TotalFoodUpdate(foods: seq<Food>, k: nat, f: Food)
    requires k < |foods|
    ensures TotalFood(foods[k := f]) == TotalFood(foods) - foods[k].amount + f.amount
    decreases |foods|
  {
    var n := |foods| - 1;
    if k < n {
      assert foods[k := f][..n] == foods[..n][k := f];
      TotalFoodUpdate(foods[..n], k, f);
    } else {
      assert foods[k := f][..n] == foods[..n];
    }
  }

  /** A pickup takes exactly one unit out of the sources and leaves the ant
      carrying exactly that unit; no pickup leaves the sources as they were. */
  lemma PickupTakesOne(m: Maths, a: Ant, foods: seq<Food>, p: PheromoneModel.Model, colony: Point, d: Draws)
    requires PheromoneModel.Valid(p)
    ensures var r := Forage(m, a, foods, p, colony, d);
      && (r.0.carryingFood && !a.carryingFood ==> TotalFood(r.1) == TotalFood(foods) - 1.0 && r.0.foodAmount == 1)
      && (r.1 != foods ==> r.0.state == Returning && TotalFood(r.1) == TotalFood(foods) - 1.0)
  {
    match FirstPickup(m, a, foods, 0)
    case Some(k) => TotalFoodUpdate(foods, k, foods[k].(amount := foods[k].amount - 1.0));
    case None =>
  }

  // ---------------------------------------------------------------- returning and idle

  /** `_return_to_colony`: within 25 of the colony the ant drops its load,
      which the second component reports for `colony.add_food`; otherwise
      it only steers home. */
  function ReturnHome(m: Maths, a: Ant, colony: Point, d: Draws): (r: (Ant, Option<int>))
    ensures Dist(m, a.x, a.y, colony.x, colony.y) < DropRange ==>
      && r.1 == Some(a.foodAmount)
      && r.0 == a.(state := Foraging, carryingFood := false, foodAmount := 0,
                   foodCollected := a.foodCollected + a.foodAmount,
                   successfulTrips := a.successfulTrips + 1,
                   energy := Min(a.energy + EnergyRefill, a.maxEnergy),
                   direction := r.0.direction)
    ensures Dist(m, a.x, a.y, colony.x, colony.y) >= DropRange ==>
      r.1.None? && r.0 == a.(direction := r.0.direction)
  {
    if Dist(m, a.x, a.y, colony.x, colony.y) < DropRange then
      (a.(state := Foraging, carryingFood := false, foodAmount := 0,
          foodCollected := a.foodCollected + a.foodAmount,
          successfulTrips := a.successfulTrips + 1,
          energy := Min(a.energy + EnergyRefill, a.maxEnergy),
          direction := a.direction + PI + d.dropTurn), Some(a.foodAmount))
    else
      var toward := m.atan2(colony.y - a.y, colony.x - a.x);
      (a.(direction := a.direction + WrapAngle(toward - a.direction) * 0.4 + d.homeJitter), None)
  }

  /** The refill never lifts energy above the maximum and never lowers it. */
  lemma RefillBounded(e: real, maxEnergy: real)
    requires e <= maxEnergy
    ensures e <= Min(e + EnergyRefill, maxEnergy) <= maxEnergy
  {
  }

  /** `_idle_behavior`: back to FORAGING above 80% of the maximum energy. */
  function Rest(a: Ant, d: Draws): (r: Ant)
    ensures r.state == (if a.energy > a.maxEnergy * 0.8 then Foraging else a.state)
    ensures r == a.(state := r.state, direction := r.direction)
  {
    if a.energy > a.maxEnergy * 0.8 then a.(state := Foraging)
    else a.(direction := a.direction + d.idleTurn)
  }

  /** The state-based behaviour of `update`: the new ant, the food sources
      and the food dropped at the colony, if any. */
  function Behave(m: Maths, a: Ant, foods: seq<Food>, p: PheromoneModel.Model, colony: Point, d: Draws): (r: (Ant, seq<Food>, Option<int>))
    requires PheromoneModel.Valid(p)
    ensures |r.1| == |foods|
    ensures a.state != Foraging ==> r.1 == foods
    ensures a.state != Returning ==> r.2.None?
  {
    match a.state
    case Foraging => var (b, fs) := Forage(m, a, foods, p, colony, d); (b, fs, None)
    case Returning => var (b, dropped) := ReturnHome(m, a, colony, d); (b, foods, dropped)
    case Idle => (Rest(a, d), foods, None)
  }

  // ---------------------------------------------------------------- movement

  /** The hard clamp of one coordinate: at or past the low edge it moves to
      `lo + 2`, else at or past the high edge to `hi - 2`. */
  function ClampAxis(v: real, lo: int, hi: int): (r: real)
  {
    if v <= lo as real then lo as real + 2.0
    else if v >= hi as real then hi as real - 2.0
    else v
  }

  /** The clamp leaves an interior coordinate alone, puts every coordinate
      strictly inside an interval wider than 2, and only ever lands on the
      coordinate itself or one of the two inset edges. */
  lemma ClampAxisInside(v: real, lo: int, hi: int)
    ensures lo as real < v < hi as real ==> ClampAxis(v, lo, hi) == v
    ensures hi - lo > 2 ==> lo as real < ClampAxis(v, lo, hi) < hi as real
    ensures ClampAxis(v, lo, hi) in {v, lo as real + 2.0, hi as real - 2.0}
    ensures hi - lo > 4 ==> ClampAxis(ClampAxis(v, lo, hi), lo, hi) == ClampAxis(v, lo, hi)
  {
  }

  datatype Pose = Pose(x: real, y: real, direction: real)

  /** The hard clamp at the end of `_move`, with a random heading after each
      bounce; the y bounce overrides the x bounce's heading. */
  function Bounce(x: real, y: real, dir: real, bounds: Option<Rect>, d: Draws): (r: Pose)
    ensures bounds.None? || !Truthy(bounds.value) ==> r == Pose(x, y, dir)
    ensures bounds.Some? && Truthy(bounds.value) ==>
      var b := bounds.value;
      r.x == ClampAxis(x, Left(b), Right(b)) && r.y == ClampAxis(y, Top(b), Bottom(b))
  {
    if bounds.None? || !Truthy(bounds.value) then Pose(x, y, dir)
    else
      var b := bounds.value;
      var dirX := if x <= Left(b) as real then d.faceRight
                  else if x >= Right(b) as real then d.faceLeft
                  else dir;
      var dirY := if y <= Top(b) as real then d.faceDown
                  else if y >= Bottom(b) as real then d.faceUp
                  else dirX;
      Pose(ClampAxis(x, Left(b), Right(b)), ClampAxis(y, Top(b), Bottom(b)), dirY)
  }

  /** pygame's `rect.centerx` and `rect.centery`. */
  function CentreX(r: Rect): real { (r.x + r.width / 2) as real }
  function CentreY(r: Rect): real { (r.y + r.height / 2) as real }

  /** Where `_move` leaves a live ant: position, heading, the momentum
      heading it remembers and the progress counter. */
  datatype Motion = Motion(x: real, y: real, direction: real, previousDirection: real, stuckCounter: int)

  /** The step of `_move` before the clamp: the 30-frame stuck escape,
      proactive wall avoidance, momentum, and the move itself, refused when
      it would enter a wall. `p0` is the position after any push-out. The
      danger-layer call is taken to turn nothing. */
  function Step(m: Maths, a: Ant, walls: seq<Rect>, p0: Point, prev: Point, d: Draws): (r: Motion)
    requires SqrtLaw(m) && WallsProper(walls)
    ensures a.stuckCounter >= 0 ==> r.stuckCounter >= 0
  {
    var escape := a.stuckCounter > StuckFrames;
    var dir0 := if escape then d.stuckHeading else a.direction;
    var count0 := if escape then 0 else a.stuckCounter;
    var p1 := if escape then PushOutOfWall(walls, p0.x, p0.y, Radius) else (p0.x, p0.y);
    var avoid := AvoidanceDirection(m, walls, p1.0, p1.1, dir0, LookRange);
    var dir1 := if avoid.0 then dir0 + avoid.1 else dir0;
    var smooth := a.previousDirection * Momentum + dir1 * (1.0 - Momentum);
    var dir2 := smooth + d.moveJitter;
    var nx, ny := p1.0 + m.cos(dir2) * Speed, p1.1 + m.sin(dir2) * Speed;
    var hit := IsColliding(walls, nx, ny, Radius);
    // On a hit the pushed-out target is discarded: the ant stays put.
    var step := if hit.0 then
                  var w := walls[hit.1.value];
                  Pose(p1.0, p1.1, m.atan2(p1.1 - CentreY(w), p1.0 - CentreX(w)) + d.bounceJitter)
                else Pose(nx, ny, dir2);
    var count1 := if hit.0 then count0 + 2 else count0;
    var count2 := if Dist(m, step.x, step.y, prev.x, prev.y) < 0.5 then count1 + 1 else MaxInt(0, count1 - 1);
    Motion(step.x, step.y, step.direction, smooth, count2)
  }

  /** `_move`: the wall-stuck timer (death after 60 frames inside a wall,
      otherwise a push-out), then `Step` and the hard clamp. `prev` is the
      position recorded by `update` before the behaviour step. */
  function Move(m: Maths, a: Ant, walls: seq<Rect>, prev: Point, bounds: Option<Rect>, d: Draws): (r: Ant)
    requires SqrtLaw(m) && WallsProper(walls)
    ensures var inside := IsColliding(walls, a.x, a.y, Radius * 0.5).0;
      && r.wallStuckTime == (if inside then a.wallStuckTime + 1 else 0)
      && r.alive == (a.alive && !(inside && a.wallStuckTime + 1 > WallStuckLimit))
      && (inside && a.wallStuckTime + 1 > WallStuckLimit ==> r == a.(wallStuckTime := r.wallStuckTime, alive := false))
    ensures a.stuckCounter >= 0 ==> r.stuckCounter >= 0
    ensures bounds.Some? && Truthy(bounds.value) && r.alive ==>
      var b := bounds.value;
      && (b.width > 2 ==> Left(b) as real < r.x < Right(b) as real)
      && (b.height > 2 ==> Top(b) as real < r.y < Bottom(b) as real)
    ensures r == a.(x := r.x, y := r.y, direction := r.direction, previousDirection := r.previousDirection,
                    stuckCounter := r.stuckCounter, wallStuckTime := r.wallStuckTime, alive := r.alive)
  {
    var inside := IsColliding(walls, a.x, a.y, Radius * 0.5).0;
    if inside && a.wallStuckTime + 1 > WallStuckLimit then
      a.(wallStuckTime := a.wallStuckTime + 1, alive := false)
    else
      var p0 := if inside then PushOutOfWall(walls, a.x, a.y, Radius) else (a.x, a.y);
      var s := Step(m, a, walls, Point(p0.0, p0.1), prev, d);
      var c := Bounce(s.x, s.y, s.direction, bounds, d);
      ClampBounds(s.x, s.y, bounds);
      a.(x := c.x, y := c.y, direction := c.direction, previousDirection := s.previousDirection,
         stuckCounter := s.stuckCounter, wallStuckTime := if inside then a.wallStuckTime + 1 else 0)
  }

  lemma ClampBounds(x: real, y: real, bounds: Option<Rect>)
    ensures bounds.Some? && Truthy(bounds.value) ==>
      var b := bounds.value;
      && (b.width > 2 ==> Left(b) as real < ClampAxis(x, Left(b), Right(b)) < Right(b) as real)
      && (b.height > 2 ==> Top(b) as real < ClampAxis(y, Top(b), Bottom(b)) < Bottom(b) as real)
  {
    if bounds.Some? {
      var b := bounds.value;
      ClampAxisInside(x, Left(b), Right(b));
      ClampAxisInside(y, Top(b), Bottom(b));
    }
  }

  // ---------------------------------------------------------------- deposits

  /** The trail, if any, this frame deposits: only at cooldown 0 and farther
      than 50 from the colony; the food trail when RETURNING with food, the
      home trail when FORAGING. */
  function DepositKind(m: Maths, a: Ant, colony: Point): (r: Option<PheromoneModel.PheromoneType>)
    ensures r.Some? ==> a.depositCooldown == 0 && Dist(m, a.x, a.y, colony.x, colony.y) > DepositDistance
    ensures r == Some(PheromoneModel.FoodTrail) <==>
      a.depositCooldown == 0 && Dist(m, a.x, a.y, colony.x, colony.y) > DepositDistance
      && a.state == Returning && a.carryingFood
    ensures r == Some(PheromoneModel.HomeTrail) <==>
      a.depositCooldown == 0 && Dist(m, a.x, a.y, colony.x, colony.y) > DepositDistance
      && a.state == Foraging
  {
    if a.depositCooldown != 0 then None
    else if a.state == Returning && a.carryingFood then
      if Dist(m, a.x, a.y, colony.x, colony.y) > DepositDistance then Some(PheromoneModel.FoodTrail) else None
    else if a.state == Foraging then
      if Dist(m, a.x, a.y, colony.x, colony.y) > DepositDistance then Some(PheromoneModel.HomeTrail) else None
    else None
  }

  /** The deposit at the end of `update`: `8 * 1.5` into the chosen layer,
      then a cooldown of 2; nothing otherwise. */
  function Deposit(m: Maths, a: Ant, p: PheromoneModel.Model, colony: Point): (r: (Ant, PheromoneModel.Model))
    requires PheromoneModel.Valid(p)
    ensures PheromoneModel.Valid(r.1)
    ensures DepositKind(m, a, colony).None? ==> r == (a, p)
    ensures DepositKind(m, a, colony).Some? ==>
      && r.0 == a.(depositCooldown := DepositCooldown)
      && r.1 == PheromoneModel.Deposit(p, a.x, a.y, PheromoneDeposit * PheromoneStrength, DepositKind(m, a, colony).value)
  {
    match DepositKind(m, a, colony)
    case None => (a, p)
    case Some(t) =>
      (a.(depositCooldown := DepositCooldown), PheromoneModel.Deposit(p, a.x, a.y, PheromoneDeposit * PheromoneStrength, t))
  }

  // ---------------------------------------------------------------- one frame

  /** What `update` is given besides the ant: the shared pheromone model and
      food sources, the colony centre, the positions of every ant in the
      colony's list (this one at position `me`), the walls and the optional
      play-area bounds. */
  datatype World = World(
    pheromones: PheromoneModel.Model,
    foods: seq<Food>,
    colony: Point,
    positions: seq<Point>,
    me: int,
    walls: seq<Rect>,
    bounds: Option<Rect>)

  /** The result of `update`: its boolean, the ant, the food sources and
      pheromones as the ant left them, and the food handed to
      `colony.add_food`, if any. */
  datatype Outcome = Outcome(
    keep: bool,
    ant: Ant,
    foods: seq<Food>,
    pheromones: PheromoneModel.Model,
    delivered: Option<int>)

  predicate WorldValid(w: World)
  {
    PheromoneModel.Valid(w.pheromones) && WallsProper(w.walls)
  }

  /** The energy charge of a frame and the `time_since_food` tick. */
  function Spend(a: Ant): (r: Ant)
    ensures r.energy == a.energy - EnergyCost
    ensures r == a.(energy := r.energy, timeSinceFood := r.timeSinceFood)
  {
    a.(energy := a.energy - EnergyCost,
       timeSinceFood := if a.timeSinceFood.Some? then Some(a.timeSinceFood.value + 1) else Some(0))
  }

  /** The steering `update` does before the behaviour step: edge avoidance
      when the bounds are live, the cooldown tick, and ant repulsion. */
  function Prepare(m: Maths, a: Ant, w: World, d: Draws): (r: Ant)
    ensures r == a.(direction := r.direction,
                    depositCooldown := if a.depositCooldown > 0 then a.depositCooldown - 1 else a.depositCooldown)
  {
    var edged := if w.bounds.Some? && Truthy(w.bounds.value)
                 then a.(direction := AvoidEdges(m, a, w.bounds.value, d)) else a;
    var cooled := edged.(depositCooldown := if edged.depositCooldown > 0 then edged.depositCooldown - 1
                                            else edged.depositCooldown);
    cooled.(direction := AvoidOthers(m, cooled.x, cooled.y, cooled.direction, w.positions, w.me, 0))
  }

  /** The rest of a frame for an ant that survived the stuck check and the
      energy charge: steering, behaviour, movement and the deposit. */
  function Live(m: Maths, a: Ant, w: World, d: Draws): (r: Outcome)
    requires SqrtLaw(m) && WorldValid(w)
    ensures r.keep && |r.foods| == |w.foods| && PheromoneModel.Valid(r.pheromones)
  {
    var prev := Point(a.x, a.y);
    var (b, foods, dropped) := Behave(m, Prepare(m, a, w, d), w.foods, w.pheromones, w.colony, d);
    var moved := Move(m, b, w.walls, prev, w.bounds, d);
    var (final, pheromones) := Deposit(m, moved, w.pheromones, w.colony);
    Outcome(true, final, foods, pheromones, dropped)
  }

  /** `Ant.update`: False at once for a dead ant, on the fifth failed escape
      and when the energy is spent; otherwise the live frame. */
  function Update(m: Maths, a: Ant, w: World, d: Draws): (r: Outcome)
    requires SqrtLaw(m) && WorldValid(w)
    ensures !a.alive ==> r == Outcome(false, a, w.foods, w.pheromones, None)
    ensures r.keep ==> a.alive
    ensures |r.foods| == |w.foods| && PheromoneModel.Valid(r.pheromones)
    ensures !r.keep ==> r.foods == w.foods && r.pheromones == w.pheromones && r.delivered.None?
    ensures r.keep <==> a.alive && !StuckCheck(m, a, d).1 && a.energy - EnergyCost > 0.0
  {
    if !a.alive then Outcome(false, a, w.foods, w.pheromones, None)
    else
      var (s, died) := StuckCheck(m, a, d);
      if died then Outcome(false, s, w.foods, w.pheromones, None)
      else
        var e := Spend(s);
        if e.energy <= 0.0 then Outcome(false, e, w.foods, w.pheromones, None)
        else Live(m, e, w, d)
  }

  // ---------------------------------------------------------------- properties of a frame

  /** The frame's charge: an ant kept without a drop-off ends the frame with
      exactly 0.01 less energy than it started with. */
  lemma UpdateCharge(m: Maths, a: Ant, w: World, d: Draws)
    requires SqrtLaw(m) && WorldValid(w)
    ensures var r := Update(m, a, w, d);
      r.keep && r.delivered.None? ==> r.ant.energy == a.energy - EnergyCost
  {
    if a.alive {
      var (s, died) := StuckCheck(m, a, d);
      if !died && Spend(s).energy > 0.0 {
        LiveEnergy(m, Spend(s), w, d);
      }
    }
  }

  /** Only a drop-off changes the energy in a live frame. */
  lemma LiveEnergy(m: Maths, a: Ant, w: World, d: Draws)
    requires SqrtLaw(m) && WorldValid(w)
    ensures Live(m, a, w, d).delivered.None? ==> Live(m, a, w, d).ant.energy == a.energy
  {
    var t := TraceOf(m, a, w, d);
    BehaveEnergy(m, t.prepared, w.foods, w.pheromones, w.colony, d);
  }

  /** Without a drop-off the behaviour step leaves the energy alone. */
  lemma BehaveEnergy(m: Maths, a: Ant, foods: seq<Food>, p: PheromoneModel.Model, colony: Point, d: Draws)
    requires PheromoneModel.Valid(p)
    ensures var r := Behave(m, a, foods, p, colony, d);
      r.2.None? ==> r.0.energy == a.energy
  {
  }

  /** The behaviour step keeps the ant lawful. */
  lemma BehaveLawful(m: Maths, a: Ant, foods: seq<Food>, p: PheromoneModel.Model, colony: Point, d: Draws)
    requires PheromoneModel.Valid(p) && Lawful(a)
    ensures Lawful(Behave(m, a, foods, p, colony, d).0)
  {
    if a.state == Returning && Dist(m, a.x, a.y, colony.x, colony.y) < DropRange {
      RefillBounded(a.energy, a.maxEnergy);
    }
  }

  /** The pieces of a live frame, named. */
  datatype Trace = Trace(prepared: Ant, behaved: Ant, foods: seq<Food>, dropped: Option<int>, moved: Ant)

  function TraceOf(m: Maths, a: Ant, w: World, d: Draws): (t: Trace)
    requires SqrtLaw(m) && WorldValid(w)
    ensures var dep := Deposit(m, t.moved, w.pheromones, w.colony);
      Live(m, a, w, d) == Outcome(true, dep.0, t.foods, dep.1, t.dropped)
  {
    var prepared := Prepare(m, a, w, d);
    var (b, foods, dropped) := Behave(m, prepared, w.foods, w.pheromones, w.colony, d);
    Trace(prepared, b, foods, dropped, Move(m, b, w.walls, Point(a.x, a.y), w.bounds, d))
  }

  /** A live frame keeps a lawful ant lawful and its energy positive. */
  lemma LiveLawful(m: Maths, a: Ant, w: World, d: Draws)
    requires SqrtLaw(m) && WorldValid(w) && Lawful(a) && a.alive && a.energy > 0.0
    ensures Lawful(Live(m, a, w, d).ant) && Live(m, a, w, d).ant.energy > 0.0
  {
    var t := TraceOf(m, a, w, d);
    assert Lawful(t.prepared);
    BehaveLawful(m, t.prepared, w.foods, w.pheromones, w.colony, d);
    if t.prepared.state == Returning && Dist(m, t.prepared.x, t.prepared.y, w.colony.x, w.colony.y) < DropRange {
      RefillBounded(t.prepared.energy, t.prepared.maxEnergy);
    }
    assert t.behaved.energy > 0.0;
    assert Lawful(t.moved);
  }

  /** Every frame keeps the ant lawful, and an ant `update` keeps has
      positive energy. */
  lemma UpdateLawful(m: Maths, a: Ant, w: World, d: Draws)
    requires SqrtLaw(m) && WorldValid(w) && Lawful(a)
    ensures Lawful(Update(m, a, w, d).ant)
    ensures Update(m, a, w, d).keep ==> Update(m, a, w, d).ant.energy > 0.0
  {
    if a.alive {
      var (s, died) := StuckCheck(m, a, d);
      if !died {
        var e := Spend(s);
        if e.energy > 0.0 {
          LiveLawful(m, e, w, d);
        }
      }
    }
  }

  /** What the behaviour step may change: the state moves only along the
      three transitions, the sources lose one unit only on a pickup, and the
      load is handed over only on a drop-off. */
  lemma BehaveFacts(m: Maths, a: Ant, foods: seq<Food>, p: PheromoneModel.Model, colony: Point, d: Draws)
    requires PheromoneModel.Valid(p)
    ensures var r := Behave(m, a, foods, p, colony, d);
      && (r.0.state != a.state ==>
            || (a.state == Foraging && r.0.state == Returning && r.0.carryingFood && r.0.foodAmount == 1)
            || (a.state == Returning && r.0.state == Foraging && r.2 == Some(a.foodAmount) && !r.0.carryingFood)
            || (a.state == Idle && r.0.state == Foraging && a.energy > a.maxEnergy * 0.8))
      && (a.state == Idle ==> (r.0.state == Foraging <==> a.energy > a.maxEnergy * 0.8) && r.0.state in {Foraging, Idle})
      && (r.1 != foods ==> a.state == Foraging && r.0.state == Returning && TotalFood(r.1) == TotalFood(foods) - 1.0)
      && (r.2.Some? ==>
            && a.state == Returning && r.0.state == Foraging && r.2.value == a.foodAmount
            && r.0.foodCollected == a.foodCollected + a.foodAmount
            && r.0.successfulTrips == a.successfulTrips + 1)
      && (r.2.None? ==> r.0.foodCollected == a.foodCollected && r.0.successfulTrips == a.successfulTrips)
  {
    if a.state == Foraging {
      PickupTakesOne(m, a, foods, p, colony, d);
    }
  }

  /** The same facts for a live frame, whose movement and deposit leave the
      state, the load and the counters alone. */
  lemma LiveFacts(m: Maths, a: Ant, w: World, d: Draws)
    requires SqrtLaw(m) && WorldValid(w)
    ensures var r := Live(m, a, w, d);
      && (r.ant.state != a.state ==>
            || (a.state == Foraging && r.ant.state == Returning && r.ant.carryingFood && r.ant.foodAmount == 1)
            || (a.state == Returning && r.ant.state == Foraging && r.delivered == Some(a.foodAmount) && !r.ant.carryingFood)
            || (a.state == Idle && r.ant.state == Foraging && a.energy > a.maxEnergy * 0.8))
      && (a.state == Idle ==> (r.ant.state == Foraging <==> a.energy > a.maxEnergy * 0.8) && r.ant.state in {Foraging, Idle})
      && (r.foods != w.foods ==> a.state == Foraging && r.ant.state == Returning && TotalFood(r.foods) == TotalFood(w.foods) - 1.0)
      && (r.delivered.Some? ==>
            && a.state == Returning && r.ant.state == Foraging && r.delivered.value == a.foodAmount
            && r.ant.foodCollected == a.foodCollected + a.foodAmount
            && r.ant.successfulTrips == a.successfulTrips + 1)
      && (r.delivered.None? ==> r.ant.foodCollected == a.foodCollected && r.ant.successfulTrips == a.successfulTrips)
      && (r.pheromones.food != w.pheromones.food ==>
            r.ant.state == Returning && r.ant.carryingFood && r.ant.depositCooldown == DepositCooldown)
      && (r.pheromones.home != w.pheromones.home ==>
            r.ant.state == Foraging && r.ant.depositCooldown == DepositCooldown)
      && (!r.ant.alive ==> r.ant.wallStuckTime > WallStuckLimit || !a.alive)
  {
    var t := TraceOf(m, a, w, d);
    BehaveFacts(m, t.prepared, w.foods, w.pheromones, w.colony, d);
  }

  /** The only state changes are FORAGING to RETURNING by a pickup,
      RETURNING to FORAGING by a drop-off, and IDLE to FORAGING on high
      energy; the drop-off hands over exactly the load. */
  lemma UpdateTransitions(m: Maths, a: Ant, w: World, d: Draws)
    requires SqrtLaw(m) && WorldValid(w)
    ensures var r := Update(m, a, w, d);
      r.ant.state != a.state ==>
        || (a.state == Foraging && r.ant.state == Returning && r.ant.carryingFood && r.ant.foodAmount == 1)
        || (a.state == Returning && r.ant.state == Foraging && r.delivered == Some(a.foodAmount)
            && !r.ant.carryingFood)
        || (a.state == Idle && r.ant.state == Foraging && a.energy - EnergyCost > a.maxEnergy * 0.8)
  {
    if a.alive {
      var (s, died) := StuckCheck(m, a, d);
      if !died && Spend(s).energy > 0.0 {
        LiveFacts(m, Spend(s), w, d);
      }
    }
  }

  /** An IDLE ant that lives through the frame leaves IDLE exactly when its
      energy, after the frame's cost, is above 80% of the maximum. */
  lemma IdleWakesIff(m: Maths, a: Ant, w: World, d: Draws)
    requires SqrtLaw(m) && WorldValid(w)
    requires a.state == Idle && Update(m, a, w, d).keep
    ensures Update(m, a, w, d).ant.state == Foraging <==> a.energy - EnergyCost > a.maxEnergy * 0.8
    ensures Update(m, a, w, d).ant.state in {Foraging, Idle}
  {
    var (s, died) := StuckCheck(m, a, d);
    LiveFacts(m, Spend(s), w, d);
  }

  /** The food sources change only through a pickup by a foraging ant, which
      removes exactly one unit from them and sets the ant RETURNING. */
  lemma UpdateFoodConserved(m: Maths, a: Ant, w: World, d: Draws)
    requires SqrtLaw(m) && WorldValid(w)
    ensures var r := Update(m, a, w, d);
      r.foods != w.foods ==>
        && a.state == Foraging && r.ant.state == Returning
        && TotalFood(r.foods) == TotalFood(w.foods) - 1.0
  {
    if a.alive {
      var (s, died) := StuckCheck(m, a, d);
      if !died && Spend(s).energy > 0.0 {
        LiveFacts(m, Spend(s), w, d);
      }
    }
  }

  /** A drop-off adds the load to the ant's collected food and counts one
      trip; otherwise both counters stay. */
  lemma UpdateDelivery(m: Maths, a: Ant, w: World, d: Draws)
    requires SqrtLaw(m) && WorldValid(w)
    ensures var r := Update(m, a, w, d);
      && (r.delivered.Some? ==>
            && a.state == Returning && r.ant.state == Foraging
            && r.delivered.value == a.foodAmount
            && r.ant.foodCollected == a.foodCollected + a.foodAmount
            && r.ant.successfulTrips == a.successfulTrips + 1)
      && (r.delivered.None? ==>
            r.ant.foodCollected == a.foodCollected && r.ant.successfulTrips == a.successfulTrips)
  {
    if a.alive {
      var (s, died) := StuckCheck(m, a, d);
      if !died && Spend(s).energy > 0.0 {
        LiveFacts(m, Spend(s), w, d);
      }
    }
  }

  /** A food-trail deposit comes only from an ant RETURNING with food, a
      home-trail deposit only from a FORAGING ant, and either one restarts
      the cooldown at 2. */
  lemma UpdateDeposits(m: Maths, a: Ant, w: World, d: Draws)
    requires SqrtLaw(m) && WorldValid(w)
    ensures var r := Update(m, a, w, d);
      && (r.pheromones.food != w.pheromones.food ==>
            r.ant.state == Returning && r.ant.carryingFood && r.ant.depositCooldown == DepositCooldown)
      && (r.pheromones.home != w.pheromones.home ==>
            r.ant.state == Foraging && r.ant.depositCooldown == DepositCooldown)
  {
    if a.alive {
      var (s, died) := StuckCheck(m, a, d);
      if !died && Spend(s).energy > 0.0 {
        LiveFacts(m, Spend(s), w, d);
      }
    }
  }

  /** An ant that `update` keeps but marks dead died inside a wall this
      frame; the next frame drops it untouched. */
  lemma WallDeathTakesOneFrame(m: Maths, a: Ant, w: World, d: Draws)
    requires SqrtLaw(m) && WorldValid(w)
    requires Update(m, a, w, d).keep && !Update(m, a, w, d).ant.alive
    ensures Update(m, a, w, d).ant.wallStuckTime > WallStuckLimit
  {
    var (s, died) := StuckCheck(m, a, d);
    LiveFacts(m, Spend(s), w, d);
  }
}
