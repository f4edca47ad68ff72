/** The colony of `src/colony.py`: the food store, the population counter,
    the ant list, the food sources and the pheromone model, and the frame
    update that runs every ant, removes the dead, feeds the colony, spawns
    new ants when it is well fed and keeps twelve food sources stocked. */
module ColonySim {
  import opened Common
  import opened Maze
  import opened Walls
  import Ants
  import PheromoneModel
  import Removal

  /** `max_food`. */
  const MaxFood: real := 10000.0
  /** `MAX_POPULATION` of `src/config.py`. */
  const MaxPopulation: int := 500
  /** `INITIAL_ANT_COUNT` of `src/config.py`. */
  const InitialAntCount: nat := 100
  const Radius: real := 20.0
  /** Food eaten per ant per frame. */
  const Appetite: real := 0.05
  /** `spawn_ant` needs strictly more than this in store, and costs `SpawnCost`. */
  const SpawnFloor: real := 100.0
  const SpawnCost: real := 20.0
  /** Spawning is tried every `SpawnPeriod` frames when the store is above `WellFed`. */
  const SpawnPeriod: int := 60
  const WellFed: real := 500.0
  const SpawnBatch: int := 5
  /** The number of food sources the update keeps on the map. */
  const SourceCount: nat := 12
  /** The colony draws angles over `[0, 2 * 3.14159]`, not a full turn. */
  const TurnApprox: real := 2.0 * 3.14159
  const PheromoneCell: int := 20

  datatype Colony = Colony(
    x: real, y: real,
    width: int, height: int,
    bounds: Option<Rect>,
    foodStored: real,
    population: int,
    ants: seq<Ants.Ant>,
    pheromones: PheromoneModel.Model,
    foods: seq<Ants.Food>,
    time: int,
    walls: seq<Rect>)

  /** What every frame needs of the colony: a well-formed pheromone grid
      and walls of non-negative size. */
  predicate Valid(c: Colony)
  {
    PheromoneModel.Valid(c.pheromones) && Ants.WallsProper(c.walls)
  }

  predicate AllLawful(ants: seq<Ants.Ant>)
  {
    forall k :: 0 <= k < |ants| ==> Ants.Lawful(ants[k])
  }

  // ---------------------------------------------------------------- draws

  /** A `random()` value. */
  predicate Unit(u: real) { 0.0 <= u < 1.0 }

  /** `random.uniform(lo, hi)` for the unit draw `u`. */
  function Uniform(lo: real, hi: real, u: real): (r: real)
    ensures lo <= hi && Unit(u) ==> lo <= r <= hi
  {
    if lo <= hi && Unit(u) then UniformRange(lo, hi, u); lo + (hi - lo) * u else lo + (hi - lo) * u
  }

  lemma UniformRange(lo: real, hi: real, u: real)
    requires lo <= hi && Unit(u)
    ensures lo <= lo + (hi - lo) * u <= hi
  {
    var w := hi - lo;
    if lo < hi {
      MulMonotone(0.0, u, w);
      MulMonotone(u, 1.0, w);
      assert 0.0 <= u * w <= w;
      assert w * u == u * w;
    } else {
      assert w == 0.0;
      assert w * u == 0.0;
    }
    assert lo <= lo + w * u <= hi;
  }

  /** The three draws of one new food source. */
  datatype SourceDraw = SourceDraw(x: real, y: real, amount: real)

  predicate UnitSource(s: SourceDraw) { Unit(s.x) && Unit(s.y) && Unit(s.amount) }

  /** The draws of one ant placement (position) and its constructor's heading. */
  datatype PlaceDraw = PlaceDraw(a: real, b: real, heading: real)

  /** The draws of one frame: per ant in list order, per spawn attempt and
      per food source added. */
  datatype Draws = Draws(
    ants: nat -> Ants.Draws,
    spawns: nat -> PlaceDraw,
    sources: nat -> SourceDraw)

  ghost predicate UnitSources(sources: nat -> SourceDraw)
  {
    forall k: nat :: UnitSource(sources(k))
  }

  // ---------------------------------------------------------------- store

  /** `add_food`: the store grows by the amount, capped at `max_food`. */
  function AddFood(stored: real, amount: real): (r: real)
    ensures r <= MaxFood
    ensures stored + amount <= MaxFood ==> r == stored + amount
    ensures stored + amount > MaxFood ==> r == MaxFood
    ensures stored <= MaxFood && amount >= 0.0 ==> stored <= r
  {
    Min(stored + amount, MaxFood)
  }

  /** The store after an ant's frame: `add_food` runs only when the ant
      handed food over. */
  function Deliver(stored: real, delivered: Option<int>): (r: real)
    ensures delivered.None? ==> r == stored
    ensures delivered.Some? ==> r == AddFood(stored, delivered.value as real)
  {
    match delivered
    case None => stored
    case Some(v) => AddFood(stored, v as real)
  }

  /** The result of `consume_food`: the store, the population and whether
      the colony could eat. */
  datatype Meal = Meal(stored: real, population: int, fed: bool)

  /** `consume_food`: 0.05 per counted ant. If the store covers it, it is
      eaten; otherwise the store is emptied and the counter loses the
      truncated consumption, floored at 0. */
  function Consume(stored: real, population: int): (r: Meal)
    ensures r.fed <==> stored >= population as real * Appetite
    ensures r.fed ==> r.population == population && r.stored == stored - population as real * Appetite
    ensures !r.fed ==> r.stored == 0.0
    ensures r.stored >= 0.0
    ensures r.population <= MaxInt(population, 0)
    ensures population >= 0 ==> r.population >= 0
    ensures population >= 0 && stored >= 0.0 ==> r.stored <= stored
  {
    var consumption := population as real * Appetite;
    if stored >= consumption then Meal(stored - consumption, population, true)
    else
      TruncBound(population);
      Meal(0.0, MaxInt(0, population - Trunc(consumption)), false)
  }

  /** Truncating 0.05 per ant rounds toward zero, so it never exceeds the
      count's magnitude in the count's direction. */
  lemma TruncBound(population: int)
    ensures population >= 0 ==> 0 <= Trunc(population as real * Appetite) <= population
    ensures population < 0 ==> population <= Trunc(population as real * Appetite) <= 0
  {
  }

  /** A starving colony of `n >= 0` counted ants loses exactly `n / 20`
      of them: the truncated 5%. */
  lemma StarvationLoss(stored: real, n: int)
    requires n >= 0 && stored < n as real * Appetite
    ensures Consume(stored, n).population == n - n / 20
  {
    var q, r := n / 20, n % 20;
    assert n as real * Appetite == q as real + r as real / 20.0;
    assert Trunc(n as real * Appetite) == q;
  }

  // ---------------------------------------------------------------- ants

  /** The positions `_avoid_other_ants` reads from the shared list. */
  function Positions(ants: seq<Ants.Ant>): (ps: seq<Ants.Point>)
    ensures |ps| == |ants|
    ensures forall k :: 0 <= k < |ants| ==> ps[k] == Ants.Point(ants[k].x, ants[k].y)
  {
    seq(|ants|, k requires 0 <= k < |ants| => Ants.Point(ants[k].x, ants[k].y))
  }

  /** The state threaded through the ant loop of `update`: the list (the
      first `|dead|` entries already updated), one flag per visited ant
      saying whether its `update` returned false, and the food sources,
      pheromones and store as the ants so far left them. */
  datatype Pass = Pass(
    ants: seq<Ants.Ant>,
    dead: seq<bool>,
    foods: seq<Ants.Food>,
    pheromones: PheromoneModel.Model,
    stored: real)

  /** The world ant `i` sees: every ant of the list at its current
      position, earlier ones already moved this frame. */
  function WorldOf(c: Colony, p: Pass, i: int): Ants.World
  {
    Ants.World(p.pheromones, p.foods, Ants.Point(c.x, c.y), Positions(p.ants), i, c.walls, c.bounds)
  }

  /** One turn of the ant loop: ant `|p.dead|` runs its `update` in place,
      its result is flagged, and the food it hands over is stored. */
  function Visit(m: Maths, c: Colony, p: Pass, d: nat -> Ants.Draws): (next: Pass)
    requires SqrtLaw(m) && Ants.WallsProper(c.walls) && PheromoneModel.Valid(p.pheromones)
    requires |p.dead| < |p.ants|
    ensures var i := |p.dead|;
      var o := Ants.Update(m, p.ants[i], WorldOf(c, p, i), d(i));
      && next.ants == p.ants[i := o.ant]
      && next.dead == p.dead + [!o.keep]
      && next.foods == o.foods && next.pheromones == o.pheromones
      && next.stored == Deliver(p.stored, o.delivered)
    ensures |next.foods| == |p.foods| && PheromoneModel.Valid(next.pheromones)
  {
    var i := |p.dead|;
    var o := Ants.Update(m, p.ants[i], WorldOf(c, p, i), d(i));
    Pass(p.ants[i := o.ant], p.dead + [!o.keep], o.foods, o.pheromones, Deliver(p.stored, o.delivered))
  }

  /** The `for i, ant in enumerate(self.ants)` loop, from ant `|p.dead|` on. */
  function Sweep(m: Maths, c: Colony, p: Pass, d: nat -> Ants.Draws): (r: Pass)
    requires SqrtLaw(m) && Ants.WallsProper(c.walls) && PheromoneModel.Valid(p.pheromones)
    requires |p.dead| <= |p.ants|
    ensures |r.ants| == |p.ants| == |r.dead| && |r.foods| == |p.foods|
    ensures PheromoneModel.Valid(r.pheromones)
    ensures r.ants[..|p.dead|] == p.ants[..|p.dead|] && r.dead[..|p.dead|] == p.dead
    ensures p.stored <= MaxFood ==> r.stored <= MaxFood
    decreases |p.ants| - |p.dead|
  {
    if |p.dead| == |p.ants| then p
    else
      var i := |p.dead|;
      var next := Visit(m, c, p, d);
      var r := Sweep(m, c, next, d);
      assert r.ants[..i] == r.ants[..i + 1][..i] == next.ants[..i + 1][..i] == p.ants[..i];
      assert r.dead[..i] == r.dead[..i + 1][..i] == next.dead[..i] == p.dead;
      r
  }

  /** The ant loop from its start. */
  function SweepAll(m: Maths, c: Colony, pheromones: PheromoneModel.Model, d: nat -> Ants.Draws): (r: Pass)
    requires SqrtLaw(m) && Ants.WallsProper(c.walls) && PheromoneModel.Valid(pheromones)
    ensures |r.ants| == |c.ants| == |r.dead| && |r.foods| == |c.foods|
    ensures PheromoneModel.Valid(r.pheromones)
    ensures c.foodStored <= MaxFood ==> r.stored <= MaxFood
  {
    Sweep(m, c, Pass(c.ants, [], c.foods, pheromones, c.foodStored), d)
  }

  /** What holds of a pass at every point of the loop: every ant is
      lawful, and every visited ant the loop has not flagged still has
      energy left. (A kept ant may have died in a wall this very frame:
      its `update` then returns true once more.) */
  predicate Settled(p: Pass)
  {
    && |p.dead| <= |p.ants| && AllLawful(p.ants)
    && forall k :: 0 <= k < |p.dead| && !p.dead[k] ==> p.ants[k].energy > 0.0
  }

  /** One turn of the loop keeps the pass settled. */
  lemma VisitSettled(m: Maths, c: Colony, p: Pass, d: nat -> Ants.Draws)
    requires SqrtLaw(m) && Ants.WallsProper(c.walls) && PheromoneModel.Valid(p.pheromones)
    requires |p.dead| < |p.ants| && Settled(p)
    ensures Settled(Visit(m, c, p, d))
  {
    var i := |p.dead|;
    Ants.UpdateLawful(m, p.ants[i], WorldOf(c, p, i), d(i));
  }

  /** The whole loop keeps the pass settled: at its end every ant is
      lawful and every unflagged ant has energy left. */
  lemma {:induction false} SweepSettled(m: Maths, c: Colony, p: Pass, d: nat -> Ants.Draws)
    requires SqrtLaw(m) && Ants.WallsProper(c.walls) && PheromoneModel.Valid(p.pheromones)
    requires |p.dead| <= |p.ants| && Settled(p)
    ensures Settled(Sweep(m, c, p, d))
    decreases |p.ants| - |p.dead|
  {
    if |p.dead| < |p.ants| {
      VisitSettled(m, c, p, d);
      SweepSettled(m, c, Visit(m, c, p, d), d);
    }
  }

  /** The pass has visited a prefix of `ants`: the rest are untouched,
      and every visited ant that was dead to begin with is flagged. */
  predicate FlagsDeadOf(ants: seq<Ants.Ant>, p: Pass)
  {
    && |p.dead| <= |p.ants| == |ants|
    && (forall k :: |p.dead| <= k < |ants| ==> p.ants[k] == ants[k])
    && (forall k :: 0 <= k < |p.dead| && !ants[k].alive ==> p.dead[k])
  }

  /** One turn of the loop flags the ant it visits if that ant was dead,
      and touches no later ant. */
  lemma VisitFlagsDead(m: Maths, c: Colony, ants: seq<Ants.Ant>, p: Pass, d: nat -> Ants.Draws)
    requires SqrtLaw(m) && Ants.WallsProper(c.walls) && PheromoneModel.Valid(p.pheromones)
    requires |p.dead| < |p.ants| && FlagsDeadOf(ants, p)
    ensures FlagsDeadOf(ants, Visit(m, c, p, d))
  {
    var i := |p.dead|;
    FlagStep(ants, p, Ants.Update(m, p.ants[i], WorldOf(c, p, i), d(i)), Visit(m, c, p, d));
  }

  /** Flagging the visited ant when its update returned False, and touching
      no later ant, keeps the dead ants flagged. */
  lemma FlagStep(ants: seq<Ants.Ant>, p: Pass, o: Ants.Outcome, next: Pass)
    requires |p.dead| < |p.ants| && FlagsDeadOf(ants, p)
    requires next.ants == p.ants[|p.dead| := o.ant] && next.dead == p.dead + [!o.keep]
    requires o.keep ==> p.ants[|p.dead|].alive
    ensures FlagsDeadOf(ants, next)
  {
    var i := |p.dead|;
    forall k | 0 <= k < |next.dead| && !ants[k].alive
      ensures next.dead[k]
    {
      if k < i {
        assert next.dead[k] == p.dead[k];
      }
    }
  }

  lemma {:induction false} SweepFlagsDeadOf(m: Maths, c: Colony, ants: seq<Ants.Ant>, p: Pass, d: nat -> Ants.Draws)
    requires SqrtLaw(m) && Ants.WallsProper(c.walls) && PheromoneModel.Valid(p.pheromones)
    requires |p.dead| <= |p.ants| && FlagsDeadOf(ants, p)
    ensures FlagsDeadOf(ants, Sweep(m, c, p, d))
    decreases |p.ants| - |p.dead|
  {
    if |p.dead| < |p.ants| {
      VisitFlagsDead(m, c, ants, p, d);
      SweepFlagsDeadOf(m, c, ants, Visit(m, c, p, d), d);
    }
  }

  /** An ant already dead when the loop reaches it is always flagged. */
  lemma SweepFlagsDead(m: Maths, c: Colony, pheromones: PheromoneModel.Model, d: nat -> Ants.Draws)
    requires SqrtLaw(m) && Ants.WallsProper(c.walls) && PheromoneModel.Valid(pheromones)
    ensures var r := SweepAll(m, c, pheromones, d);
      forall k :: 0 <= k < |c.ants| && !c.ants[k].alive ==> r.dead[k]
  {
    SweepFlagsDeadOf(m, c, c.ants, Pass(c.ants, [], c.foods, pheromones, c.foodStored), d);
  }

  /** Lawful ants only ever hand food over, so the loop never lowers a
      store within `max_food`. */
  lemma {:induction false} SweepStoreGrows(m: Maths, c: Colony, p: Pass, d: nat -> Ants.Draws)
    requires SqrtLaw(m) && Ants.WallsProper(c.walls) && PheromoneModel.Valid(p.pheromones)
    requires |p.dead| <= |p.ants| && AllLawful(p.ants) && p.stored <= MaxFood
    ensures p.stored <= Sweep(m, c, p, d).stored <= MaxFood
    decreases |p.ants| - |p.dead|
  {
    if |p.dead| < |p.ants| {
      var i := |p.dead|;
      var w := WorldOf(c, p, i);
      var o := Ants.Update(m, p.ants[i], w, d(i));
      Ants.UpdateLawful(m, p.ants[i], w, d(i));
      Ants.UpdateDelivery(m, p.ants[i], w, d(i));
      assert Ants.Lawful(p.ants[i]);
      var next := Visit(m, c, p, d);
      SweepStoreGrows(m, c, next, d);
    }
  }

  /** Each ant takes at most one unit from the sources, so the loop lowers
      the total on the map by at most one per ant it visits, and never
      raises it. */
  lemma {:induction false} SweepFoodConserved(m: Maths, c: Colony, p: Pass, d: nat -> Ants.Draws)
    requires SqrtLaw(m) && Ants.WallsProper(c.walls) && PheromoneModel.Valid(p.pheromones)
    requires |p.dead| <= |p.ants|
    ensures var r := Sweep(m, c, p, d);
      && Ants.TotalFood(p.foods) - (|p.ants| - |p.dead|) as real <= Ants.TotalFood(r.foods)
      && Ants.TotalFood(r.foods) <= Ants.TotalFood(p.foods)
    decreases |p.ants| - |p.dead|
  {
    if |p.dead| < |p.ants| {
      var i := |p.dead|;
      var w := WorldOf(c, p, i);
      var o := Ants.Update(m, p.ants[i], w, d(i));
      Ants.UpdateFoodConserved(m, p.ants[i], w, d(i));
      var next := Visit(m, c, p, d);
      SweepFoodConserved(m, c, next, d);
    }
  }

  // ---------------------------------------------------------------- spawning

  /** Where `spawn_ant` puts a newborn: `dist` from the centre at bearing
      `angle`. */
  function SpawnPoint(m: Maths, x: real, y: real, s: PlaceDraw): Ants.Point
  {
    var angle := Uniform(0.0, TurnApprox, s.a);
    var dist := Uniform(0.0, Radius + 5.0, s.b);
    Ants.Point(x + dist * m.cos(angle), y + dist * m.sin(angle))
  }

  /** The gate of `spawn_ant`: below the population cap and with more than
      100 in store. */
  predicate CanSpawn(population: int, stored: real)
  {
    population < MaxPopulation && stored > SpawnFloor
  }

  /** A newborn at its spawn point with its constructor's random heading. */
  function SpawnAt(m: Maths, c: Colony, s: PlaceDraw): (a: Ants.Ant)
    ensures Ants.Lawful(a) && a.alive && a.state == Foraging && a.energy > 0.0
  {
    var at := SpawnPoint(m, c.x, c.y, s);
    Ants.NewAnt(at.x, at.y, Heading(s))
  }

  /** `spawn_ant`: when the gate is open one ant is appended, counted, and
      paid for with 20 food; otherwise nothing changes. */
  function Spawn(m: Maths, c: Colony, s: PlaceDraw): (r: Colony)
    ensures CanSpawn(c.population, c.foodStored) ==>
      && r.ants == c.ants + [SpawnAt(m, c, s)]
      && r.population == c.population + 1
      && r.foodStored == c.foodStored - SpawnCost
    ensures !CanSpawn(c.population, c.foodStored) ==> r == c
    ensures r == c.(ants := r.ants, population := r.population, foodStored := r.foodStored)
  {
    if CanSpawn(c.population, c.foodStored) then
      c.(ants := c.ants + [SpawnAt(m, c, s)], population := c.population + 1,
         foodStored := c.foodStored - SpawnCost)
    else c
  }

  /** `range(min(5, max_population - population))`: empty when negative. */
  function Attempts(population: int): (n: nat)
    ensures n <= SpawnBatch
    ensures population <= MaxPopulation - SpawnBatch ==> n == SpawnBatch
    ensures population >= MaxPopulation ==> n == 0
  {
    var k := MinInt(SpawnBatch, MaxPopulation - population);
    if k < 0 then 0 else k
  }

  /** `n` calls of `spawn_ant`, the `j`-th using spawn draw `j`. Every
      spawn appends one ant, counts it and costs 20; the earlier ants are
      untouched; the counter never passes the cap it started under; and a
      non-negative store stays non-negative. */
  function SpawnTimes(m: Maths, c: Colony, n: nat, d: nat -> PlaceDraw, j: nat): (r: Colony)
    ensures r == c.(ants := r.ants, population := r.population, foodStored := r.foodStored)
    ensures |r.ants| - |c.ants| == r.population - c.population
    ensures 0 <= r.population - c.population <= n
    ensures r.ants[..|c.ants|] == c.ants
    ensures r.foodStored == c.foodStored - SpawnCost * (r.population - c.population) as real
    ensures r.population <= MaxInt(c.population, MaxPopulation)
    ensures c.foodStored >= 0.0 ==> r.foodStored >= 0.0
    ensures AllLawful(c.ants) ==> AllLawful(r.ants)
    ensures forall k :: |c.ants| <= k < |r.ants| ==> r.ants[k].alive && r.ants[k].energy > 0.0
    decreases n
  {
    if n == 0 then c
    else
      var s := Spawn(m, c, d(j));
      var r := SpawnTimes(m, s, n - 1, d, j + 1);
      assert r.ants[..|c.ants|] == r.ants[..|s.ants|][..|c.ants|];
      r
  }

  // ---------------------------------------------------------------- sources

  /** The box new food sources are drawn from: 50 inside a (non-empty)
      bounds rectangle, else 100 inside the window, as `(x_min, x_max,
      y_min, y_max)`. */
  function SourceArea(width: int, height: int, bounds: Option<Rect>): (real, real, real, real)
  {
    if bounds.Some? && Ants.Truthy(bounds.value) then
      var b := bounds.value;
      ((Left(b) + 50) as real, (Right(b) - 50) as real, (Top(b) + 50) as real, (Bottom(b) - 50) as real)
    else (100.0, (width - 100) as real, 100.0, (height - 100) as real)
  }

  /** The uniform position of a new source in the box. */
  function SourceSpot(area: (real, real, real, real), s: SourceDraw): (p: Ants.Point)
    ensures area.0 <= area.1 && area.2 <= area.3 && UnitSource(s) ==>
      area.0 <= p.x <= area.1 && area.2 <= p.y <= area.3
  {
    Ants.Point(Uniform(area.0, area.1, s.x), Uniform(area.2, area.3, s.y))
  }

  /** One new `FoodSource` with between 50 and 150 units. */
  function NewSource(area: (real, real, real, real), s: SourceDraw): (f: Ants.Food)
    ensures UnitSource(s) ==> 50.0 <= f.amount <= 150.0
  {
    var at := SourceSpot(area, s);
    Ants.Food(at.x, at.y, Uniform(50.0, 150.0, s.amount))
  }

  /** `[i for i, food in enumerate(food_sources) if food.amount <= 0]`, as flags. */
  function Depleted(foods: seq<Ants.Food>): (flags: seq<bool>)
    ensures |flags| == |foods|
    ensures forall k :: 0 <= k < |foods| ==> (flags[k] <==> foods[k].amount <= 0.0)
  {
    seq(|foods|, k requires 0 <= k < |foods| => foods[k].amount <= 0.0)
  }

  /** The removal loop over the depleted sources. */
  function RemoveDepleted(foods: seq<Ants.Food>): (r: seq<Ants.Food>)
    ensures forall k :: 0 <= k < |r| ==> r[k].amount > 0.0
    ensures r == Removal.Unmarked(foods, Depleted(foods))
  {
    var flags := Depleted(foods);
    Removal.DropMarked(foods, flags);
    var r := Removal.Drop(foods, Removal.Marked(flags));
    forall k | 0 <= k < |r|
      ensures r[k].amount > 0.0
    {
      Removal.UnmarkedFrom(foods, flags, k);
    }
    r
  }

  /** The `while len(food_sources) < 12` loop; `j` counts the sources added. */
  function Refill(area: (real, real, real, real), foods: seq<Ants.Food>, d: nat -> SourceDraw, j: nat): (r: seq<Ants.Food>)
    ensures |foods| >= SourceCount ==> r == foods
    ensures |foods| < SourceCount ==> |r| == SourceCount
    ensures r[..|foods|] == foods
    ensures forall k :: |foods| <= k < |r| ==> r[k] == NewSource(area, d(j + k - |foods|))
    decreases SourceCount - |foods|
  {
    if |foods| >= SourceCount then foods
    else
      var r := Refill(area, foods + [NewSource(area, d(j))], d, j + 1);
      assert r[..|foods|] == r[..|foods| + 1][..|foods|];
      r
  }

  // ---------------------------------------------------------------- frame

  /** The first half of `update`: the clock, evaporation, the ant loop,
      and the removal of the flagged ants, one count each. */
  function Settle(m: Maths, c: Colony, d: nat -> Ants.Draws): (r: Colony)
    requires SqrtLaw(m) && Valid(c)
    ensures Valid(r) && r.time == c.time + 1
    ensures r == c.(time := r.time, pheromones := r.pheromones, ants := r.ants, population := r.population,
                    foods := r.foods, foodStored := r.foodStored)
    ensures r.population - |r.ants| == c.population - |c.ants| && |r.ants| <= |c.ants|
    ensures |r.foods| == |c.foods|
    ensures c.foodStored <= MaxFood ==> r.foodStored <= MaxFood
  {
    var p := SweepAll(m, c, PheromoneModel.Update(c.pheromones), d);
    var dead := Removal.Marked(p.dead);
    c.(time := c.time + 1, pheromones := p.pheromones, ants := Removal.Drop(p.ants, dead),
       population := c.population - |dead|, foods := p.foods, foodStored := p.stored)
  }

  /** `consume_food` applied to the colony. */
  function Feed(c: Colony): (r: Colony)
    ensures r == c.(foodStored := r.foodStored, population := r.population)
    ensures r.foodStored >= 0.0
    ensures r.population <= MaxInt(c.population, 0)
    ensures c.population >= 0 ==> r.population >= 0
    ensures c.population >= 0 && c.foodStored >= 0.0 ==> r.foodStored <= c.foodStored
    ensures c.foodStored >= 0.0 ==> r.population <= c.population
    ensures r.foodStored > 0.0 ==> r.population == c.population
  {
    var meal := Consume(c.foodStored, c.population);
    c.(foodStored := meal.stored, population := meal.population)
  }

  /** The periodic spawning of `update`: on every 60th frame, with more
      than 500 in store, up to five `spawn_ant` calls. */
  function Grow(m: Maths, c: Colony, d: nat -> PlaceDraw): (r: Colony)
    ensures r == c.(ants := r.ants, population := r.population, foodStored := r.foodStored)
    ensures |r.ants| - |c.ants| == r.population - c.population
    ensures 0 <= r.population - c.population <= SpawnBatch
    ensures r.ants[..|c.ants|] == c.ants
    ensures r.population <= MaxInt(c.population, MaxPopulation)
    ensures c.foodStored >= 0.0 ==> 0.0 <= r.foodStored <= c.foodStored
    ensures AllLawful(c.ants) ==> AllLawful(r.ants)
    ensures forall k :: |c.ants| <= k < |r.ants| ==> r.ants[k].energy > 0.0
    ensures !(c.time % SpawnPeriod == 0 && c.foodStored > WellFed) ==> r == c
  {
    if c.time % SpawnPeriod == 0 && c.foodStored > WellFed
    then SpawnTimes(m, c, Attempts(c.population), d, 0)
    else c
  }

  /** The end of `update`: depleted sources removed from the highest index
      down, then new ones added until there are twelve. */
  function Restock(c: Colony, d: nat -> SourceDraw): (r: Colony)
    ensures r == c.(foods := r.foods)
    ensures |r.foods| >= SourceCount
    ensures UnitSources(d) ==> forall k :: 0 <= k < |r.foods| ==> r.foods[k].amount > 0.0
  {
    var kept := RemoveDepleted(c.foods);
    c.(foods := Refill(SourceArea(c.width, c.height, c.bounds), kept, d, 0))
  }

  /** `Colony.update`. */
  function Update(m: Maths, c: Colony, d: Draws): (r: Colony)
    requires SqrtLaw(m) && Valid(c)
    ensures Valid(r)
    ensures r.time == c.time + 1
    ensures r == c.(time := r.time, pheromones := r.pheromones, ants := r.ants, population := r.population,
                    foods := r.foods, foodStored := r.foodStored)
    ensures |r.foods| >= SourceCount
    ensures UnitSources(d.sources) ==> forall k :: 0 <= k < |r.foods| ==> r.foods[k].amount > 0.0
    ensures r.foodStored >= 0.0
    ensures c.population >= |c.ants| && c.foodStored <= MaxFood ==> r.foodStored <= MaxFood
    ensures c.population <= MaxPopulation ==> r.population <= MaxPopulation
  {
    Restock(Grow(m, Feed(Settle(m, c, d.ants)), d.spawns), d.sources)
  }

  /** Spawning happens only on the frame whose new clock is a multiple of
      `SpawnPeriod`: on every other frame no ant is added and the ants left
      are exactly the survivors of the ant loop. */
  lemma UpdateSpawnGate(m: Maths, c: Colony, d: Draws)
    requires SqrtLaw(m) && Valid(c)
    ensures (c.time + 1) % SpawnPeriod != 0 ==>
              && Update(m, c, d).ants == Settle(m, c, d.ants).ants
              && |Update(m, c, d).ants| <= |c.ants|
  {
    var s := Settle(m, c, d.ants);
    var f := Feed(s);
    var g := Grow(m, f, d.spawns);
    assert Update(m, c, d) == Restock(g, d.sources);
    if (c.time + 1) % SpawnPeriod != 0 {
      assert f.time == c.time + 1;
      assert g == f;
    }
  }

  /** The survivors of the frame are the ants whose update returned true,
      in list order, followed by at most five newborns. */
  lemma UpdateSurvivors(m: Maths, c: Colony, d: Draws)
    requires SqrtLaw(m) && Valid(c)
    ensures var p := SweepAll(m, c, PheromoneModel.Update(c.pheromones), d.ants);
      var r := Update(m, c, d);
      var kept := Removal.Unmarked(p.ants, p.dead);
      && |kept| <= |r.ants| <= |kept| + SpawnBatch
      && r.ants[..|kept|] == kept
  {
    var p := SweepAll(m, c, PheromoneModel.Update(c.pheromones), d.ants);
    Removal.DropMarked(p.ants, p.dead);
    assert Settle(m, c, d.ants).ants == Removal.Unmarked(p.ants, p.dead);
  }

  /** The first half of a frame leaves only lawful ants with energy
      left: the loop keeps them lawful and the removal takes exactly the
      flagged ones. */
  lemma SettleLawful(m: Maths, c: Colony, d: nat -> Ants.Draws)
    requires SqrtLaw(m) && Valid(c) && AllLawful(c.ants)
    ensures var r := Settle(m, c, d);
      AllLawful(r.ants) && forall k :: 0 <= k < |r.ants| ==> r.ants[k].energy > 0.0
  {
    var start := Pass(c.ants, [], c.foods, PheromoneModel.Update(c.pheromones), c.foodStored);
    var p := Sweep(m, c, start, d);
    SweepSettled(m, c, start, d);
    Removal.DropMarked(p.ants, p.dead);
    var kept := Settle(m, c, d).ants;
    assert kept == Removal.Unmarked(p.ants, p.dead);
    forall k | 0 <= k < |kept|
      ensures Ants.Lawful(kept[k]) && kept[k].energy > 0.0
    {
      Removal.UnmarkedFrom(p.ants, p.dead, k);
    }
  }

  /** A frame keeps every ant lawful when they all start lawful, and every
      ant it keeps has energy left: the flagged ones are removed and the
      newborns start full. */
  lemma UpdateLawful(m: Maths, c: Colony, d: Draws)
    requires SqrtLaw(m) && Valid(c) && AllLawful(c.ants)
    ensures var r := Update(m, c, d);
      AllLawful(r.ants) && forall k :: 0 <= k < |r.ants| ==> r.ants[k].energy > 0.0
  {
    var settled := Settle(m, c, d.ants);
    SettleLawful(m, c, d.ants);
    var fed := Feed(settled);
    var grown := Grow(m, fed, d.spawns);
    assert grown.ants[..|fed.ants|] == fed.ants == settled.ants;
    forall k | 0 <= k < |fed.ants|
      ensures grown.ants[k].energy > 0.0
    {
      assert grown.ants[k] == grown.ants[..|fed.ants|][k];
    }
  }

  /** The population counter and the list drift apart only by starvation:
      for lawful ants and a store within `[0, max_food]`, the gap
      `population - len(ants)` never grows, and is unchanged in a frame
      that ends with food in store. */
  lemma UpdatePopulationGap(m: Maths, c: Colony, d: Draws)
    requires SqrtLaw(m) && Valid(c)
    requires AllLawful(c.ants) && 0.0 <= c.foodStored <= MaxFood
    ensures var r := Update(m, c, d);
      && r.population - |r.ants| <= c.population - |c.ants|
      && (r.foodStored > 0.0 ==> r.population - |r.ants| == c.population - |c.ants|)
  {
    var pher := PheromoneModel.Update(c.pheromones);
    SweepStoreGrows(m, c, Pass(c.ants, [], c.foods, pher, c.foodStored), d.ants);
    var settled := Settle(m, c, d.ants);
    assert settled.foodStored >= 0.0;
  }

  // ---------------------------------------------------------------- creation

  /** `_spawn_initial_ants` placement: uniformly 20 inside a (non-empty)
      bounds rectangle, else within 30 of the centre. */
  function InitialPoint(m: Maths, x: real, y: real, bounds: Option<Rect>, s: PlaceDraw): Ants.Point
  {
    if bounds.Some? && Ants.Truthy(bounds.value) then
      var b := bounds.value;
      Ants.Point(Uniform((Left(b) + 20) as real, (Right(b) - 20) as real, s.a),
                 Uniform((Top(b) + 20) as real, (Bottom(b) - 20) as real, s.b))
    else
      var angle := Uniform(0.0, TurnApprox, s.a);
      var dist := Uniform(0.0, Radius + 10.0, s.b);
      Ants.Point(x + dist * m.cos(angle), y + dist * m.sin(angle))
  }

  /** The constructor's `uniform(0, 2 pi)` heading. */
  function Heading(s: PlaceDraw): real
  {
    Uniform(0.0, 2.0 * PI, s.heading)
  }

  function PlaceInitial(m: Maths, x: real, y: real, bounds: Option<Rect>, s: PlaceDraw): (a: Ants.Ant)
    ensures Ants.Lawful(a) && a.alive && a.state == Foraging && a.energy == a.maxEnergy
  {
    var at := InitialPoint(m, x, y, bounds, s);
    Ants.NewAnt(at.x, at.y, Heading(s))
  }

  /** `Colony.__init__` without a saved state: an empty store, 100 new
      ants counted, an empty pheromone grid and twelve food sources. The
      walls are those the wall manager built. */
  function NewColony(m: Maths, x: real, y: real, width: int, height: int, bounds: Option<Rect>,
                     walls: seq<Rect>, ants: nat -> PlaceDraw, sources: nat -> SourceDraw): (c: Colony)
    requires Ants.WallsProper(walls)
    ensures Valid(c) && AllLawful(c.ants)
    ensures c.population == |c.ants| == InitialAntCount
    ensures |c.foods| == SourceCount && c.foodStored == 0.0 && c.time == 0
    ensures UnitSources(sources) ==> forall k :: 0 <= k < |c.foods| ==> 50.0 <= c.foods[k].amount <= 150.0
  {
    var blank := Colony(x, y, width, height, bounds, 0.0, 0, [],
                        PheromoneModel.NewModel(width, height, PheromoneCell), [], 0, walls);
    var placed := seq(InitialAntCount, k requires 0 <= k < InitialAntCount => PlaceInitial(m, x, y, bounds, ants(k)));
    var area := SourceArea(width, height, bounds);
    var stocked := seq(SourceCount, k requires 0 <= k < SourceCount => NewSource(area, sources(k)));
    assert forall k :: 0 <= k < |placed| ==> placed[k] == PlaceInitial(m, x, y, bounds, ants(k));
    blank.(ants := placed, population := InitialAntCount, foods := stocked)
  }

  // ---------------------------------------------------------------- stats

  /** How many ants are in state `s`: the multiplicity of `s` among the states. */
  function CountState(states: seq<AntState>, s: AntState): (n: nat)
    ensures n <= |states|
    ensures n == multiset(states)[s]
  {
    if |states| == 0 then 0
    else
      var front := states[..|states| - 1];
      assert states == front + [states[|states| - 1]];
      CountState(front, s) + (if states[|states| - 1] == s then 1 else 0)
  }

  function StatesOf(ants: seq<Ants.Ant>): (r: seq<AntState>)
    ensures |r| == |ants| && forall k :: 0 <= k < |ants| ==> r[k] == ants[k].state
  {
    seq(|ants|, k requires 0 <= k < |ants| => ants[k].state)
  }

  /** The sources with more than five units left. */
  function CountActive(foods: seq<Ants.Food>): (n: nat)
    ensures n <= |foods|
    ensures n == |ActiveIndices(foods)|
  {
    if |foods| == 0 then 0
    else
      ActiveIndicesSplit(foods);
      CountActive(foods[..|foods| - 1]) + (if foods[|foods| - 1].amount > 5.0 then 1 else 0)
  }

  /** The positions of the sources with more than five units left. */
  function ActiveIndices(foods: seq<Ants.Food>): set<int>
  {
    set k | 0 <= k < |foods| && foods[k].amount > 5.0
  }

  lemma ActiveIndicesSplit(foods: seq<Ants.Food>)
    requires |foods| > 0
    ensures var n := |foods| - 1;
      ActiveIndices(foods) == ActiveIndices(foods[..n]) + (if foods[n].amount > 5.0 then {n} else {})
      && n !in ActiveIndices(foods[..n])
  {
  }

  function SumCollected(ants: seq<Ants.Ant>): int
  {
    if |ants| == 0 then 0 else SumCollected(ants[..|ants| - 1]) + ants[|ants| - 1].foodCollected
  }

  function SumTrips(ants: seq<Ants.Ant>): int
  {
    if |ants| == 0 then 0 else SumTrips(ants[..|ants| - 1]) + ants[|ants| - 1].successfulTrips
  }

  datatype Stats = Stats(
    population: int,
    foodStored: real,
    foraging: nat,
    returning: nat,
    activeSources: nat,
    totalFoodCollected: int,
    totalTrips: int)

  /** `get_stats`. */
  function GetStats(c: Colony): (s: Stats)
    ensures s.population == c.population && s.foodStored == c.foodStored
    ensures s.foraging + s.returning <= |c.ants|
    ensures s.activeSources <= |c.foods|
    ensures s.foraging == multiset(StatesOf(c.ants))[Foraging]
    ensures s.returning == multiset(StatesOf(c.ants))[Returning]
    ensures s.activeSources == |ActiveIndices(c.foods)|
  {
    StatesPartition(StatesOf(c.ants));
    Stats(c.population, c.foodStored, CountState(StatesOf(c.ants), Foraging),
          CountState(StatesOf(c.ants), Returning), CountActive(c.foods), SumCollected(c.ants), SumTrips(c.ants))
  }

  /** Every ant is in exactly one of the three states. */
  lemma {:induction false} StatesPartition(states: seq<AntState>)
    ensures CountState(states, Foraging) + CountState(states, Returning) + CountState(states, Idle) == |states|
  {
    if |states| > 0 {
      StatesPartition(states[..|states| - 1]);
    }
  }

  /** Lawful ants collect one unit per trip, so the two totals agree. */
  lemma {:induction false} TotalsAgree(ants: seq<Ants.Ant>)
    requires AllLawful(ants)
    ensures SumCollected(ants) == SumTrips(ants)
  {
    if |ants| > 0 {
      TotalsAgree(ants[..|ants| - 1]);
    }
  }

  /** The indices of the ants carrying food. */
  function Carriers(ants: seq<Ants.Ant>): set<int>
  {
    set k | 0 <= k < |ants| && ants[k].carryingFood
  }

  /** For lawful ants the returning count is the number of ants carrying food. */
  lemma {:induction false} ReturningCarry(ants: seq<Ants.Ant>)
    requires AllLawful(ants)
    ensures CountState(StatesOf(ants), Returning) == |Carriers(ants)|
  {
    if |ants| > 0 {
      var n := |ants| - 1;
      ReturningCarry(ants[..n]);
      assert StatesOf(ants)[..n] == StatesOf(ants[..n]);
      CarriersLast(ants);
    }
  }

  lemma CarriersLast(ants: seq<Ants.Ant>)
    requires |ants| > 0
    ensures var n := |ants| - 1;
      |Carriers(ants)| == |Carriers(ants[..n])| + (if ants[n].carryingFood then 1 else 0)
  {
    var n := |ants| - 1;
    assert Carriers(ants[..n]) == set k | 0 <= k < n && ants[k].carryingFood;
    if ants[n].carryingFood {
      assert Carriers(ants) == Carriers(ants[..n]) + {n};
    } else {
      assert Carriers(ants) == Carriers(ants[..n]);
    }
  }
}
