/** The first colony of `colony.py`: the same store, counter and spawning
    rules as the current colony, over the first ants and the older
    pheromone map, with five fixed food sources that regrow by 0.1 per
    frame below 100 instead of being replaced. */
module ColonyLegacy {
  import opened Common
  import opened Maze
  import opened Walls
  import Ants
  import AntsLegacy
  import PheromoneMap
  import Removal
  import ColonySim

  const InitialAntCount: nat := 30
  const SourceCount: nat := 5
  /** Every food source starts with 100 units. */
  const SourceStart: real := 100.0
  /** A source below `RegrowthCap` gains `Regrowth` per frame. */
  const Regrowth: real := 0.1
  const RegrowthCap: real := 100.0
  const PheromoneCell: int := 20

  datatype Colony = Colony(
    x: real, y: real,
    width: int, height: int,
    bounds: Option<Rect>,
    foodStored: real,
    population: int,
    ants: seq<AntsLegacy.Ant>,
    pheromones: PheromoneMap.Map,
    foods: seq<Ants.Food>,
    time: int)

  /** A well-formed map with the first configuration, and a world the
      wrap-around move can divide by. */
  predicate Valid(c: Colony)
  {
    && PheromoneMap.Valid(c.pheromones) && c.pheromones.config == PheromoneMap.Legacy
    && c.width > 0 && c.height > 0
  }

  predicate AllLawful(ants: seq<AntsLegacy.Ant>)
  {
    forall k :: 0 <= k < |ants| ==> AntsLegacy.Lawful(ants[k])
  }

  /** The draws of one frame: per ant in list order and per spawn attempt. */
  datatype Draws = Draws(ants: nat -> AntsLegacy.Draws, spawns: nat -> ColonySim.PlaceDraw)

  // ---------------------------------------------------------------- ants

  /** The state threaded through the ant loop: the list (the first `|dead|`
      entries already updated), the flags of the ants whose `update`
      returned false, and the map and store as the ants so far left them. */
  datatype Pass = Pass(
    ants: seq<AntsLegacy.Ant>,
    dead: seq<bool>,
    pheromones: PheromoneMap.Map,
    stored: real)

  predicate MapReady(p: PheromoneMap.Map)
  {
    PheromoneMap.Valid(p) && p.config == PheromoneMap.Legacy
  }

  /** One turn of the ant loop: ant `|p.dead|` runs its `update` in place. */
  function Visit(m: Maths, c: Colony, p: Pass, d: nat -> AntsLegacy.Draws): (next: Pass)
    requires Valid(c) && MapReady(p.pheromones) && |p.dead| < |p.ants|
    ensures var i := |p.dead|;
      var o := AntsLegacy.Update(m, p.ants[i], p.pheromones, c.width, c.height, c.foods,
                                 Ants.Point(c.x, c.y), d(i));
      && next.ants == p.ants[i := o.ant]
      && next.dead == p.dead + [!o.keep]
      && next.pheromones == o.pheromones
      && next.stored == ColonySim.Deliver(p.stored, o.delivered)
    ensures MapReady(next.pheromones)
  {
    var i := |p.dead|;
    var o := AntsLegacy.Update(m, p.ants[i], p.pheromones, c.width, c.height, c.foods,
                               Ants.Point(c.x, c.y), d(i));
    Pass(p.ants[i := o.ant], p.dead + [!o.keep], o.pheromones, ColonySim.Deliver(p.stored, o.delivered))
  }

  /** The ant loop of `update`, from ant `|p.dead|` on. */
  function Sweep(m: Maths, c: Colony, p: Pass, d: nat -> AntsLegacy.Draws): (r: Pass)
    requires Valid(c) && MapReady(p.pheromones) && |p.dead| <= |p.ants|
    ensures |r.ants| == |p.ants| == |r.dead| && MapReady(r.pheromones)
    ensures r.ants[..|p.dead|] == p.ants[..|p.dead|] && r.dead[..|p.dead|] == p.dead
    ensures p.stored <= ColonySim.MaxFood ==> r.stored <= ColonySim.MaxFood
    decreases |p.ants| - |p.dead|
  {
    if |p.dead| == |p.ants| then p
    else
      var i := |p.dead|;
      var next := Visit(m, c, p, d);
      var r := Sweep(m, c, next, d);
      assert r.ants[..i] == r.ants[..i + 1][..i] == next.ants[..i + 1][..i] == p.ants[..i];
      assert r.dead[..i] == r.dead[..i + 1][..i] == next.dead[..i] == p.dead;
      r
  }

  /** The pass has visited a prefix of `ants`: the rest are untouched,
      every ant is lawful, a visited ant is flagged exactly when the
      frame's energy charge exhausted it, and an unflagged one has energy
      left. */
  predicate SettledOf(ants: seq<AntsLegacy.Ant>, p: Pass)
  {
    && |p.dead| <= |p.ants| == |ants| && AllLawful(p.ants)
    && (forall k :: |p.dead| <= k < |ants| ==> p.ants[k] == ants[k])
    && (forall k :: 0 <= k < |p.dead| ==> (p.dead[k] <==> ants[k].energy - AntsLegacy.EnergyCost <= 0.0))
    && (forall k :: 0 <= k < |p.dead| && !p.dead[k] ==> p.ants[k].energy > 0.0)
  }

  /** One turn of the loop keeps the pass settled. */
  lemma VisitSettled(m: Maths, c: Colony, ants: seq<AntsLegacy.Ant>, p: Pass, d: nat -> AntsLegacy.Draws)
    requires Valid(c) && MapReady(p.pheromones) && |p.dead| < |p.ants| && SettledOf(ants, p)
    ensures SettledOf(ants, Visit(m, c, p, d))
  {
    var i := |p.dead|;
    var o := AntsLegacy.Update(m, p.ants[i], p.pheromones, c.width, c.height, c.foods,
                               Ants.Point(c.x, c.y), d(i));
    AntsLegacy.UpdateFacts(m, p.ants[i], p.pheromones, c.width, c.height, c.foods,
                           Ants.Point(c.x, c.y), d(i));
    var next := Visit(m, c, p, d);
    assert next.ants == p.ants[i := o.ant] && next.dead == p.dead + [!o.keep];
    assert p.ants[i] == ants[i];
  }

  lemma {:induction false} SweepSettled(m: Maths, c: Colony, ants: seq<AntsLegacy.Ant>, p: Pass,
                                        d: nat -> AntsLegacy.Draws)
    requires Valid(c) && MapReady(p.pheromones) && |p.dead| <= |p.ants| && SettledOf(ants, p)
    ensures SettledOf(ants, Sweep(m, c, p, d))
    decreases |p.ants| - |p.dead|
  {
    if |p.dead| < |p.ants| {
      VisitSettled(m, c, ants, p, d);
      SweepSettled(m, c, ants, Visit(m, c, p, d), d);
    }
  }

  /** An ant is flagged exactly when the frame's energy charge exhausts it;
      the loop keeps every ant lawful, and every ant it does not flag has
      energy left. */
  lemma SweepFlags(m: Maths, c: Colony, pheromones: PheromoneMap.Map, d: nat -> AntsLegacy.Draws)
    requires Valid(c) && MapReady(pheromones) && AllLawful(c.ants)
    ensures var r := Sweep(m, c, Pass(c.ants, [], pheromones, c.foodStored), d);
      && AllLawful(r.ants)
      && (forall k :: 0 <= k < |r.ants| ==> (r.dead[k] <==> c.ants[k].energy - AntsLegacy.EnergyCost <= 0.0))
      && (forall k :: 0 <= k < |r.ants| && !r.dead[k] ==> r.ants[k].energy > 0.0)
  {
    SweepSettled(m, c, c.ants, Pass(c.ants, [], pheromones, c.foodStored), d);
  }

  // ---------------------------------------------------------------- spawning

  /** `spawn_ant` with the first ant's constructor. */
  function Spawn(m: Maths, c: Colony, s: ColonySim.PlaceDraw): (r: Colony)
    ensures ColonySim.CanSpawn(c.population, c.foodStored) ==>
      && |r.ants| == |c.ants| + 1 && r.ants[..|c.ants|] == c.ants
      && AntsLegacy.Lawful(r.ants[|c.ants|]) && r.ants[|c.ants|].energy > 0.0
      && r.population == c.population + 1
      && r.foodStored == c.foodStored - ColonySim.SpawnCost
    ensures !ColonySim.CanSpawn(c.population, c.foodStored) ==> r == c
    ensures r == c.(ants := r.ants, population := r.population, foodStored := r.foodStored)
  {
    if ColonySim.CanSpawn(c.population, c.foodStored) then
      var at := ColonySim.SpawnPoint(m, c.x, c.y, s);
      var a := AntsLegacy.NewAnt(at.x, at.y, ColonySim.Heading(s));
      assert (c.ants + [a])[..|c.ants|] == c.ants;
      c.(ants := c.ants + [a], population := c.population + 1,
         foodStored := c.foodStored - ColonySim.SpawnCost)
    else c
  }

  /** `n` calls of `spawn_ant`: each spawn appends one lawful ant, counts it
      and costs 20; the counter never passes the cap it started under. */
  function SpawnTimes(m: Maths, c: Colony, n: nat, d: nat -> ColonySim.PlaceDraw, j: nat): (r: Colony)
    ensures r == c.(ants := r.ants, population := r.population, foodStored := r.foodStored)
    ensures |r.ants| - |c.ants| == r.population - c.population
    ensures 0 <= r.population - c.population <= n
    ensures r.ants[..|c.ants|] == c.ants
    ensures r.foodStored == c.foodStored - ColonySim.SpawnCost * (r.population - c.population) as real
    ensures r.population <= MaxInt(c.population, ColonySim.MaxPopulation)
    ensures c.foodStored >= 0.0 ==> r.foodStored >= 0.0
    ensures AllLawful(c.ants) ==> AllLawful(r.ants)
    ensures forall k :: |c.ants| <= k < |r.ants| ==> r.ants[k].energy > 0.0
    decreases n
  {
    if n == 0 then c
    else
      var s := Spawn(m, c, d(j));
      var r := SpawnTimes(m, s, n - 1, d, j + 1);
      assert r.ants[..|c.ants|] == r.ants[..|s.ants|][..|c.ants|];
      r
  }

  // ---------------------------------------------------------------- sources

  /** The regeneration loop: a source below 100 gains 0.1. */
  function Regrow(foods: seq<Ants.Food>): (r: seq<Ants.Food>)
    ensures |r| == |foods|
    ensures forall k :: 0 <= k < |foods| ==>
      && r[k] == foods[k].(amount := r[k].amount)
      && (foods[k].amount < RegrowthCap ==> r[k].amount == foods[k].amount + Regrowth)
      && (foods[k].amount >= RegrowthCap ==> r[k].amount == foods[k].amount)
  {
    seq(|foods|, k requires 0 <= k < |foods| =>
      if foods[k].amount < RegrowthCap then foods[k].(amount := foods[k].amount + Regrowth) else foods[k])
  }

  /** No source ever climbs past 100.1 once there, and none shrinks. */
  lemma RegrowBounded(foods: seq<Ants.Food>)
    requires forall k :: 0 <= k < |foods| ==> foods[k].amount <= RegrowthCap + Regrowth
    ensures forall k :: 0 <= k < |foods| ==>
      foods[k].amount <= Regrow(foods)[k].amount <= RegrowthCap + Regrowth
  {
  }

  /** Regeneration adds between nothing and 0.1 per source to the food
      held in total. */
  lemma {:induction false} RegrowTotal(foods: seq<Ants.Food>)
    ensures Ants.TotalFood(foods) <= Ants.TotalFood(Regrow(foods))
              <= Ants.TotalFood(foods) + Regrowth * |foods| as real
    decreases |foods|
  {
    if |foods| > 0 {
      var n := |foods|;
      assert Regrow(foods)[..n - 1] == Regrow(foods[..n - 1]);
      RegrowTotal(foods[..n - 1]);
    }
  }

  // ---------------------------------------------------------------- frame

  /** The first half of `update`: the clock, evaporation, the ant loop,
      and the removal of the flagged ants, one count each. */
  function Settle(m: Maths, c: Colony, d: nat -> AntsLegacy.Draws): (r: Colony)
    requires Valid(c)
    ensures Valid(r) && r.time == c.time + 1
    ensures r == c.(time := r.time, pheromones := r.pheromones, ants := r.ants, population := r.population,
                    foodStored := r.foodStored)
    ensures r.population - |r.ants| == c.population - |c.ants| && |r.ants| <= |c.ants|
    ensures c.foodStored <= ColonySim.MaxFood ==> r.foodStored <= ColonySim.MaxFood
  {
    var p := Sweep(m, c, Pass(c.ants, [], PheromoneMap.Update(c.pheromones), c.foodStored), d);
    var dead := Removal.Marked(p.dead);
    c.(time := c.time + 1, pheromones := p.pheromones, ants := Removal.Drop(p.ants, dead),
       population := c.population - |dead|, foodStored := p.stored)
  }

  /** `consume_food` applied to the colony. */
  function Feed(c: Colony): (r: Colony)
    ensures r == c.(foodStored := r.foodStored, population := r.population)
    ensures r.foodStored >= 0.0
    ensures r.population <= MaxInt(c.population, 0)
    ensures c.population >= 0 && c.foodStored >= 0.0 ==> r.foodStored <= c.foodStored
  {
    var meal := ColonySim.Consume(c.foodStored, c.population);
    c.(foodStored := meal.stored, population := meal.population)
  }

  /** The periodic spawning of `update`: on every 60th frame, with more
      than 500 in store, up to five `spawn_ant` calls. */
  function Grow(m: Maths, c: Colony, d: nat -> ColonySim.PlaceDraw): (r: Colony)
    ensures r == c.(ants := r.ants, population := r.population, foodStored := r.foodStored)
    ensures |r.ants| - |c.ants| == r.population - c.population
    ensures 0 <= r.population - c.population <= ColonySim.SpawnBatch
    ensures r.ants[..|c.ants|] == c.ants
    ensures r.population <= MaxInt(c.population, ColonySim.MaxPopulation)
    ensures c.foodStored >= 0.0 ==> 0.0 <= r.foodStored <= c.foodStored
    ensures AllLawful(c.ants) ==> AllLawful(r.ants)
    ensures forall k :: |c.ants| <= k < |r.ants| ==> r.ants[k].energy > 0.0
    ensures !(c.time % ColonySim.SpawnPeriod == 0 && c.foodStored > ColonySim.WellFed) ==> r == c
  {
    if c.time % ColonySim.SpawnPeriod == 0 && c.foodStored > ColonySim.WellFed
    then SpawnTimes(m, c, ColonySim.Attempts(c.population), d, 0)
    else c
  }

  /** `Colony.update`: clock, evaporation, the ant loop with the dead
      removed from the highest index down, feeding, periodic spawning and
      regrowth of the sources. */
  function Update(m: Maths, c: Colony, d: Draws): (r: Colony)
    requires Valid(c)
    ensures Valid(r)
    ensures r.time == c.time + 1
    ensures r == c.(time := r.time, pheromones := r.pheromones, ants := r.ants, population := r.population,
                    foods := r.foods, foodStored := r.foodStored)
    ensures r.foods == Regrow(c.foods)
    ensures r.foodStored >= 0.0
    ensures c.population >= |c.ants| && c.foodStored <= ColonySim.MaxFood ==> r.foodStored <= ColonySim.MaxFood
    ensures c.population <= ColonySim.MaxPopulation ==> r.population <= ColonySim.MaxPopulation
  {
    var grown := Grow(m, Feed(Settle(m, c, d.ants)), d.spawns);
    grown.(foods := Regrow(grown.foods))
  }

  /** Spawning happens only on the frame whose new clock is a multiple of
      `SpawnPeriod`: on every other frame no ant is added and the ants left
      are exactly the survivors of the ant loop. */
  lemma UpdateSpawnGate(m: Maths, c: Colony, d: Draws)
    requires Valid(c)
    ensures (c.time + 1) % ColonySim.SpawnPeriod != 0 ==>
              && Update(m, c, d).ants == Settle(m, c, d.ants).ants
              && |Update(m, c, d).ants| <= |c.ants|
  {
    var s := Settle(m, c, d.ants);
    var f := Feed(s);
    var g := Grow(m, f, d.spawns);
    assert Update(m, c, d) == g.(foods := Regrow(g.foods));
    if (c.time + 1) % ColonySim.SpawnPeriod != 0 {
      assert f.time == c.time + 1;
      assert g == f;
    }
  }

  /** Which ants the frame's energy charge exhausts. */
  function Starved(ants: seq<AntsLegacy.Ant>): (flags: seq<bool>)
    ensures |flags| == |ants|
    ensures forall k :: 0 <= k < |ants| ==> (flags[k] <==> ants[k].energy - AntsLegacy.EnergyCost <= 0.0)
  {
    seq(|ants|, k requires 0 <= k < |ants| => ants[k].energy - AntsLegacy.EnergyCost <= 0.0)
  }

  /** The ants the first half of a frame keeps are, in order, those the
      charge did not exhaust, each lawful and with energy left. */
  lemma SettleSurvivors(m: Maths, c: Colony, d: nat -> AntsLegacy.Draws)
    requires Valid(c) && AllLawful(c.ants)
    ensures var p := Sweep(m, c, Pass(c.ants, [], PheromoneMap.Update(c.pheromones), c.foodStored), d);
      var r := Settle(m, c, d);
      && r.ants == Removal.Unmarked(p.ants, Starved(c.ants))
      && AllLawful(r.ants)
      && (forall k :: 0 <= k < |r.ants| ==> r.ants[k].energy > 0.0)
  {
    var pheromones := PheromoneMap.Update(c.pheromones);
    var p := Sweep(m, c, Pass(c.ants, [], pheromones, c.foodStored), d);
    SweepFlags(m, c, pheromones, d);
    assert p.dead == Starved(c.ants);
    Removal.DropMarked(p.ants, p.dead);
    var kept := Settle(m, c, d).ants;
    assert kept == Removal.Unmarked(p.ants, p.dead);
    forall k | 0 <= k < |kept|
      ensures AntsLegacy.Lawful(kept[k]) && kept[k].energy > 0.0
    {
      Removal.UnmarkedFrom(p.ants, p.dead, k);
    }
  }

  /** The ants left after a frame are, in order, those that still had
      energy after its charge, each lawful and with energy left, followed
      by at most five newborns. */
  lemma UpdateSurvivors(m: Maths, c: Colony, d: Draws)
    requires Valid(c) && AllLawful(c.ants)
    ensures var r := Update(m, c, d);
      var p := Sweep(m, c, Pass(c.ants, [], PheromoneMap.Update(c.pheromones), c.foodStored), d.ants);
      var kept := Removal.Unmarked(p.ants, Starved(c.ants));
      && |kept| <= |r.ants| <= |kept| + ColonySim.SpawnBatch
      && r.ants[..|kept|] == kept
      && AllLawful(r.ants)
      && (forall k :: 0 <= k < |r.ants| ==> r.ants[k].energy > 0.0)
  {
    var settled := Settle(m, c, d.ants);
    SettleSurvivors(m, c, d.ants);
    var fed := Feed(settled);
    var grown := Grow(m, fed, d.spawns);
    assert grown.ants[..|fed.ants|] == fed.ants == settled.ants;
    forall k | 0 <= k < |fed.ants|
      ensures grown.ants[k].energy > 0.0
    {
      assert grown.ants[k] == grown.ants[..|fed.ants|][k];
    }
  }

  /** The first ants never take food from a source, and a source at 100
      does not regrow: sources created full stay exactly as created. */
  lemma SourcesNeverChange(m: Maths, c: Colony, d: Draws)
    requires Valid(c)
    requires forall k :: 0 <= k < |c.foods| ==> c.foods[k].amount >= RegrowthCap
    ensures Update(m, c, d).foods == c.foods
  {
  }

  // ---------------------------------------------------------------- creation

  /** `_spawn_initial_ants` placement, as in the current colony. */
  function PlaceInitial(m: Maths, x: real, y: real, bounds: Option<Rect>, s: ColonySim.PlaceDraw): (a: AntsLegacy.Ant)
    ensures AntsLegacy.Lawful(a) && a.state == Foraging && a.energy == a.maxEnergy
  {
    var at := ColonySim.InitialPoint(m, x, y, bounds, s);
    AntsLegacy.NewAnt(at.x, at.y, ColonySim.Heading(s))
  }

  /** `Colony.__init__`: an empty store, 30 counted ants, an empty first
      pheromone map and five sources of 100 units each. */
  function NewColony(m: Maths, x: real, y: real, width: int, height: int, bounds: Option<Rect>,
                     ants: nat -> ColonySim.PlaceDraw, sources: nat -> ColonySim.SourceDraw): (c: Colony)
    requires width >= PheromoneCell && height >= PheromoneCell
    ensures Valid(c) && AllLawful(c.ants)
    ensures c.population == |c.ants| == InitialAntCount
    ensures |c.foods| == SourceCount && forall k :: 0 <= k < SourceCount ==> c.foods[k].amount == SourceStart
    ensures c.foodStored == 0.0 && c.time == 0
  {
    var placed := seq(InitialAntCount, k requires 0 <= k < InitialAntCount => PlaceInitial(m, x, y, bounds, ants(k)));
    assert forall k :: 0 <= k < |placed| ==> placed[k] == PlaceInitial(m, x, y, bounds, ants(k));
    var area := ColonySim.SourceArea(width, height, bounds);
    var stocked := seq(SourceCount, k requires 0 <= k < SourceCount =>
                       var at := ColonySim.SourceSpot(area, sources(k)); Ants.Food(at.x, at.y, SourceStart));
    Colony(x, y, width, height, bounds, 0.0, InitialAntCount, placed,
           PheromoneMap.NewMap(width, height, PheromoneCell, PheromoneMap.Legacy), stocked, 0)
  }

  // ---------------------------------------------------------------- stats

  /** The state of each ant. The older ant is its own record type, so this
      projection is written again for it; the counts over it are shared
      with `ColonySim`. */
  function StatesOf(ants: seq<AntsLegacy.Ant>): (r: seq<AntState>)
    ensures |r| == |ants| && forall k :: 0 <= k < |ants| ==> r[k] == ants[k].state
  {
    seq(|ants|, k requires 0 <= k < |ants| => ants[k].state)
  }

  datatype Stats = Stats(population: int, foodStored: real, foraging: nat, returning: nat, activeSources: nat)

  /** `get_stats`. */
  function GetStats(c: Colony): (s: Stats)
    ensures s.population == c.population && s.foodStored == c.foodStored
    ensures s.foraging + s.returning <= |c.ants|
    ensures s.activeSources <= |c.foods|
    ensures s.foraging == multiset(StatesOf(c.ants))[Foraging]
    ensures s.returning == multiset(StatesOf(c.ants))[Returning]
    ensures s.activeSources == |ColonySim.ActiveIndices(c.foods)|
  {
    ColonySim.StatesPartition(StatesOf(c.ants));
    Stats(c.population, c.foodStored, ColonySim.CountState(StatesOf(c.ants), Foraging),
          ColonySim.CountState(StatesOf(c.ants), Returning), ColonySim.CountActive(c.foods))
  }
}
