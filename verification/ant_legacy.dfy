/** The first ant of `ant.py`: energy, deposit cooldown, the three-state
    machine and a move that wraps around the world edges. It reads and
    writes the older pheromone map and picks food up without taking any
    from the source. */
module AntsLegacy {
  import opened Common
  import Ants
  import PheromoneMap

  const EnergyCost: real := 0.01
  const PickupRange: real := 15.0
  /** Food units an ant takes on a pickup. */
  const Load: int := 10
  const DropRange: real := 20.0
  const EnergyRefill: real := 20.0
  const DepositCooldown: int := 5
  const PheromoneStrength: real := 0.5
  const Speed: real := 2.0

  datatype Ant = Ant(
    x: real, y: real,
    state: AntState,
    energy: real,
    maxEnergy: real,
    carryingFood: bool,
    foodAmount: int,
    direction: real,
    depositCooldown: int)

  /** One value per `random` call site. */
  datatype Draws = Draws(
    followChance: real,    // random(), follow a foraging trail below 0.7
    trailTurn: real,       // uniform(-0.5, 0.5)
    walkChance: real,      // random(), turn below 0.1
    walkTurn: real,        // uniform(-pi/4, pi/4)
    returnChance: real,    // random(), follow a returning trail below 0.8
    idleTurn: real)        // uniform(-0.2, 0.2)

  /** `Ant.__init__` with the random initial `heading`. */
  function NewAnt(x: real, y: real, heading: real): (a: Ant)
    ensures Lawful(a) && a.state == Foraging && a.energy == a.maxEnergy
  {
    Ant(x, y, Foraging, 100.0, 100.0, false, 0, heading, 0)
  }

  /** Energy never above the maximum, a cooldown in `[0, 5]`, and RETURNING
      exactly while carrying a load of 10. */
  predicate Lawful(a: Ant)
  {
    && a.energy <= a.maxEnergy
    && 0 <= a.depositCooldown <= DepositCooldown
    && (a.state == Returning <==> a.carryingFood)
    && a.foodAmount == (if a.carryingFood then Load else 0)
  }

  /** The first source within pickup range, whatever it holds. */
  function FirstNear(m: Maths, a: Ant, foods: seq<Ants.Food>, i: nat): (r: Option<nat>)
    requires i <= |foods|
    ensures r.None? <==> forall j :: i <= j < |foods| ==> Dist(m, a.x, a.y, foods[j].x, foods[j].y) >= PickupRange
    ensures r.Some? ==> && i <= r.value < |foods|
                        && Dist(m, a.x, a.y, foods[r.value].x, foods[r.value].y) < PickupRange
                        && forall j :: i <= j < r.value ==> Dist(m, a.x, a.y, foods[j].x, foods[j].y) >= PickupRange
    decreases |foods| - i
  {
    if i == |foods| then None
    else if Dist(m, a.x, a.y, foods[i].x, foods[i].y) < PickupRange then Some(i)
    else FirstNear(m, a, foods, i + 1)
  }

  /** `_forage`: a source in reach gives a load of 10 and turns the ant
      home; otherwise the foraging trail or a random walk steers it. */
  function Forage(m: Maths, a: Ant, p: PheromoneMap.Map, foods: seq<Ants.Food>, colony: Ants.Point, d: Draws): (r: Ant)
    requires PheromoneMap.Valid(p) && p.config.threshold >= 0.0
    ensures FirstNear(m, a, foods, 0).Some? ==>
      r == a.(carryingFood := true, foodAmount := Load, state := Returning, direction := r.direction)
    ensures FirstNear(m, a, foods, 0).None? ==> r == a.(direction := r.direction)
  {
    if FirstNear(m, a, foods, 0).Some? then
      a.(carryingFood := true, foodAmount := Load, state := Returning,
         direction := m.atan2(colony.y - a.y, colony.x - a.x))
    else
      match PheromoneMap.PheromoneDirection(p, a.x, a.y, Foraging)
      case Some(trail) =>
        a.(direction := if d.followChance < 0.7 then trail else a.direction + d.trailTurn)
      case None =>
        a.(direction := if d.walkChance < 0.1 then a.direction + d.walkTurn else a.direction)
  }

  /** `_return_to_colony`: within 20 of the colony the load is handed over
      (reported for `colony.add_food`) and energy refilled; otherwise the
      returning trail, or the colony bearing, steers the ant. */
  function ReturnHome(m: Maths, a: Ant, p: PheromoneMap.Map, colony: Ants.Point, d: Draws): (r: (Ant, Option<int>))
    requires PheromoneMap.Valid(p) && p.config.threshold >= 0.0
    ensures Dist(m, a.x, a.y, colony.x, colony.y) < DropRange ==>
      r == (a.(carryingFood := false, foodAmount := 0, state := Foraging,
               energy := Min(a.energy + EnergyRefill, a.maxEnergy)), Some(a.foodAmount))
    ensures Dist(m, a.x, a.y, colony.x, colony.y) >= DropRange ==>
      r.1.None? && r.0 == a.(direction := r.0.direction)
  {
    if Dist(m, a.x, a.y, colony.x, colony.y) < DropRange then
      (a.(carryingFood := false, foodAmount := 0, state := Foraging,
          energy := Min(a.energy + EnergyRefill, a.maxEnergy)), Some(a.foodAmount))
    else
      match PheromoneMap.PheromoneDirection(p, a.x, a.y, Returning)
      case Some(trail) => (a.(direction := if d.returnChance < 0.8 then trail else a.direction), None)
      case None => (a.(direction := m.atan2(colony.y - a.y, colony.x - a.x)), None)
  }

  /** `_idle_behavior`: back to FORAGING above 80% of the maximum energy. */
  function Rest(a: Ant, d: Draws): (r: Ant)
    ensures r.state == (if a.energy > a.maxEnergy * 0.8 then Foraging else a.state)
    ensures r == a.(state := r.state, direction := r.direction)
  {
    if a.energy > a.maxEnergy * 0.8 then a.(state := Foraging)
    else a.(direction := a.direction + d.idleTurn)
  }

  /** `_move`: one step of length 2 along the heading, wrapped with Python's
      float `%` into `[0, width) x [0, height)`. */
  function Move(m: Maths, a: Ant, width: int, height: int): (r: Ant)
    requires width > 0 && height > 0
    ensures 0.0 <= r.x < width as real && 0.0 <= r.y < height as real
    ensures r == a.(x := r.x, y := r.y)
  {
    a.(x := FloatMod(a.x + m.cos(a.direction) * Speed, width as real),
       y := FloatMod(a.y + m.sin(a.direction) * Speed, height as real))
  }

  /** The result of `update`: its boolean, the ant, the pheromone map and the
      load handed to `colony.add_food`, if any. */
  datatype Outcome = Outcome(keep: bool, ant: Ant, pheromones: PheromoneMap.Map, delivered: Option<int>)

  /** The behaviour step: the new ant and the load dropped, if any. */
  function Behave(m: Maths, a: Ant, p: PheromoneMap.Map, foods: seq<Ants.Food>, colony: Ants.Point, d: Draws): (r: (Ant, Option<int>))
    requires PheromoneMap.Valid(p) && p.config.threshold >= 0.0
  {
    match a.state
    case Foraging => (Forage(m, a, p, foods, colony, d), None)
    case Returning => ReturnHome(m, a, p, colony, d)
    case Idle => (Rest(a, d), None)
  }

  /** `Ant.update`: the energy charge (False once it is spent), the cooldown
      tick, the behaviour, the move and a deposit of 0.5 by a FORAGING or
      RETURNING ant whose cooldown is 0, which restarts it at 5. The food
      sources are only read. */
  function Update(m: Maths, a: Ant, p: PheromoneMap.Map, width: int, height: int,
                  foods: seq<Ants.Food>, colony: Ants.Point, d: Draws): (r: Outcome)
    requires PheromoneMap.Valid(p) && p.config.threshold >= 0.0
    requires width > 0 && height > 0
    ensures PheromoneMap.Valid(r.pheromones) && r.pheromones.config == p.config
    ensures r.keep <==> a.energy - EnergyCost > 0.0
    ensures !r.keep ==> r == Outcome(false, a.(energy := a.energy - EnergyCost), p, None)
    ensures r.keep ==> 0.0 <= r.ant.x < width as real && 0.0 <= r.ant.y < height as real
  {
    var spent := a.(energy := a.energy - EnergyCost);
    if spent.energy <= 0.0 then Outcome(false, spent, p, None)
    else
      var cooled := spent.(depositCooldown := if spent.depositCooldown > 0 then spent.depositCooldown - 1
                                              else spent.depositCooldown);
      var (b, dropped) := Behave(m, cooled, p, foods, colony, d);
      var moved := Move(m, b, width, height);
      if moved.state in {Foraging, Returning} && moved.depositCooldown == 0 then
        Outcome(true, moved.(depositCooldown := DepositCooldown),
                PheromoneMap.DepositPheromone(p, moved.x, moved.y, PheromoneStrength, moved.state), dropped)
      else Outcome(true, moved, p, dropped)
  }

  /** The facts of the behaviour step, by state. */
  lemma BehaveFacts(m: Maths, a: Ant, p: PheromoneMap.Map, foods: seq<Ants.Food>, colony: Ants.Point, d: Draws)
    requires PheromoneMap.Valid(p) && p.config.threshold >= 0.0
    ensures var r := Behave(m, a, p, foods, colony, d);
      && r.0.depositCooldown == a.depositCooldown && r.0.maxEnergy == a.maxEnergy
      && (r.0.state != a.state ==>
            || (a.state == Foraging && r.0.state == Returning && r.0.foodAmount == Load
                && FirstNear(m, a, foods, 0).Some?)
            || (a.state == Returning && r.0.state == Foraging && r.1 == Some(a.foodAmount))
            || (a.state == Idle && r.0.state == Foraging && a.energy > a.maxEnergy * 0.8))
      && (r.1.Some? ==> a.state == Returning && r.0.energy == Min(a.energy + EnergyRefill, a.maxEnergy))
      && (r.1.None? ==> r.0.energy == a.energy)
      && (Lawful(a) ==> Lawful(r.0))
  {
  }

  /** Every frame keeps the ant lawful; a drop-off hands over the load of 10;
      a deposit goes to the grid of the ant's state and restarts the
      cooldown; states change only along the three transitions. */
  lemma UpdateFacts(m: Maths, a: Ant, p: PheromoneMap.Map, width: int, height: int,
                    foods: seq<Ants.Food>, colony: Ants.Point, d: Draws)
    requires PheromoneMap.Valid(p) && p.config.threshold >= 0.0
    requires width > 0 && height > 0
    requires Lawful(a)
    ensures var r := Update(m, a, p, width, height, foods, colony, d);
      && Lawful(r.ant)
      && (r.keep ==> r.ant.energy > 0.0)
      && (r.delivered.Some? ==> r.delivered.value == Load && a.state == Returning && r.ant.state == Foraging)
      && (r.pheromones != p ==> r.ant.depositCooldown == DepositCooldown && r.ant.state != Idle)
      && (r.pheromones.foraging != p.foraging ==> r.ant.state == Foraging)
      && (r.pheromones.returning != p.returning ==> r.ant.state == Returning)
      && (r.ant.state != a.state ==>
            || (a.state == Foraging && r.ant.state == Returning && r.ant.carryingFood)
            || (a.state == Returning && r.ant.state == Foraging && r.delivered.Some?)
            || (a.state == Idle && r.ant.state == Foraging && a.energy - EnergyCost > a.maxEnergy * 0.8))
  {
    var spent := a.(energy := a.energy - EnergyCost);
    if spent.energy > 0.0 {
      var cooled := spent.(depositCooldown := if spent.depositCooldown > 0 then spent.depositCooldown - 1
                                              else spent.depositCooldown);
      BehaveFacts(m, cooled, p, foods, colony, d);
      if cooled.state == Returning && Dist(m, cooled.x, cooled.y, colony.x, colony.y) < DropRange {
        assert Min(cooled.energy + EnergyRefill, cooled.maxEnergy) <= cooled.maxEnergy;
      }
    }
  }

  /** A pickup ignores what the source holds: an ant in reach of an empty
      source still leaves with a load of 10. */
  lemma PickupFromEmpty(m: Maths, a: Ant, p: PheromoneMap.Map, colony: Ants.Point, d: Draws, f: Ants.Food)
    requires PheromoneMap.Valid(p) && p.config.threshold >= 0.0
    requires f.amount <= 0.0 && Dist(m, a.x, a.y, f.x, f.y) < PickupRange
    ensures Forage(m, a, p, [f], colony, d).state == Returning
    ensures Forage(m, a, p, [f], colony, d).foodAmount == Load
  {
    assert FirstNear(m, a, [f], 0) == Some(0);
  }
}
