/** The two-layer pheromone model of `src/pheromone_model.py`: a food-trail
    layer and a home-trail layer, each a grid of strengths indexed
    `grid[gy][gx]`, with capped deposits, per-frame evaporation and an
    eight-neighbour trail-following scan. */
module PheromoneModel {
  import opened Common
  import opened Selection

  /** Strength cap of every cell. */
  const MaxPheromone: real := 200.0
  /** Factor applied to every cell once per frame. */
  const EvaporationRate: real := 0.995
  /** Neighbours weaker than this are ignored by the trail scan. */
  const DetectionThreshold: real := 10.0
  /** Strength factor for neighbours more than 90 degrees off the heading. */
  const BackwardPenalty: real := 0.3

  datatype PheromoneType = FoodTrail | HomeTrail

  /** One layer: `grid` has `gridHeight` rows of `gridWidth` cells (no rows
      when a dimension is not positive, as `range` of it is empty). */
  datatype Layer = Layer(gridWidth: int, gridHeight: int, grid: seq<seq<real>>)

  predicate WellFormed(l: Layer)
  {
    && |l.grid| == MaxInt(0, l.gridHeight)
    && forall y :: 0 <= y < |l.grid| ==> |l.grid[y]| == MaxInt(0, l.gridWidth)
  }

  predicate InGrid(l: Layer, gx: int, gy: int)
  {
    0 <= gx < l.gridWidth && 0 <= gy < l.gridHeight
  }

  /** Every cell of the layer lies in `[0, MaxPheromone]`. */
  ghost predicate LayerBounded(l: Layer)
  {
    forall y, x :: 0 <= y < |l.grid| && 0 <= x < |l.grid[y]| ==> 0.0 <= l.grid[y][x] <= MaxPheromone
  }

  function NewLayer(gw: int, gh: int): (l: Layer)
    ensures WellFormed(l) && l.gridWidth == gw && l.gridHeight == gh
    ensures forall y, x :: 0 <= y < |l.grid| && 0 <= x < |l.grid[y]| ==> l.grid[y][x] == 0.0
  {
    Layer(gw, gh, seq(MaxInt(0, gh), _ => seq(MaxInt(0, gw), _ => 0.0)))
  }

  /** `PheromoneLayer.get`: the stored strength, or 0.0 off the grid. */
  function LayerGet(l: Layer, gx: int, gy: int): (r: real)
    requires WellFormed(l)
    ensures r != 0.0 ==> InGrid(l, gx, gy)
    ensures LayerBounded(l) ==> 0.0 <= r <= MaxPheromone
  {
    if InGrid(l, gx, gy) then l.grid[gy][gx] else 0.0
  }

  /** `PheromoneLayer.deposit`: the addressed cell becomes
      `min(maxValue, old + amount)`; off the grid nothing happens. */
  function LayerDeposit(l: Layer, gx: int, gy: int, amount: real, maxValue: real): (r: Layer)
    requires WellFormed(l)
    ensures WellFormed(r) && r.gridWidth == l.gridWidth && r.gridHeight == l.gridHeight
    ensures forall x, y ::
              LayerGet(r, x, y) ==
                if x == gx && y == gy && InGrid(l, x, y) then Min(maxValue, LayerGet(l, x, y) + amount)
                else LayerGet(l, x, y)
    ensures !InGrid(l, gx, gy) ==> r == l
  {
    if InGrid(l, gx, gy) then
      l.(grid := l.grid[gy := l.grid[gy][gx := Min(maxValue, l.grid[gy][gx] + amount)]])
    else l
  }

  /** `PheromoneLayer.evaporate`: every cell is multiplied by `rate`. */
  function LayerEvaporate(l: Layer, rate: real): (r: Layer)
    requires WellFormed(l)
    ensures WellFormed(r) && r.gridWidth == l.gridWidth && r.gridHeight == l.gridHeight
    ensures forall x, y :: LayerGet(r, x, y) == LayerGet(l, x, y) * rate
  {
    l.(grid := seq(|l.grid|, y requires 0 <= y < |l.grid| =>
                 seq(|l.grid[y]|, x requires 0 <= x < |l.grid[y]| => l.grid[y][x] * rate)))
  }

  /** `PheromoneLayer.clear`. */
  function LayerClear(l: Layer): (r: Layer)
    requires WellFormed(l)
    ensures WellFormed(r) && r.gridWidth == l.gridWidth && r.gridHeight == l.gridHeight
    ensures forall x, y :: LayerGet(r, x, y) == 0.0
  {
    NewLayer(l.gridWidth, l.gridHeight)
  }

  /** The model: screen size, cell size, derived grid size and both layers. */
  datatype Model = Model(width: int, height: int, cellSize: int,
                         gridWidth: int, gridHeight: int,
                         food: Layer, home: Layer)

  predicate Valid(m: Model)
  {
    && m.cellSize > 0
    && WellFormed(m.food) && m.food.gridWidth == m.gridWidth && m.food.gridHeight == m.gridHeight
    && WellFormed(m.home) && m.home.gridWidth == m.gridWidth && m.home.gridHeight == m.gridHeight
  }

  ghost predicate Bounded(m: Model)
  {
    LayerBounded(m.food) && LayerBounded(m.home)
  }

  /** `PheromoneModel.__init__`: the grid is `width // cell_size` by
      `height // cell_size` cells, all zero. */
  function NewModel(width: int, height: int, cellSize: int): (m: Model)
    requires cellSize > 0
    ensures Valid(m) && Bounded(m)
    ensures m.gridWidth * cellSize <= width < (m.gridWidth + 1) * cellSize
    ensures m.gridHeight * cellSize <= height < (m.gridHeight + 1) * cellSize
    ensures m.width == width && m.height == height && m.cellSize == cellSize
    ensures forall x, y :: LayerGet(m.food, x, y) == 0.0 && LayerGet(m.home, x, y) == 0.0
  {
    var gw := width / cellSize;
    var gh := height / cellSize;
    Model(width, height, cellSize, gw, gh, NewLayer(gw, gh), NewLayer(gw, gh))
  }

  /** `_to_grid`: the floor cell of a world position, clamped to the grid. */
  function ToGrid(m: Model, x: real, y: real): (r: (int, int))
    requires m.cellSize > 0
    ensures m.gridWidth >= 1 ==> 0 <= r.0 < m.gridWidth
    ensures m.gridHeight >= 1 ==> 0 <= r.1 < m.gridHeight
    ensures 0 <= FloorDiv(x, m.cellSize) < m.gridWidth ==> r.0 == FloorDiv(x, m.cellSize)
    ensures 0 <= FloorDiv(y, m.cellSize) < m.gridHeight ==> r.1 == FloorDiv(y, m.cellSize)
  {
    (ClampInt(FloorDiv(x, m.cellSize), 0, m.gridWidth - 1),
     ClampInt(FloorDiv(y, m.cellSize), 0, m.gridHeight - 1))
  }

  /** `_get_layer`: the food layer for FOOD_TRAIL, the home layer otherwise. */
  function GetLayer(m: Model, ptype: PheromoneType): Layer
  {
    if ptype == FoodTrail then m.food else m.home
  }

  /** `PheromoneModel.deposit`: a capped deposit into the cell under `(x, y)`
      of the chosen layer only. */
  function Deposit(m: Model, x: real, y: real, amount: real, ptype: PheromoneType): (r: Model)
    requires Valid(m)
    ensures Valid(r)
    ensures ptype == FoodTrail ==> r.home == m.home
    ensures ptype == HomeTrail ==> r.food == m.food
  {
    var (gx, gy) := ToGrid(m, x, y);
    if ptype == FoodTrail then m.(food := LayerDeposit(m.food, gx, gy, amount, MaxPheromone))
    else m.(home := LayerDeposit(m.home, gx, gy, amount, MaxPheromone))
  }

  /** `get_strength`. */
  function GetStrength(m: Model, x: real, y: real, ptype: PheromoneType): (r: real)
    requires Valid(m)
    ensures var gx, gy := FloorDiv(x, m.cellSize), FloorDiv(y, m.cellSize);
      InGrid(m.food, gx, gy) ==> r == LayerGet(GetLayer(m, ptype), gx, gy)
    ensures Bounded(m) ==> 0.0 <= r <= MaxPheromone
  {
    var (gx, gy) := ToGrid(m, x, y);
    LayerGet(GetLayer(m, ptype), gx, gy)
  }

  /** The strength the trail scan compares for neighbour `k`: zero for a
      neighbour below the detection threshold (it is skipped, and a zero never
      beats the running best, which starts at 0.0), otherwise the raw
      strength, times 0.3 when the neighbour lies more than 90 degrees away
      from the current heading. */
  function Effective(l: Layer, gx: int, gy: int, currentDir: Option<real>, k: nat): real
    requires WellFormed(l) && k < |Neighbours|
  {
    var (dx, dy) := Neighbours[k];
    var raw := LayerGet(l, gx + dx, gy + dy);
    if raw < DetectionThreshold then 0.0
    else match currentDir
      case None => raw
      case Some(c) =>
        if FoldAbs(Abs(OffsetAngle(dx, dy) - c)) > PI / 2.0 then raw * BackwardPenalty else raw
  }

  function EffectiveStrengths(l: Layer, gx: int, gy: int, currentDir: Option<real>): (s: seq<real>)
    requires WellFormed(l)
    ensures |s| == |Neighbours|
    ensures forall k :: 0 <= k < |s| ==> s[k] == Effective(l, gx, gy, currentDir, k)
  {
    seq(|Neighbours|, k requires 0 <= k < |Neighbours| => Effective(l, gx, gy, currentDir, k))
  }

  /** The raw strength of neighbour `k` of cell `(gx, gy)`. */
  function Raw(l: Layer, gx: int, gy: int, k: nat): real
    requires WellFormed(l) && k < |Neighbours|
  {
    LayerGet(l, gx + Neighbours[k].0, gy + Neighbours[k].1)
  }

  /** A neighbour is detected exactly when its compared strength is positive. */
  lemma EffectivePositive(l: Layer, gx: int, gy: int, currentDir: Option<real>, k: nat)
    requires WellFormed(l) && k < |Neighbours|
    ensures Effective(l, gx, gy, currentDir, k) > 0.0 <==> Raw(l, gx, gy, k) >= DetectionThreshold
    ensures Raw(l, gx, gy, k) >= DetectionThreshold ==>
      Effective(l, gx, gy, currentDir, k) >= BackwardPenalty * Raw(l, gx, gy, k)
  {
  }

  /** `get_trail_direction`: the index into `Neighbours` of the chosen cell. */
  function TrailChoice(m: Model, x: real, y: real, ptype: PheromoneType, currentDir: Option<real>): (r: Option<nat>)
    requires Valid(m)
    ensures r.None? <==> forall k :: 0 <= k < |Neighbours| ==>
      Raw(GetLayer(m, ptype), ToGrid(m, x, y).0, ToGrid(m, x, y).1, k) < DetectionThreshold
    ensures r.Some? ==>
      var (gx, gy) := ToGrid(m, x, y);
      var l := GetLayer(m, ptype);
      && r.value < |Neighbours|
      && Raw(l, gx, gy, r.value) >= DetectionThreshold
      && IsFirstMaxAbove(EffectiveStrengths(l, gx, gy, currentDir), 0.0, r.value)
  {
    var (gx, gy) := ToGrid(m, x, y);
    var l := GetLayer(m, ptype);
    var vals := EffectiveStrengths(l, gx, gy, currentDir);
    var res := FirstMax(vals, 0.0);
    forall k | 0 <= k < |Neighbours|
      ensures vals[k] > 0.0 <==> Raw(l, gx, gy, k) >= DetectionThreshold
    {
      EffectivePositive(l, gx, gy, currentDir, k);
    }
    res
  }

  /** `get_trail_direction`: the heading `atan2(dy, dx)` of the chosen
      neighbour, or None when no neighbour reaches the threshold. */
  function TrailDirection(m: Model, x: real, y: real, ptype: PheromoneType, currentDir: Option<real>): (r: Option<real>)
    requires Valid(m)
    ensures r.None? <==> forall k :: 0 <= k < |Neighbours| ==>
      Raw(GetLayer(m, ptype), ToGrid(m, x, y).0, ToGrid(m, x, y).1, k) < DetectionThreshold
    ensures r.Some? ==> exists k :: (0 <= k < |Neighbours|
      && Raw(GetLayer(m, ptype), ToGrid(m, x, y).0, ToGrid(m, x, y).1, k) >= DetectionThreshold
      && r.value == OffsetAngle(Neighbours[k].0, Neighbours[k].1))
  {
    match TrailChoice(m, x, y, ptype, currentDir)
    case None => None
    case Some(k) => Some(OffsetAngle(Neighbours[k].0, Neighbours[k].1))
  }

  /** `PheromoneModel.update`: both layers evaporate at 0.995. */
  function Update(m: Model): (r: Model)
    requires Valid(m)
    ensures Valid(r)
    ensures forall x, y :: LayerGet(r.food, x, y) == LayerGet(m.food, x, y) * EvaporationRate
    ensures forall x, y :: LayerGet(r.home, x, y) == LayerGet(m.home, x, y) * EvaporationRate
  {
    m.(food := LayerEvaporate(m.food, EvaporationRate), home := LayerEvaporate(m.home, EvaporationRate))
  }

  /** `PheromoneModel.clear`. */
  function Clear(m: Model): (r: Model)
    requires Valid(m)
    ensures Valid(r) && Bounded(r)
    ensures forall x, y :: LayerGet(r.food, x, y) == 0.0 && LayerGet(r.home, x, y) == 0.0
  {
    m.(food := LayerClear(m.food), home := LayerClear(m.home))
  }

  /** The saved form: one row list per layer. */
  datatype Saved = Saved(foodTrail: seq<seq<real>>, homeTrail: seq<seq<real>>)

  /** The stored form read back: each key may be missing. */
  datatype SaveData = SaveData(foodTrail: Option<seq<seq<real>>>, homeTrail: Option<seq<seq<real>>>)

  /** `to_dict`: the rows `0..grid_height` of cells `0..grid_width` of each layer. */
  function ToDict(m: Model): (d: Saved)
    requires Valid(m)
    ensures |d.foodTrail| == |m.food.grid| && |d.homeTrail| == |m.home.grid|
    ensures forall y :: 0 <= y < |d.foodTrail| ==> |d.foodTrail[y]| == MaxInt(0, m.gridWidth)
    ensures forall y :: 0 <= y < |d.homeTrail| ==> |d.homeTrail[y]| == MaxInt(0, m.gridWidth)
    ensures forall y, x :: 0 <= y < |d.foodTrail| && 0 <= x < |d.foodTrail[y]| ==>
      d.foodTrail[y][x] == LayerGet(m.food, x, y)
    ensures forall y, x :: 0 <= y < |d.homeTrail| && 0 <= x < |d.homeTrail[y]| ==>
      d.homeTrail[y][x] == LayerGet(m.home, x, y)
  {
    Saved(Rows(m.food), Rows(m.home))
  }

  function Rows(l: Layer): (rows: seq<seq<real>>)
    requires WellFormed(l)
    ensures |rows| == |l.grid|
    ensures forall y :: 0 <= y < |rows| ==> |rows[y]| == MaxInt(0, l.gridWidth)
    ensures forall y, x :: 0 <= y < |rows| && 0 <= x < |rows[y]| ==> rows[y][x] == l.grid[y][x]
  {
    seq(MaxInt(0, l.gridHeight), y requires 0 <= y < MaxInt(0, l.gridHeight) =>
      seq(MaxInt(0, l.gridWidth), x requires 0 <= x < MaxInt(0, l.gridWidth) => l.grid[y][x]))
  }

  /** One layer of `from_dict`: every saved value whose row and column fall
      inside the grid overwrites the cell; the rest of the grid is kept. */
  function Overlay(l: Layer, rows: seq<seq<real>>): (r: Layer)
    requires WellFormed(l)
    ensures WellFormed(r) && r.gridWidth == l.gridWidth && r.gridHeight == l.gridHeight
    ensures forall x, y ::
              LayerGet(r, x, y) ==
                if InGrid(l, x, y) && y < |rows| && x < |rows[y]| then rows[y][x] else LayerGet(l, x, y)
  {
    l.(grid := seq(|l.grid|, y requires 0 <= y < |l.grid| =>
                 seq(|l.grid[y]|, x requires 0 <= x < |l.grid[y]| =>
                   if y < |rows| && x < |rows[y]| then rows[y][x] else l.grid[y][x])))
  }

  /** `from_dict`: each layer present in the data is overlaid. */
  function FromDict(m: Model, data: SaveData): (r: Model)
    requires Valid(m)
    ensures Valid(r)
    ensures r == m.(food := r.food, home := r.home)
    ensures data.foodTrail.None? ==> r.food == m.food
    ensures data.homeTrail.None? ==> r.home == m.home
    ensures data.foodTrail.Some? ==> r.food == Overlay(m.food, data.foodTrail.value)
    ensures data.homeTrail.Some? ==> r.home == Overlay(m.home, data.homeTrail.value)
  {
    var food := if data.foodTrail.Some? then Overlay(m.food, data.foodTrail.value) else m.food;
    var home := if data.homeTrail.Some? then Overlay(m.home, data.homeTrail.value) else m.home;
    m.(food := food, home := home)
  }

  /** Two well-formed layers of the same size that agree on every cell are equal. */
  lemma {:induction false} LayerExt(a: Layer, b: Layer)
    requires WellFormed(a) && WellFormed(b)
    requires a.gridWidth == b.gridWidth && a.gridHeight == b.gridHeight
    requires forall x, y :: LayerGet(a, x, y) == LayerGet(b, x, y)
    ensures a == b
  {
    forall y | 0 <= y < |a.grid|
      ensures a.grid[y] == b.grid[y]
    {
      forall x | 0 <= x < |a.grid[y]|
        ensures a.grid[y][x] == b.grid[y][x]
      {
        assert LayerGet(a, x, y) == LayerGet(b, x, y);
      }
    }
  }

  /** Saving a model and loading the save into a model of the same grid size
      restores both layers cell for cell. */
  lemma {:induction false} SaveRoundTrip(m: Model, target: Model)
    requires Valid(m) && Valid(target)
    requires target.gridWidth == m.gridWidth && target.gridHeight == m.gridHeight
    ensures var d := ToDict(m);
      var r := FromDict(target, SaveData(Some(d.foodTrail), Some(d.homeTrail)));
      r.food == m.food && r.home == m.home
  {
    var d := ToDict(m);
    var r := FromDict(target, SaveData(Some(d.foodTrail), Some(d.homeTrail)));
    forall x, y ensures LayerGet(r.food, x, y) == LayerGet(m.food, x, y) {
      if InGrid(m.food, x, y) {
        assert y < |d.foodTrail| && x < |d.foodTrail[y]|;
      }
    }
    forall x, y ensures LayerGet(r.home, x, y) == LayerGet(m.home, x, y) {
      if InGrid(m.home, x, y) {
        assert y < |d.homeTrail| && x < |d.homeTrail[y]|;
      }
    }
    LayerExt(r.food, m.food);
    LayerExt(r.home, m.home);
  }

  /** Reading after a deposit: the deposited cell is capped, every other cell
      and the other layer read as before. */
  lemma DepositThenGet(m: Model, x: real, y: real, amount: real, ptype: PheromoneType, qx: real, qy: real, qtype: PheromoneType)
    requires Valid(m) && m.gridWidth >= 1 && m.gridHeight >= 1
    ensures var r := Deposit(m, x, y, amount, ptype);
      GetStrength(r, qx, qy, qtype) ==
        if qtype == ptype && ToGrid(m, qx, qy) == ToGrid(m, x, y)
        then Min(MaxPheromone, GetStrength(m, qx, qy, qtype) + amount)
        else GetStrength(m, qx, qy, qtype)
  {
  }

  /** The operations a frame sequence applies to the model. */
  datatype Op = DepositOp(x: real, y: real, amount: real, ptype: PheromoneType) | UpdateOp | ClearOp

  function Apply(m: Model, op: Op): (r: Model)
    requires Valid(m)
    ensures Valid(r)
  {
    match op
    case DepositOp(x, y, amount, ptype) => Deposit(m, x, y, amount, ptype)
    case UpdateOp => Update(m)
    case ClearOp => Clear(m)
  }

  function Run(m: Model, ops: seq<Op>): (r: Model)
    requires Valid(m)
    ensures Valid(r)
    decreases |ops|
  {
    if |ops| == 0 then m else Run(Apply(m, ops[0]), ops[1..])
  }

  predicate NonNegativeDeposits(ops: seq<Op>)
  {
    forall i :: 0 <= i < |ops| ==> ops[i].DepositOp? ==> ops[i].amount >= 0.0
  }

  lemma LayerDepositBounded(l: Layer, gx: int, gy: int, amount: real)
    requires WellFormed(l) && LayerBounded(l) && amount >= 0.0
    ensures LayerBounded(LayerDeposit(l, gx, gy, amount, MaxPheromone))
  {
    var r := LayerDeposit(l, gx, gy, amount, MaxPheromone);
    forall y, x | 0 <= y < |r.grid| && 0 <= x < |r.grid[y]|
      ensures 0.0 <= r.grid[y][x] <= MaxPheromone
    {
      assert LayerGet(r, x, y) == r.grid[y][x];
    }
  }

  lemma LayerEvaporateBounded(l: Layer)
    requires WellFormed(l) && LayerBounded(l)
    ensures LayerBounded(LayerEvaporate(l, EvaporationRate))
  {
    var r := LayerEvaporate(l, EvaporationRate);
    forall y, x | 0 <= y < |r.grid| && 0 <= x < |r.grid[y]|
      ensures 0.0 <= r.grid[y][x] <= MaxPheromone
    {
      assert LayerGet(r, x, y) == r.grid[y][x];
      assert LayerGet(l, x, y) == l.grid[y][x];
    }
  }

  lemma ClearedBounded(l: Layer)
    requires WellFormed(l)
    ensures LayerBounded(LayerClear(l))
  {
  }

  /** One operation keeps every cell in `[0, 200]` when deposits are non-negative. */
  lemma ApplyBounded(m: Model, op: Op)
    requires Valid(m) && Bounded(m)
    requires op.DepositOp? ==> op.amount >= 0.0
    ensures Bounded(Apply(m, op))
  {
    match op
    case DepositOp(x, y, amount, ptype) =>
      var (gx, gy) := ToGrid(m, x, y);
      LayerDepositBounded(m.food, gx, gy, amount);
      LayerDepositBounded(m.home, gx, gy, amount);
    case UpdateOp =>
      LayerEvaporateBounded(m.food);
      LayerEvaporateBounded(m.home);
    case ClearOp =>
  }

  /** Any sequence of non-negative deposits, updates and clears keeps every
      cell of both layers in `[0, 200]`. */
  lemma {:induction false} RunBounded(m: Model, ops: seq<Op>)
    requires Valid(m) && Bounded(m) && NonNegativeDeposits(ops)
    ensures Bounded(Run(m, ops))
    decreases |ops|
  {
    if |ops| > 0 {
      ApplyBounded(m, ops[0]);
      assert NonNegativeDeposits(ops[1..]) by {
        forall i | 0 <= i < |ops[1..]| ensures ops[1..][i].DepositOp? ==> ops[1..][i].amount >= 0.0 {
          assert ops[1..][i] == ops[i + 1];
        }
      }
      RunBounded(Apply(m, ops[0]), ops[1..]);
    }
  }

  /** Without deposits, an update never raises a cell of a bounded model. */
  lemma UpdateNeverIncreases(m: Model, x: int, y: int)
    requires Valid(m) && Bounded(m)
    ensures LayerGet(Update(m).food, x, y) <= LayerGet(m.food, x, y)
    ensures LayerGet(Update(m).home, x, y) <= LayerGet(m.home, x, y)
  {
    if InGrid(m.food, x, y) {
      assert 0.0 <= m.food.grid[y][x];
      assert 0.0 <= m.home.grid[y][x];
    }
  }
}
