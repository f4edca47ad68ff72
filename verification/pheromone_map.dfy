/** The older single-class pheromone map of `src/pheromone.py`, and its first
    version `pheromone.py`: a foraging grid and a returning grid, addressed by
    ant state, with a wrapping eight-neighbour scan. The two versions differ
    only in three constants, gathered in `Config`. The grids reuse the layer
    of the pheromone model. */
module PheromoneMap {
  import opened Common
  import opened Selection
  import opened PheromoneModel

  /** Evaporation factor, strength cap and the strength the best neighbour
      must exceed before the scan reports a direction. */
  datatype Config = Config(evaporationRate: real, maxPheromone: real, threshold: real)

  /** `src/pheromone.py`. */
  const Current: Config := Config(0.999, 200.0, 15.0)
  /** `pheromone.py`. */
  const Legacy: Config := Config(0.98, 100.0, 10.0)

  predicate LawfulConfig(c: Config)
  {
    0.0 <= c.evaporationRate <= 1.0 && 0.0 <= c.maxPheromone && 0.0 < c.threshold
  }

  datatype Map = Map(cellSize: int, gridWidth: int, gridHeight: int,
                     foraging: Layer, returning: Layer, config: Config)

  /** The map operations index the grids directly, so Python raises unless
      both grid dimensions are at least one; the model asks for that. */
  predicate Valid(p: Map)
  {
    && p.cellSize > 0 && p.gridWidth >= 1 && p.gridHeight >= 1
    && WellFormed(p.foraging) && p.foraging.gridWidth == p.gridWidth && p.foraging.gridHeight == p.gridHeight
    && WellFormed(p.returning) && p.returning.gridWidth == p.gridWidth && p.returning.gridHeight == p.gridHeight
  }

  ghost predicate Bounded(p: Map)
    requires Valid(p)
  {
    && (forall x, y :: 0.0 <= LayerGet(p.foraging, x, y) <= p.config.maxPheromone)
    && (forall x, y :: 0.0 <= LayerGet(p.returning, x, y) <= p.config.maxPheromone)
  }

  /** `__init__`: two zero grids of `width // cell_size` by `height // cell_size`. */
  function NewMap(width: int, height: int, cellSize: int, config: Config): (p: Map)
    requires cellSize > 0 && width >= cellSize && height >= cellSize
    requires config.maxPheromone >= 0.0
    ensures Valid(p) && Bounded(p)
    ensures p.gridWidth == width / cellSize && p.gridHeight == height / cellSize
    ensures p.cellSize == cellSize && p.config == config
    ensures forall x, y :: LayerGet(p.foraging, x, y) == 0.0 && LayerGet(p.returning, x, y) == 0.0
  {
    var gw := width / cellSize;
    var gh := height / cellSize;
    Map(cellSize, gw, gh, NewLayer(gw, gh), NewLayer(gw, gh), config)
  }

  /** The clamped grid cell under a world position. */
  function ClampedCell(p: Map, x: real, y: real): (r: (int, int))
    requires Valid(p)
    ensures 0 <= r.0 < p.gridWidth && 0 <= r.1 < p.gridHeight
    ensures 0 <= FloorDiv(x, p.cellSize) < p.gridWidth ==> r.0 == FloorDiv(x, p.cellSize)
    ensures 0 <= FloorDiv(y, p.cellSize) < p.gridHeight ==> r.1 == FloorDiv(y, p.cellSize)
  {
    (ClampInt(FloorDiv(x, p.cellSize), 0, p.gridWidth - 1),
     ClampInt(FloorDiv(y, p.cellSize), 0, p.gridHeight - 1))
  }

  /** `deposit_pheromone`: a capped deposit into the clamped cell of the
      grid for the ant's state; an idle ant deposits nothing. */
  function DepositPheromone(p: Map, x: real, y: real, strength: real, state: AntState): (r: Map)
    requires Valid(p)
    ensures Valid(r) && r.config == p.config
    ensures state == Idle ==> r == p
    ensures state != Returning ==> r.returning == p.returning
    ensures state != Foraging ==> r.foraging == p.foraging
    ensures var (gx, gy) := ClampedCell(p, x, y);
      var before := if state == Foraging then p.foraging else p.returning;
      var after := if state == Foraging then r.foraging else r.returning;
      state != Idle ==>
        && LayerGet(after, gx, gy) == Min(p.config.maxPheromone, LayerGet(before, gx, gy) + strength)
        && forall qx, qy :: (qx, qy) != (gx, gy) ==> LayerGet(after, qx, qy) == LayerGet(before, qx, qy)
  {
    var (gx, gy) := ClampedCell(p, x, y);
    match state
    case Foraging => p.(foraging := LayerDeposit(p.foraging, gx, gy, strength, p.config.maxPheromone))
    case Returning => p.(returning := LayerDeposit(p.returning, gx, gy, strength, p.config.maxPheromone))
    case Idle => p
  }

  /** The grid read for a state: foraging for FORAGING, returning otherwise. */
  function GridFor(p: Map, state: AntState): Layer
  {
    if state == Foraging then p.foraging else p.returning
  }

  /** The strength of wrapped neighbour `k` of cell `(gx, gy)`. */
  function WrappedNeighbour(p: Map, l: Layer, gx: int, gy: int, k: nat): real
    requires Valid(p) && WellFormed(l) && l.gridWidth == p.gridWidth && l.gridHeight == p.gridHeight
    requires k < |Neighbours|
  {
    LayerGet(l, (gx + Neighbours[k].0) % p.gridWidth, (gy + Neighbours[k].1) % p.gridHeight)
  }

  function NeighbourStrengths(p: Map, state: AntState, gx: int, gy: int): (s: seq<real>)
    requires Valid(p)
    ensures |s| == |Neighbours|
    ensures forall k :: 0 <= k < |s| ==> s[k] == WrappedNeighbour(p, GridFor(p, state), gx, gy, k)
  {
    seq(|Neighbours|, k requires 0 <= k < |Neighbours| => WrappedNeighbour(p, GridFor(p, state), gx, gy, k))
  }

  /** The wrapped neighbour offsets always address a cell of the grid. */
  lemma WrappedInGrid(p: Map, gx: int, gy: int, k: nat)
    requires Valid(p) && k < |Neighbours|
    ensures InGrid(p.foraging, (gx + Neighbours[k].0) % p.gridWidth, (gy + Neighbours[k].1) % p.gridHeight)
  {
  }

  /** `get_pheromone_direction`: the heading of the first strongest wrapped
      neighbour, reported only when its strength exceeds the threshold. */
  function PheromoneDirection(p: Map, x: real, y: real, state: AntState): (r: Option<real>)
    requires Valid(p) && p.config.threshold >= 0.0
    ensures var (gx, gy) := ClampedCell(p, x, y);
      var s := NeighbourStrengths(p, state, gx, gy);
      && (r.Some? <==> exists k :: 0 <= k < |s| && s[k] > p.config.threshold)
      && (r.Some? ==> exists k ::
            && IsFirstMaxAbove(s, 0.0, k)
            && s[k] > p.config.threshold
            && r.value == OffsetAngle(Neighbours[k].0, Neighbours[k].1))
  {
    var (gx, gy) := ClampedCell(p, x, y);
    var s := NeighbourStrengths(p, state, gx, gy);
    match FirstMax(s, 0.0)
    case None => None
    case Some(k) =>
      if s[k] > p.config.threshold then Some(OffsetAngle(Neighbours[k].0, Neighbours[k].1)) else None
  }

  /** `get_pheromone_value`: the unclamped floor cell wrapped modulo the grid
      size; every state but FORAGING reads the returning grid. */
  function PheromoneValue(p: Map, x: real, y: real, state: AntState): (r: real)
    requires Valid(p)
    ensures var gx := FloorDiv(x, p.cellSize) % p.gridWidth;
      var gy := FloorDiv(y, p.cellSize) % p.gridHeight;
      && InGrid(p.foraging, gx, gy)
      && r == (if state == Foraging then p.foraging.grid[gy][gx] else p.returning.grid[gy][gx])
  {
    LayerGet(GridFor(p, state), FloorDiv(x, p.cellSize) % p.gridWidth, FloorDiv(y, p.cellSize) % p.gridHeight)
  }

  /** `update`: both grids evaporate at the configured rate. */
  function Update(p: Map): (r: Map)
    requires Valid(p)
    ensures Valid(r) && r.config == p.config
    ensures forall x, y :: LayerGet(r.foraging, x, y) == LayerGet(p.foraging, x, y) * p.config.evaporationRate
    ensures forall x, y :: LayerGet(r.returning, x, y) == LayerGet(p.returning, x, y) * p.config.evaporationRate
  {
    p.(foraging := LayerEvaporate(p.foraging, p.config.evaporationRate),
       returning := LayerEvaporate(p.returning, p.config.evaporationRate))
  }

  lemma ScaleDown(c: real, rate: real)
    requires 0.0 <= c && 0.0 <= rate <= 1.0
    ensures 0.0 <= c * rate <= c
  {
    if c > 0.0 {
      MulMonotone(rate, 1.0, c);
      assert rate * c == c * rate;
    }
  }

  /** Under a lawful configuration, a non-negative deposit keeps every cell in
      `[0, maxPheromone]`. */
  lemma DepositBounded(p: Map, x: real, y: real, strength: real, state: AntState)
    requires Valid(p) && Bounded(p) && strength >= 0.0
    ensures Bounded(DepositPheromone(p, x, y, strength, state))
  {
  }

  /** An update keeps every cell in `[0, maxPheromone]` and raises none. */
  lemma UpdateBounded(p: Map)
    requires Valid(p) && Bounded(p) && LawfulConfig(p.config)
    ensures Bounded(Update(p))
    ensures forall x, y :: LayerGet(Update(p).foraging, x, y) <= LayerGet(p.foraging, x, y)
    ensures forall x, y :: LayerGet(Update(p).returning, x, y) <= LayerGet(p.returning, x, y)
  {
    forall x, y
      ensures 0.0 <= LayerGet(Update(p).foraging, x, y) <= LayerGet(p.foraging, x, y)
      ensures 0.0 <= LayerGet(Update(p).returning, x, y) <= LayerGet(p.returning, x, y)
    {
      UpdateCell(p, x, y);
    }
  }

  /** One cell of `UpdateBounded`. */
  lemma UpdateCell(p: Map, x: int, y: int)
    requires Valid(p) && LawfulConfig(p.config)
    requires 0.0 <= LayerGet(p.foraging, x, y) && 0.0 <= LayerGet(p.returning, x, y)
    ensures 0.0 <= LayerGet(Update(p).foraging, x, y) <= LayerGet(p.foraging, x, y)
    ensures 0.0 <= LayerGet(Update(p).returning, x, y) <= LayerGet(p.returning, x, y)
  {
    var r := Update(p);
    var rate := p.config.evaporationRate;
    var f, h := LayerGet(p.foraging, x, y), LayerGet(p.returning, x, y);
    ScaleDown(f, rate);
    ScaleDown(h, rate);
    assert LayerGet(r.foraging, x, y) == f * rate;
    assert LayerGet(r.returning, x, y) == h * rate;
  }

  /** Both shipped configurations are lawful. */
  lemma ConfigsLawful()
    ensures LawfulConfig(Current) && LawfulConfig(Legacy)
    ensures Current.threshold == 15.0 && Legacy.threshold == 10.0
  {
  }
}
