# Ant colony simulator — a Dafny model

This project models the simulation core of an ant colony simulator. The
simulator has two generations of code: the current one under `src/` and an
older one at the top level (`ant.py`, `colony.py`, `pheromone.py`,
`walls.py`). Both are modelled, one Dafny module per source file.

- **Pheromone grids.** `PheromoneModel` covers the two-layer grid of
  `src/pheromone_model.py`: capped deposits, 0.995 evaporation, clamped
  world-to-cell mapping, the eight-neighbour trail scan with its threshold
  and backward penalty, and save/load. `PheromoneMap` covers the two
  wrapped grids of `src/pheromone.py` and `pheromone.py`. One record holds
  the constants that differ: the cap, the decay and the threshold.
- **Maze and walls.** `Maze` covers `MazeGenerator` of `src/walls.py`:
  - the recursive-backtracking carve, with its stack as an explicit path;
  - the colony and border clearing, and the extra passages;
  - the greedy merge of wall cells into disjoint rectangles.

  `Walls` covers `Wall` and `WallManager`: closest point, collision, push-out
  and the avoidance turn. `WallsLegacy` covers the repel vectors and the
  avoid-position logic of `walls.py`.
- **Neural network and evolution.** `NeuralNet` covers the flat 499-weight
  layout of `src/neural_net.py`, mutation, crossover, copies, save/load,
  the output ranges of `forward` and `AntBrain.decide`. `Evolution`
  covers `ColonyBrain` of `src/colony_brain.py`:
  - brain creation from the elites;
  - the bounded, sorted elite pool;
  - the per-frame metrics with their bounded histories;
  - diversity, generation averaging, and save/load.
- **Vision.** `Vision` covers the seven-ray layout of `src/vision.py`, the
  wall march with its bisection, the nearest ant and food hits, and the
  neural input vector.
- **Ants.** `Ants` covers `src/ant.py`: stuck detection, energy, pickup and
  drop-off, the IDLE/FORAGING/RETURNING transitions, deposits, wall death
  and the bounds clamp. `AntsLegacy` covers `ant.py`.
- **Genes and colonies.** `Genetics` covers `src/genetics.py`.
  `ColonySim` and `ColonyLegacy` cover the food and population economy of
  `src/colony.py` and `colony.py`: the ant loop, dead-ant removal,
  starvation, spawning, and food sources. `Removal` states once what
  "collect indices, then pop them in reverse" means for both colonies.

How the model represents the source:

- Floating-point values are Dafny `real`s. Python's `int()`, `//`, float
  `%` and `min`/`max` tie-breaking are written out in `Common`.
- `sqrt`, `atan2`, `cos`, `sin`, `tanh` and `sigmoid` are fields of a
  `Maths` record, passed in as a parameter. Only the laws a proof needs are
  assumed as preconditions: `SqrtLaw` (a non-negative root, with
  `sqrt(0) = 0`), `AtanLaw` (`atan2` within `[-pi, pi]`), `TrigLaw` and
  `ActivationLaw`.
- Every `random` call becomes an explicit draw passed in by the caller: a
  record of draws, or a function from an index to a draw.
- Each mutation that happens in place becomes a function from the old value
  to the new one. Where an operation also returns something, it returns a
  record holding both.

## Model

| member | source | states |
|---|---|---|
| PheromoneModel.LayerGet | src/pheromone_model.py:33-37 | a non-zero reading comes only from a cell inside the grid, and a layer whose cells lie in `[0, 200]` reads within `[0, 200]` everywhere |
| PheromoneModel.NewLayer | src/pheromone_model.py:23-26 | a new layer has the requested size and every cell is 0.0 |
| PheromoneModel.LayerDeposit | src/pheromone_model.py:28-31 | an in-grid deposit sets that cell to `min(max_value, old + amount)` and leaves every other cell unchanged; off the grid it changes nothing |
| PheromoneModel.LayerEvaporate | src/pheromone_model.py:39-43 | every cell, as read through `get`, is multiplied by the rate |
| PheromoneModel.LayerClear | src/pheromone_model.py:45-49 | every cell reads 0.0 afterwards and the size is kept |
| PheromoneModel.NewModel | src/pheromone_model.py:64-78 | the grid is `width // cell_size` by `height // cell_size`, the window size and cell size are kept, every cell of both layers reads 0.0, and the model is valid and bounded |
| PheromoneModel.ToGrid | src/pheromone_model.py:87-93 | the cell always lies in the grid (when it has a cell), and is the floor cell of the position whenever that cell is in the grid |
| PheromoneModel.GetStrength | src/pheromone_model.py:126-129 | the strength at a world position whose floor cell is in the grid is that cell of the chosen layer; in a bounded model every strength lies in `[0, 200]` |
| PheromoneModel.Deposit | src/pheromone_model.py:95-114 | a food-trail deposit leaves the home layer unchanged and every other type leaves the food layer unchanged; validity is kept |
| PheromoneModel.DepositThenGet | src/pheromone_model.py:103-129 | reading after a deposit gives the capped sum at the deposited cell of the deposited layer and the old value everywhere else |
| PheromoneModel.EffectivePositive | src/pheromone_model.py:155-175 | a neighbour's compared strength is positive exactly when its raw strength reaches the threshold 10, and is then at least 0.3 of the raw strength (the penalty for a cell behind the heading) |
| PheromoneModel.TrailChoice | src/pheromone_model.py:131-177 | no direction exactly when no neighbour reaches the threshold; otherwise the chosen neighbour is the first strict maximum of the compared strengths in the fixed eight-direction order |
| PheromoneModel.TrailDirection | src/pheromone_model.py:131-177 | `None` exactly when no neighbour is detected; otherwise the heading of a detected neighbour |
| PheromoneModel.Update | src/pheromone_model.py:189-192 | both layers are multiplied cell by cell by 0.995 |
| PheromoneModel.UpdateNeverIncreases | src/pheromone_model.py:189-192 | without deposits, an update never raises a cell |
| PheromoneModel.Clear | src/pheromone_model.py:194-199 | every cell of both layers reads 0.0 |
| PheromoneModel.ToDict | src/pheromone_model.py:242-249 | both trails are saved as one row per grid row, each row as wide as the grid, holding exactly that layer's cells |
| PheromoneModel.FromDict | src/pheromone_model.py:251-262 | only the two layers can change; a missing key leaves its layer alone; present rows are laid over the layer, overwriting only the cells inside the grid and keeping the rest |
| PheromoneModel.SaveRoundTrip | src/pheromone_model.py:242-262 | loading a save into a model of the same grid size restores both layers cell for cell |
| PheromoneModel.LayerDepositBounded | src/pheromone_model.py:28-31 | a non-negative deposit capped at 200 keeps every cell in `[0, 200]` |
| PheromoneModel.LayerEvaporateBounded | src/pheromone_model.py:39-43 | evaporation at 0.995 keeps every cell in `[0, 200]` |
| PheromoneModel.ClearedBounded | src/pheromone_model.py:45-49 | a cleared layer is within `[0, 200]` |
| PheromoneModel.ApplyBounded | src/pheromone_model.py:103-199 | one non-negative deposit, update or clear keeps the model bounded |
| PheromoneModel.RunBounded | src/pheromone_model.py:103-199 | any sequence of non-negative deposits, updates and clears keeps every cell in `[0, 200]` |
| PheromoneMap.NewMap | src/pheromone.py:10-22 | both grids are `width // cell_size` by `height // cell_size`, the cell size and configuration are kept, and every cell of both grids reads 0.0 |
| PheromoneMap.ClampedCell | src/pheromone.py:26-31 | the clamped cell is always in the grid, and is the floor cell whenever that one is in the grid |
| PheromoneMap.DepositPheromone | src/pheromone.py:24-42 | FORAGING deposits into the foraging grid and RETURNING into the returning grid, the clamped cell becomes `min(cap, old + strength)` and every other cell is unchanged; an IDLE ant deposits nothing |
| PheromoneMap.WrappedInGrid | src/pheromone.py:64-69 | every wrapped neighbour index lies in the grid |
| PheromoneMap.PheromoneDirection | src/pheromone.py:44-81 | a direction exactly when some wrapped neighbour is stronger than the threshold (15, or 10 in `pheromone.py`); it is then the heading of the first strict maximum in the dy-major scan order |
| PheromoneMap.PheromoneValue | src/pheromone.py:83-91 | the value of the floor cell wrapped modulo the grid size, from the foraging grid for FORAGING and from the returning grid otherwise |
| PheromoneMap.Update | src/pheromone.py:93-98 | both grids are multiplied cell by cell by the evaporation rate (0.999, or 0.98 in `pheromone.py`) |
| PheromoneMap.DepositBounded | src/pheromone.py:33-42 | a non-negative deposit keeps every cell in `[0, cap]` |
| PheromoneMap.UpdateBounded | src/pheromone.py:93-98 | an update keeps every cell in `[0, cap]` and raises none |
| PheromoneMap.ConfigsLawful | pheromone.py:21-22 | both versions' constants (0.999/200/15 and 0.98/100/10) are lawful: a rate in `[0, 1]`, a non-negative cap, a positive threshold |
| Maze.AllWalls | src/walls.py:44-49 | a fresh generator grid has the requested shape and every cell is a wall |
| Maze.SetCell | src/walls.py:66-67 | writing one cell changes that cell only and keeps the grid's shape |
| Maze.CarveShrinks | src/walls.py:66-67 | opening an in-grid cell removes exactly that cell from the set of wall cells |
| Maze.UnvisitedNeighbours | src/walls.py:72-82 | every returned cell is an interior wall cell two steps away, and every such cell is returned (both directions) |
| Maze.Carve | src/walls.py:63-68 | a push opens the cell between the top and the chosen neighbour and the neighbour itself, the midpoint is interior, and nothing else changes |
| Maze.CarveShrinksWalls | src/walls.py:56-70 | every push strictly lowers the number of wall cells, which is why the carving loop ends |
| Maze.RootedPath | src/walls.py:51-70 | following the parent links of the spanning-tree certificate from any passage cell gives a passage path back to the start |
| Maze.CarveRooted | src/walls.py:63-68 | a push extends the spanning-tree certificate to the two newly opened cells |
| Maze.StartKeeps | src/walls.py:53-54 | after the start cell is carved the loop invariants hold: the stack is the start, the only passage is the start |
| Maze.CarveKeeps | src/walls.py:57-68 | a push keeps every stack entry a passage, only opens cells, and leaves the border untouched |
| Maze.PopKeeps | src/walls.py:69-70 | popping the stack keeps the loop invariants |
| Maze.Generate | src/walls.py:51-70 | the start is open, cells only ever open, the border keeps its value, and on an all-wall grid every passage is reachable from the start by a passage path |
| Maze.ClearRangeExact | src/walls.py:98-101 | the loop ranges of `clear_area` cut off exactly the outer ring: a cell within the radius is visited if and only if it is interior |
| Maze.ClearArea | src/walls.py:96-102 | a cell is a wall afterwards if and only if it was one and is not an interior cell within the radius of the centre |
| Maze.OpenSpot | src/walls.py:87-94 | the drawn cell becomes a passage; when the coin is below 0.5 its interior 4-neighbours do too; every other cell keeps its value |
| Maze.AddExtraPassages | src/walls.py:84-94 | extra passages keep the grid's shape, only open cells, never touch the outer ring, and every drawn cell ends up a passage inside the grid |
| Maze.CoveredContains | src/walls.py:104-142 | every rectangle's cells are covered by the list it belongs to |
| Maze.BlockWidth | src/walls.py:114-117 | the width is at least 1, fits in the grid, and the top row of the block consists of unvisited wall cells |
| Maze.BlockHeight | src/walls.py:119-128 | the height is at least 1, fits in the grid, and every row of the block consists of unvisited wall cells |
| Maze.BlockIsFree | src/walls.py:113-133 | the block found lies on unvisited wall cells and contains its own top-left cell |
| Maze.AddBlock | src/walls.py:130-140 | adding the block and marking its cells visited keeps the merge invariant (disjoint blocks covering exactly the wall cells scanned so far) |
| Maze.MergeWalls | src/walls.py:108-142 | the blocks are non-empty, inside the grid, pairwise disjoint, and together cover exactly the wall cells |
| Maze.ToWalls | src/walls.py:104-142 | the grid blocks are disjoint, non-empty and cover exactly the wall cells; each pixel wall is its block scaled by the cell size and shifted by the offset |
| Walls.ClosestPoint | src/walls.py:29-33 | the closest point lies on the (closed) wall rectangle |
| Walls.ClosestIsClosest | src/walls.py:29-33 | no point of the rectangle is nearer, coordinate by coordinate, than the closest point, and the closest point is the query point itself if and only if the query point is inside the wall |
| Walls.Offset | src/walls.py:21-27 | the offset whose length `distance_to` returns is zero if and only if the point is inside the wall |
| Walls.DistanceToClosest | src/walls.py:21-27 | with a lawful square root, the distance is the non-negative length of the offset from the closest point, and it is 0 exactly when the point is inside the wall |
| Walls.InsideByOffset | src/walls.py:21-38 | a point is inside the wall grown by a non-negative margin exactly when it lies within that margin of the closest point along each axis |
| Walls.InsideMonotone | src/walls.py:35-38 | growing the margin of `is_point_inside` never loses a point |
| Walls.FirstInside | src/walls.py:283-285 | the scan returns the first wall containing the point, and returns nothing exactly when no wall contains it |
| Walls.IsColliding | src/walls.py:281-286 | the flag is set if and only if a wall is returned, if and only if some wall contains the point grown by the radius; the returned wall is the first such |
| Walls.PushOutOfWall | src/walls.py:288-309 | a point inside no wall is returned unchanged; otherwise it is moved across the nearest edge of the first wall containing it to `radius + 1` beyond it, ties going left, right, top, bottom |
| Walls.PushOutLeaves | src/walls.py:288-309 | after a push with a non-negative radius the point is outside the wall it was in and exactly one coordinate changed |
| Walls.DistancesMeaning | src/walls.py:211-213 | with a lawful square root, every wall's distance is non-negative and is 0 exactly when the point is inside that wall |
| Walls.NearestWallInfo | src/walls.py:203-224 | nothing is found if and only if every wall is at least the look range away; otherwise the wall is the first of least distance below the range, with its distance and the angle towards its closest point |
| Walls.Urgency | src/walls.py:248-249 | the urgency of a wall inside the look range lies in [0, 1] |
| Walls.AvoidanceDirection | src/walls.py:226-258 | the ant turns if and only if a wall is in range and the wrapped angle towards it is within 0.6 pi; the turn lies in [-0.5, 0.5], is zero when not turning, and is away from the side the wall lies on |
| Walls.MakeOdd | src/walls.py:162-166 | the grid size becomes odd, by lowering an even size by one |
| Walls.OddHalf | src/walls.py:172-177 | the start column or row is odd and strictly inside the grid |
| Walls.CreateWalls | src/walls.py:155-201 | the grid is odd by odd, its two outer rings are passages, and the wall rectangles are disjoint, non-empty and cover exactly its wall cells at 60 pixels per cell |
| Walls.BlocksAvoidPerimeter | src/walls.py:188-201 | every cell of a merged wall block lies off the cleared two-cell perimeter |
| WallsLegacy.RepelZero | walls.py:20-49 | a point inside the wall, or farther than the repel range, is not pushed at all |
| WallsLegacy.RepelMagnitude | walls.py:20-49 | outside the wall and within range, the push points along the offset from the wall's closest point, scaled so that its length is `(1 - d / range) * 3` for the distance `d` |
| WallsLegacy.RepelComponentsBounded | walls.py:20-49 | one wall pushes by strictly less than the repel strength 3 along either axis |
| WallsLegacy.TotalRepelAppend | walls.py:114-124 | the combined push over two lists of walls is the component-wise sum of the two pushes |
| WallsLegacy.TotalRepelFar | walls.py:114-124 | a point that every wall leaves unpushed, being inside it or beyond the range, gets no combined push |
| WallsLegacy.TotalRepelBounded | walls.py:114-124 | the combined push of `n` walls is at most `3 n` along either axis |
| WallsLegacy.FirstOpen | walls.py:128-133 | the scan returns the first wall whose open rectangle, grown by the radius, contains the point, and nothing exactly when there is none |
| WallsLegacy.Colliding | walls.py:126-133 | the flag is set if and only if a wall is returned, if and only if some grown open rectangle contains the point |
| WallsLegacy.OpenWithinClosed | walls.py:130-131 | the strict test lies between the closed test of the newer wall system with the same margin and with any smaller margin |
| WallsLegacy.AvoidPosition | walls.py:135-161 | a free new position is kept; each coordinate is either the old or the new one; the result is free of walls unless it is the old position |
| WallsLegacy.AvoidKeepsClear | walls.py:135-161 | an ant that starts clear of every wall is still clear after the move |
| WallsLegacy.Follow | walls.py:135-161 | along any sequence of proposed moves, an ant that starts clear of every wall never enters one |
| WallsLegacy.CreateWalls | walls.py:62-112 | there are six obstacles, each of positive width and height |
| WallsLegacy.WallsInsideArea | walls.py:62-112 | in an area of at least 900 by 620 pixels every obstacle lies inside the area |
| NeuralNet.Layout | src/neural_net.py:66-79 | 27 inputs (21 vision values and 6 senses), and the blocks of the 499-entry weight vector start at 0, 432, 480 and 496 |
| NeuralNet.UnpackOf | src/neural_net.py:95-122 | entry `(i, j)` of the input-to-hidden matrix is weight `16 i + j`, entry `(i, k)` of the hidden-to-output matrix is weight `432 + 3 i + k`, and the biases are the next slices, cut short when the list is short |
| NeuralNet.UnpackWeights | src/neural_net.py:95-122 | the nested loops with a running index read row `i` of each matrix from the slice starting at its row width times `i` past the block start, and the biases from the slices after the matrices |
| NeuralNet.UnpackAgrees | src/neural_net.py:95-122 | what the loops build is exactly the slice-based reading |
| NeuralNet.FlattenRows | src/neural_net.py:101-106 | the rows read from a block, laid end to end, give back the block |
| NeuralNet.PackUnpack | src/neural_net.py:95-122 | unpacking a full 499-entry vector uses every entry once, in order: packing the matrices again gives the vector back |
| NeuralNet.UnpackPack | src/neural_net.py:95-122 | conversely, correctly shaped matrices and biases survive packing and unpacking |
| NeuralNet.Construct | src/neural_net.py:71-88 | the constructor succeeds if and only if the weight list is long enough to unpack, and keeps the list as given |
| NeuralNet.Fresh | src/neural_net.py:81-83 | a parentless network has one weight per draw, 499 in all, and is well formed |
| NeuralNet.Forward | src/neural_net.py:124-163 | a forward pass succeeds if and only if there are at least 27 inputs and 499 weights; with lawful activations the turn lies in [-1, 1], the speed in [0.5, 1.5] and the exploration in [0, 1] |
| NeuralNet.Mutate | src/neural_net.py:165-182 | the child has as many weights as the parent; a weight changes only when its draw is below the rate, and then only by its noise |
| NeuralNet.MutateZeroRate | src/neural_net.py:176-181 | with rate 0 no uniform draw is below the rate, so mutation changes nothing |
| NeuralNet.MutateMoves | src/neural_net.py:178-179 | a draw below the rate with non-zero noise really moves that weight |
| NeuralNet.Crossover | src/neural_net.py:184-200 | the child is as long as the shorter parent and takes each weight from the first parent when its draw is below 0.5, else from the second |
| NeuralNet.CrossoverFromParents | src/neural_net.py:195-199 | every child weight is one of the two parents' weights at that index |
| NeuralNet.CrossoverSelf | src/neural_net.py:184-200 | crossing a network with itself reproduces it |
| NeuralNet.ToDict | src/neural_net.py:216-219 | the dictionary has the single key `weights`, and loading it back gives a well-formed network unchanged |
| NeuralNet.FromDict | src/neural_net.py:220-223 | a dictionary loads exactly when it has `weights` and that list is long enough to unpack, and the loaded network holds exactly that list |
| NeuralNet.LoadSaveRoundTrip | src/neural_net.py:216-223 | loading a dictionary and saving the network again gives back exactly its `weights` entry |
| NeuralNet.SaveRoundTrip | src/neural_net.py:212-223 | saving then loading a well-formed network gives it back, and so does copying |
| NeuralNet.SeqMin | src/neural_net.py:206 | the minimum is one of the weights and at most every weight |
| NeuralNet.SeqMax | src/neural_net.py:207 | the maximum is one of the weights and at least every weight |
| NeuralNet.MeanBetween | src/neural_net.py:205 | the mean of values all between two bounds lies between them |
| NeuralNet.VarianceNonNegative | src/neural_net.py:208-209 | the mean squared deviation is never negative |
| NeuralNet.GetWeightStats | src/neural_net.py:202-210 | the statistics exist if and only if there is a weight; then min <= mean <= max, min and max are weights, and with a lawful square root the deviation is non-negative |
| NeuralNet.NewBrain | src/neural_net.py:232-235 | a new brain holds the given network with zero fitness and no decisions |
| NeuralNet.AddFitness | src/neural_net.py:288-290 | the fitness grows by exactly the amount and nothing else changes |
| NeuralNet.BrainMutate | src/neural_net.py:300-302 | the mutated brain wraps the mutated network and starts from zero fitness and no decisions |
| NeuralNet.BrainCrossover | src/neural_net.py:304-306 | the child brain wraps the crossed network and starts from zero fitness and no decisions |
| NeuralNet.BrainCopy | src/neural_net.py:308-310 | the copied brain has the same weights but zero fitness and no decisions |
| NeuralNet.DecideInputs | src/neural_net.py:265-276 | the vision values come first, unchanged; the six senses follow, each equal to its ratio below 1 and exactly 1 at or above it, the colony direction divided by pi (so in [-1, 1] for an angle in [-pi, pi]), and the carrying flag as 0 or 1 |
| NeuralNet.Decide | src/neural_net.py:237-286 | a decision exists if and only if the forward pass can run, and then exactly one more decision is counted; the decision is the forward pass's turn output times pi/2, its speed output and its exploration output, over the inputs `DecideInputs` builds; with lawful activations the turn lies in [-pi/2, pi/2], the speed in [0.5, 1.5] and the exploration in [0, 1] |
| Evolution.New | src/colony_brain.py:24-61 | a new engine has no elites, generation and totals at 0, best fitness 0, and satisfies the engine invariant (sorted pool of at most ten full networks, histories within capacity) |
| Evolution.CreateBrain | src/colony_brain.py:63-83 | without elites the brain is fresh; with one elite it is that elite mutated at rate 0.2; with more, it is a crossover of the two picked elites mutated at rate 0.15, weight by weight; it always starts with fitness 0 and no decisions |
| Evolution.CreateBrainInherits | src/colony_brain.py:76-83 | when no mutation fires at a weight, the child's weight there is one of its two parents' weights |
| Evolution.Efficiency | src/colony_brain.py:92-95 | with no time alive the efficiency is 0; otherwise the efficiency times the time alive is `(100 food + 50 trips) * 60` |
| Evolution.EfficiencyNonNegative | src/colony_brain.py:92-95 | collecting food and finishing trips never gives a negative efficiency |
| Evolution.InsertPos | src/colony_brain.py:106 | the insertion point is after every elite at least as fit as the newcomer and before the first strictly weaker one, as a stable descending sort places it |
| Evolution.Insert | src/colony_brain.py:105-106 | the pool gains exactly the newcomer (as multisets), and a descending pool stays descending |
| Evolution.InsertAround | src/colony_brain.py:105-106 | the newcomer sits at its insertion point with the other elites in their old order before and after it |
| Evolution.SortDescSorts | src/colony_brain.py:106 | the stable descending sort leaves the pool in descending order and holds exactly the same elites |
| Evolution.SortDescSorted | src/colony_brain.py:106 | sorting a pool already in descending order changes nothing |
| Evolution.Admit | src/colony_brain.py:103-110 | a pool with room gains the candidate; a full pool swaps its last elite for the candidate only when the efficiency is strictly greater, else is unchanged; a changed pool is sorted whatever order it was in, a sorted pool stays sorted, and the pool stays within ten |
| Evolution.AdmitSorted | src/colony_brain.py:103-110 | on a sorted pool, admission is one insertion after every elite at least as fit, in place of the weakest when the pool is full |
| Evolution.ReportWith | src/colony_brain.py:85-114 | the brain's fitness becomes the efficiency, the totals grow by the food and trips, the best fitness is the larger of the old best and the efficiency, the pool goes through the elite update, and nothing else changes |
| Evolution.ReportAsWritten | src/colony_brain.py:97-114 | as written, the elite update admits `brain.copy()`, whose fitness is 0, while the best fitness becomes the larger of the old best and the efficiency |
| Evolution.ReportAsWrittenLowersFloor | src/colony_brain.py:105-110 | ten elites of fitness 5 and a report with efficiency 150 leave an elite of fitness 0 at the bottom of the pool |
| Evolution.Report | src/colony_brain.py:85-114 | the brain's fitness becomes the efficiency, the totals grow by the food and trips, the best fitness becomes the larger of the old best and the efficiency, and a pool with room gains the brain stored with its efficiency |
| Evolution.Stored | src/colony_brain.py:105 | the stored elite shares the reported network, carries the efficiency and has made no decisions |
| Evolution.ReportLawful | src/colony_brain.py:85-114 | a report of a brain with a full weight vector keeps the engine invariant, both as written and corrected |
| Evolution.FullAdmit | src/colony_brain.py:103-110 | the elite update keeps every elite a full weight vector |
| Evolution.ReportRaisesFloor | src/colony_brain.py:107-110 | with the efficiency stored, the weakest fitness of a full pool never falls |
| Evolution.Push | src/colony_brain.py:40-43 | a rolling history grows by one up to its capacity of 300 and always ends with the new value |
| Evolution.PushKeepsNewest | src/colony_brain.py:160-163 | one append keeps exactly the newest 300 entries of the old history followed by the new value |
| Evolution.Diversity | src/colony_brain.py:177-195 | the diversity is 1 with fewer than two elites and always lies in [0, 1] |
| Evolution.IdenticalElitesNoDiversity | src/colony_brain.py:183-195 | two or more elites with the same weights have diversity 0 |
| Evolution.Update | src/colony_brain.py:116-175 | an empty ant list changes nothing; otherwise each history gains exactly its new value, the knowledge score is capped at 1 when there are elites, the diversity lies in [0, 1], the averages and the cooperation score move only when some ant has a brain, and the elites, generation and best fitness are untouched |
| Evolution.UpdateLawful | src/colony_brain.py:116-175 | an update keeps the engine invariant and the food history grows by one up to its capacity |
| Evolution.AverageNetwork | src/colony_brain.py:204-210 | the colony network has one weight per weight of the first elite, each the mean of the elite weights at that index (times the number of elites it gives their sum), hence between the smallest and largest of them |
| Evolution.AverageBetween | src/colony_brain.py:206-209 | every averaged weight lies between the smallest and largest elite weight at its index |
| Evolution.AverageOfIdentical | src/colony_brain.py:204-210 | identical elites average to their common weights |
| Evolution.DecayKeepsRanking | src/colony_brain.py:212-214 | decay keeps every elite's network and decisions, strictly lowers every positive fitness while keeping it positive, and keeps the order between any two elites, so a sorted pool stays sorted |
| Evolution.EvolveGeneration | src/colony_brain.py:197-214 | the generation grows by one; with elites each colony weight is the mean of the elite weights at its index, between their extremes; without elites the network is kept; every elite keeps its network and its fitness decays by 0.95 |
| Evolution.EvolveLawful | src/colony_brain.py:197-214 | a generation step keeps the engine invariant, in particular the pool stays sorted |
| Evolution.ToDict | src/colony_brain.py:278-288 | every counter is saved, and each elite in pool order with its weights and fitness, so that every elite long enough to unpack loads back as itself with no decisions counted |
| Evolution.LoadElite | src/colony_brain.py:298-301 | an elite loads if and only if its weights are present and long enough to unpack, and keeps those weights |
| Evolution.LoadElites | src/colony_brain.py:298-301 | the elites load if and only if each of them does, in order |
| Evolution.FromDict | src/colony_brain.py:290-303 | loading succeeds if and only if every saved elite loads; the counters take their saved values, 0 when absent |
| Evolution.SaveRoundTrip | src/colony_brain.py:278-303 | saving then loading restores the generation, the totals, the best fitness and every elite's weights and fitness in pool order |
| Vision.RayAnglesLayout | src/vision.py:15-21 | the seven offsets run from -pi/2 to pi/2 in equal, strictly increasing steps of pi/6 |
| Vision.NumStepsIsTwelve | src/vision.py:109-110 | the wall march takes `int(100 / 8) = 12` probes |
| Vision.FirstStep | src/vision.py:112-119 | the first hitting probe found lies within the march and really hits |
| Vision.FirstStepFrom | src/vision.py:112-119 | the scan from any step returns the first hitting step at or after it, and nothing when no later step hits |
| Vision.RaycastWalls | src/vision.py:101-134 | with no probe hit the distance is the full ray length; otherwise, for the first step `s` that hits, it lies in `[(s - 1) 8, 8 s - 0.5]`, a hit lies within 0.5 beyond it, and it is itself clear unless it is the origin |
| Vision.Bisect | src/vision.py:120-132 | started between a clear step (or the origin) and the next, hitting step, the four halvings end at most 0.5 before a hit, at a point that is clear unless it is the origin, inside that step's bracket |
| Vision.RootsOrdered | src/vision.py:174-180 | the nearer root of the ray-circle equation is never beyond the farther one |
| Vision.QuadraticRoots | src/vision.py:174-180 | with a positive leading coefficient and `s` the root of the discriminant, the roots of the quadratic are exactly `(-b - s) / 2a` and `(-b + s) / 2a` |
| Vision.SolveQuadraticRoots | src/vision.py:174-180 | with a lawful square root, the solver returns nothing only when the quadratic has no root, and otherwise two values that are exactly its roots |
| Vision.MeetsQuadratic | src/vision.py:163-172 | the point at distance `t` along the ray lies on the circle exactly when `t` is a root of the quadratic with the source's coefficients `a`, `b` and `c` |
| Vision.IntersectMeets | src/vision.py:163-180 | the ray-circle solver returns nothing only when the ray's line misses the circle, and otherwise exactly the two distances at which it meets it |
| Vision.AntCandidateNearest | src/vision.py:146-186 | an ant's candidate is absent for dead ants, the viewer and ants beyond the ray length; when present it is the nearest positive distance at which the ray meets the circle two units wider than the ant; it is present whenever such a distance exists |
| Vision.FoodCandidateNearest | src/vision.py:199-228 | a source's candidate is absent for empty sources and sources beyond the ray length; when present it is positive and the nearest distance at which the ray's line meets the source's circle; it is present when the line meets the circle only ahead of the ant |
| Vision.RaycastAnts | src/vision.py:136-188 | the result is the smallest of the ray length and every ant candidate, and is positive |
| Vision.MeetAnt | src/vision.py:146-186 | one ant replaces the running distance exactly when its candidate is positive and below it: for ordered roots, taking `t1` else `t2` equals taking the first positive root |
| Vision.RaycastFood | src/vision.py:190-230 | the result is the smallest of the ray length and every food candidate, and is positive |
| Vision.ReadingInRange | src/vision.py:83-97 | a raw distance within the ray length gives a reading in [0, 1] that is below 1 exactly when a hit is reported |
| Vision.CastSingleRay | src/vision.py:70-99 | each reading is its raw distance's fraction of the ray length when that is below the ray length, else 1 with no hit; walls are read only when a wall manager is present; every reading lies in [0, 1] and is below 1 exactly when a hit is reported |
| Vision.NewVision | src/vision.py:40-43 | a new vision has `num_rays` blank rays and the first `min(num_rays, 7)` offsets |
| Vision.CastRays | src/vision.py:45-68 | ray `i` reports what is seen at heading plus offset `i`, for every offset in use; any further rays keep their readings; the offsets are unchanged |
| Vision.NeuralInputs | src/vision.py:232-257 | all wall readings come first, then all ant readings, then all food readings, each inverted |
| Vision.NeuralInputsInRange | src/vision.py:232-257 | lawful rays give inputs in [0, 1], positive exactly where something was seen |
| Vision.FreshVisionBlank | src/vision.py:28-43 | a freshly built vision reports nothing: every input is 0 |
| Ants.NewAnt | src/ant.py:70-119 | a new ant is alive, FORAGING, at full energy and satisfies the ant invariant |
| Ants.StuckCheck | src/ant.py:127-151 | the ant dies exactly on a check (every 180th frame) that finds it moved less than 80 since the checkpoint for the fifth time running; a slow check counts one more escape, a good one resets the count and keeps the position, every surviving check resets the timer and checkpoint, and nothing else changes |
| Ants.AvoidEdges | src/ant.py:231-264 | an ant farther than 35 from every edge keeps its heading |
| Ants.AvoidOthers | src/ant.py:266-279 | with `atan2` in `[-pi, pi]`, the repulsion never takes the heading outside the range spanned by its start and `[-pi, pi]` |
| Ants.AvoidOthersFar | src/ant.py:266-279 | when no other ant is strictly between 0 and 25 away, the repulsion keeps the heading |
| Ants.AvoidOthersFarFrom | src/ant.py:270-279 | the same from any list position on |
| Ants.FirstPickup | src/ant.py:290-292 | the source found is the first non-empty one strictly within 15, and none is found exactly when there is no such source |
| Ants.SmelledFood | src/ant.py:310-322 | none is found exactly when every non-empty source is at least the smell range away; otherwise the source is non-empty, within the smell range, nearest among non-empty sources, and strictly nearer than every earlier one |
| Ants.ForageHeadingTurn | src/ant.py:310-371 | apart from its jitter, the smell branch turns by at most `pi * 0.8 * (1 - dist / 150)`; with nothing smelled the ant either follows a trail, only farther than 150 from the colony, turning by less than `pi * 0.6 * 0.25 * 0.15`, or wanders, turning by at most `pi * 0.2`, and not at all at 250 or more from the colony |
| Ants.SteerTurn | src/ant.py:328-371 | a steering step that scales a turn of at most `bound` by a non-negative factor turns by at most `bound` times that factor, strictly less for a strictly smaller turn |
| Ants.Forage | src/ant.py:281-371 | a pickup takes one unit from the first source in reach and makes the ant RETURNING with one unit and the source remembered; without a pickup the sources and everything but the heading are unchanged |
| Ants.PickupTakesOne | src/ant.py:289-297 | a pickup removes exactly one unit from the sources in total and the ant carries exactly that unit |
| Ants.ReturnHome | src/ant.py:373-405 | within 25 of the colony the ant hands over its load, counts it and one trip, refills 20 energy capped at the maximum and turns FORAGING; farther out only the heading changes |
| Ants.RefillBounded | src/ant.py:389 | the refill never lowers the energy and never lifts it above the maximum |
| Ants.Rest | src/ant.py:407-412 | an IDLE ant becomes FORAGING exactly above 80% of its maximum energy; only the state or the heading changes |
| Ants.Behave | src/ant.py:185-191 | the sources change only for a FORAGING ant and food is handed over only by a RETURNING ant |
| Ants.ClampAxisInside | src/ant.py:503-517 | the hard clamp keeps an interior coordinate, puts every coordinate strictly inside an interval wider than 2, lands only on the coordinate or an inset edge, and is idempotent on an interval wider than 4 |
| Ants.Bounce | src/ant.py:503-517 | with no live bounds nothing changes; otherwise each coordinate is clamped into the bounds |
| Ants.Step | src/ant.py:438-501 | the progress counter never becomes negative |
| Ants.Move | src/ant.py:414-517 | the wall timer counts frames inside a wall and resets outside; the ant dies exactly on its 61st frame inside, and then nothing else changes; a surviving ant ends strictly inside live bounds; only the position, headings and counters change |
| Ants.ClampBounds | src/ant.py:503-517 | after the clamp the position lies strictly inside live bounds wider and taller than 2 |
| Ants.DepositKind | src/ant.py:215-227 | the food trail is chosen exactly for a RETURNING ant carrying food, the home trail exactly for a FORAGING ant, and either only at cooldown 0 and farther than 50 from the colony |
| Ants.Deposit | src/ant.py:217-227 | with no deposit chosen nothing changes; otherwise `8 * 1.5` is deposited into the chosen layer at the ant's position and the cooldown restarts at 2 |
| Ants.Prepare | src/ant.py:170-183 | before the behaviour step only the heading changes and a positive cooldown drops by one |
| Ants.Live | src/ant.py:170-229 | a frame that passes the energy check returns True, keeps as many sources, and keeps the pheromone model well formed |
| Ants.Update | src/ant.py:121-229 | a dead ant returns False and changes nothing; the ant is kept exactly when it is alive, survives the stuck check, and the frame's 0.01 charge leaves it energy above 0; when False, the sources and pheromones are untouched and nothing is delivered |
| Ants.UpdateCharge | src/ant.py:153-168 | an ant kept without a drop-off ends the frame with exactly 0.01 less energy than it started with |
| Ants.BehaveLawful | src/ant.py:185-191 | the behaviour step keeps the ant invariant |
| Ants.LiveLawful | src/ant.py:170-229 | a live frame keeps a lawful ant lawful with positive energy |
| Ants.UpdateLawful | src/ant.py:121-229 | every frame keeps the ant invariant (energy at most the maximum, cooldown in [0, 2], RETURNING exactly while carrying one unit, food collected equal to trips, counters in range), and an ant kept alive has positive energy |
| Ants.BehaveFacts | src/ant.py:185-191 | the state changes only FORAGING to RETURNING by a pickup, RETURNING to FORAGING by a drop-off, or IDLE to FORAGING above 80% energy; the sources lose one unit only on a pickup; the load is handed over only on a drop-off |
| Ants.LiveFacts | src/ant.py:170-229 | the facts of the behaviour step hold for the whole live frame, deposits come only from the matching state, and an ant marked dead died in a wall |
| Ants.UpdateTransitions | src/ant.py:121-229 | over a whole frame the state changes only by a pickup, a drop-off that hands over exactly the load, or an IDLE ant waking above 80% of its energy after the frame's cost |
| Ants.IdleWakesIff | src/ant.py:407-412 | an IDLE ant that lives through the frame leaves IDLE exactly when its energy after the cost is above 80% of the maximum, and only for FORAGING |
| Ants.UpdateFoodConserved | src/ant.py:289-297 | the sources change only by a FORAGING ant's pickup, which removes exactly one unit and makes it RETURNING |
| Ants.UpdateDelivery | src/ant.py:380-390 | a drop-off adds the load to the ant's collected food and counts one trip; otherwise both counters stay |
| Ants.UpdateDeposits | src/ant.py:212-227 | a food-trail deposit comes only from a RETURNING ant with food, a home-trail deposit only from a FORAGING ant, and either restarts the cooldown at 2 |
| Ants.WallDeathTakesOneFrame | src/ant.py:427-432 | an ant that `update` keeps but marks dead died inside a wall in that frame |
| AntsLegacy.NewAnt | ant.py:18-41 | a new ant is FORAGING, at full energy 100, carrying nothing with the cooldown at 0, and is lawful |
| AntsLegacy.FirstNear | ant.py:76-83 | the first source closer than 15 is chosen; none exactly when every source is at least 15 away |
| AntsLegacy.Forage | ant.py:73-99 | with a source in reach the ant takes a load of 10 and turns RETURNING; otherwise only its heading changes |
| AntsLegacy.PickupFromEmpty | ant.py:76-83 | a source in reach gives a load of 10 even when it holds nothing |
| AntsLegacy.ReturnHome | ant.py:101-124 | within 20 of the colony the load is handed over, energy is refilled by 20 up to the maximum and the ant forages again; farther away only the heading changes and nothing is handed over |
| AntsLegacy.Rest | ant.py:126-131 | an idle ant forages again exactly when its energy is above 80% of the maximum; only the state and heading can change |
| AntsLegacy.Move | ant.py:133-141 | the new position always lies in `[0, width) x [0, height)` and nothing but the position changes |
| AntsLegacy.BehaveFacts | ant.py:55-61 | the state changes only FORAGING to RETURNING on a pickup, RETURNING to FORAGING on a drop-off, or IDLE to FORAGING above 80% energy; energy changes only on a drop-off; lawfulness is kept |
| AntsLegacy.Update | ant.py:43-71 | the ant is kept exactly when energy after the 0.01 charge is positive; a dropped ant changes nothing else; a kept ant ends inside the world; the pheromone map stays valid |
| AntsLegacy.UpdateFacts | ant.py:43-71 | a frame keeps the ant lawful; a drop-off hands over exactly 10; the map changes only by a deposit into the grid of the ant's (non-IDLE) state, which restarts the cooldown at 5 |
| Genetics.ClampGene | src/genetics.py:58-62 | the clamped gene lies in its range, equals the input when the input already does, and is the nearer bound otherwise |
| Genetics.ClampGenes | src/genetics.py:56-62 | all five clamped genes lie in their ranges, and genes already in range are left unchanged |
| Genetics.ClampIdempotent | src/genetics.py:56-62 | clamping twice gives the same genes as clamping once |
| Genetics.CrossGene | src/genetics.py:31-34 | the child gene, minus its noise, lies between the two parent genes; with noise in `[-0.1, 0.1]` it is within 0.1 of the parents' mean |
| Genetics.MutateGene | src/genetics.py:41-54 | a draw at or above the rate 0.15 keeps the gene; any mutation moves it by at most the size of the step |
| Genetics.Mutate | src/genetics.py:36-54 | with steps inside their ranges, each gene moves by at most 0.2, 0.05, 0.05, 0.3 and 0.002 respectively |
| Genetics.NoMutationKeeps | src/genetics.py:36-54 | when all five draws are at or above the rate, mutation changes nothing |
| Genetics.NewGenes | src/genetics.py:9-29 | bred or drawn, a new gene set always lies in the valid ranges |
| Genetics.BreedIdentical | src/genetics.py:9-34 | breeding a valid gene set with itself, with zero noise and no mutation, reproduces it |
| Genetics.Copy | src/genetics.py:64-72 | the copy equals the original, whatever the fresh record it overwrites drew |
| Genetics.SpeedBonus | src/genetics.py:102-106 | the bonus is 0 unless there are trips and a positive discovery time, and otherwise lies in `[0, 50)` |
| Genetics.EfficiencyBounded | src/genetics.py:93 | the efficiency term is never negative and never more than 50 per unit of food collected |
| Genetics.Fitness | src/genetics.py:89-113 | the fitness is never negative, never below the raw score, equals the raw score whenever that is positive, and is 0 whenever it is not |
| Genetics.WallHitNeverHelps | src/genetics.py:99-113 | one more wall hit never raises the fitness |
| Genetics.FasterNeverHurts | src/genetics.py:102-106 | a shorter total discovery time never lowers the speed bonus |
| ColonySim.AddFood | src/colony.py:109-111 | the store never passes `max_food` (10000); an addition that fits is added in full, one that does not fills the store exactly; a non-negative addition never lowers a store within the cap |
| ColonySim.Deliver | src/colony.py:109-111 | no hand-over leaves the store alone; a hand-over adds its load through `add_food` |
| ColonySim.Consume | src/colony.py:113-123 | the colony is fed exactly when the store covers 0.05 per counted ant, and then the store drops by that much; otherwise the store becomes 0 and the count drops, never below 0; the store is never negative afterwards |
| ColonySim.StarvationLoss | src/colony.py:121 | a starving colony of `n` counted ants loses exactly `n // 20` of them |
| ColonySim.Sweep | src/colony.py:146-149 | the loop visits every ant once, keeps the earlier entries, flags each ant exactly once, leaves the number of sources unchanged and keeps the store within its cap |
| ColonySim.SweepSettled | src/colony.py:146-149 | after the loop every ant is lawful and every unflagged ant has energy left |
| ColonySim.SweepFlagsDead | src/colony.py:146-149 | an ant already dead when the loop reaches it is always flagged for removal |
| ColonySim.SweepStoreGrows | src/colony.py:146-149 | with lawful ants the loop never lowers the store and never takes it past `max_food` |
| ColonySim.SweepFoodConserved | src/colony.py:146-149 | the food on the map never rises during the loop and falls by at most one unit per ant visited |
| ColonySim.Settle | src/colony.py:138-154 | the clock advances by one, the flagged ants are removed with one count each (so `population - len(ants)` is unchanged), the source list keeps its length and the store stays within its cap |
| ColonySim.SettleLawful | src/colony.py:146-154 | after removal every remaining ant is lawful and has energy left |
| ColonySim.Feed | src/colony.py:157 | only the store and the count change; the store ends non-negative; the count never rises, and stays the same whenever food is left |
| ColonySim.SpawnAt | src/colony.py:128-133 | a newborn is a lawful, living, FORAGING ant with energy |
| ColonySim.Spawn | src/colony.py:125-136 | below the cap and with more than 100 in store, exactly one ant is appended and counted and 20 food is paid; otherwise the colony is unchanged |
| ColonySim.Attempts | src/colony.py:161 | at most five attempts, exactly five while five places are free, none at or over the cap |
| ColonySim.SpawnTimes | src/colony.py:161-162 | repeated spawns append as many ants as they count, at 20 food each, keep the earlier ants, never pass the cap, never make a non-negative store negative and add only living ants with energy |
| ColonySim.Grow | src/colony.py:159-162 | at most five ants are added, each counted, after the existing ones; the cap and a non-negative store are respected; unless the clock is a multiple of 60 and the store exceeds 500, nothing changes |
| ColonySim.NewSource | src/colony.py:99-103 | a new source holds between 50 and 150 units |
| ColonySim.SourceSpot | src/colony.py:91-100 | a new source lies in the drawing box |
| ColonySim.Depleted | src/colony.py:165 | a source is flagged exactly when its amount is at most 0 |
| ColonySim.RemoveDepleted | src/colony.py:165-167 | popping the flagged indices from the highest down leaves exactly the non-depleted sources, in order |
| ColonySim.Refill | src/colony.py:170-178 | the existing sources are kept in place and new ones are appended until there are exactly twelve; twelve or more are left alone |
| ColonySim.Restock | src/colony.py:164-178 | afterwards there are at least twelve sources, all holding food when the draws are in range, and nothing else changes |
| ColonySim.Update | src/colony.py:138-178 | a frame advances the clock by one, leaves a valid colony with at least twelve sources, a non-negative store within the cap and a count within `max_population` |
| ColonySim.UpdateSpawnGate | src/colony.py:138-162 | on a frame whose new clock is not a multiple of 60 no ant is added: the ants left are exactly the survivors of the ant loop |
| ColonySim.UpdateSurvivors | src/colony.py:146-162 | the ants after a frame are those whose update returned true, in list order, followed by at most five newborns |
| ColonySim.UpdateLawful | src/colony.py:138-162 | a frame keeps every ant lawful and every ant it keeps has energy left |
| ColonySim.UpdatePopulationGap | src/colony.py:151-162 | the gap between the counter and the list never grows, and is unchanged in a frame that ends with food in store |
| ColonySim.PlaceInitial | src/colony.py:77-86 | every initial ant is lawful, living, FORAGING and at full energy |
| ColonySim.NewColony | src/colony.py:40-103 | a new colony is valid with 100 lawful ants, all counted, an empty store, twelve sources of 50 to 150 units and the clock at 0 |
| ColonySim.GetStats | src/colony.py:207-220 | the stats report the count and store as they are; the foraging and returning counts are the numbers of FORAGING and RETURNING ants, together at most the ants; the active sources are exactly the sources holding more than 5 |
| ColonySim.CountActive | src/colony.py:217 | the count equals the number of positions whose source holds more than 5 |
| ColonySim.CountState | src/colony.py:215-216 | the count of ants in a state is the multiplicity of that state among the ants' states |
| ColonySim.StatesPartition | src/colony.py:215-216 | every ant is counted in exactly one of the three states |
| ColonySim.TotalsAgree | src/colony.py:209-210 | for lawful ants total food collected equals total trips |
| ColonySim.ReturningCarry | src/colony.py:216 | for lawful ants the returning count is the number of ants carrying food |
| ColonyLegacy.Sweep | colony.py:116-120 | the loop visits every ant once, keeps the earlier entries, flags each ant exactly once and keeps the store within its cap |
| ColonyLegacy.SweepFlags | colony.py:116-120 | an ant is flagged exactly when the frame's 0.01 energy charge exhausts it; the loop keeps every ant lawful and every unflagged ant has energy left |
| ColonyLegacy.Settle | colony.py:109-125 | the clock advances by one, the flagged ants are removed with one count each (so `population - len(ants)` is unchanged) and the store stays within its cap |
| ColonyLegacy.SettleSurvivors | colony.py:116-125 | the ants kept are, in order, exactly those the energy charge did not exhaust, each lawful and with energy left |
| ColonyLegacy.Feed | colony.py:86-96 | only the store and the count change; the store ends non-negative and never rises; the count never passes `max(population, 0)` |
| ColonyLegacy.Spawn | colony.py:98-107 | below 500 ants and with more than 100 in store, exactly one ant is appended and counted and 20 food is paid; otherwise the colony is unchanged |
| ColonyLegacy.SpawnTimes | colony.py:132-133 | repeated spawns append as many ants as they count, at 20 food each, keep the earlier ants, never pass the cap and never make a non-negative store negative |
| ColonyLegacy.Grow | colony.py:130-133 | at most five ants are added, each counted, after the existing ones; the cap and a non-negative store are respected; unless the clock is a multiple of 60 and the store exceeds 500, nothing changes |
| ColonyLegacy.RegrowBounded | colony.py:135-138 | regeneration never shrinks a source and never takes one past 100.1 |
| ColonyLegacy.RegrowTotal | colony.py:135-138 | regeneration never lowers the total food of the sources and adds at most 0.1 per source |
| ColonyLegacy.Update | colony.py:109-138 | a frame advances the clock by one, regrows every source, and leaves a valid colony with a non-negative store within the cap and a count within 500 |
| ColonyLegacy.UpdateSpawnGate | colony.py:109-133 | on a frame whose new clock is not a multiple of 60 no ant is added: the ants left are exactly the survivors of the energy charge |
| ColonyLegacy.UpdateSurvivors | colony.py:109-133 | the ants after a frame are those the energy charge did not exhaust, in order, followed by at most five newborns, all lawful with energy left |
| ColonyLegacy.SourcesNeverChange | colony.py:135-138 | ants never take food from a source, so sources that start at 100 or more stay exactly as they were |
| ColonyLegacy.PlaceInitial | colony.py:56-65 | every initial ant is lawful, FORAGING and at full energy |
| ColonyLegacy.NewColony | colony.py:27-80 | a new colony is valid with 30 lawful ants, all counted, an empty store, five sources of exactly 100 units and the clock at 0 |
| ColonyLegacy.GetStats | colony.py:164-172 | the stats report the count and store as they are; the foraging and returning counts are the numbers of FORAGING and RETURNING ants, together at most the ants; the active sources are exactly the sources holding more than 5 |
| Removal.Marked | src/colony.py:146-149 | the collected indices are strictly increasing, lie in the list, and contain an index exactly when its flag is set |
| Removal.MarkedCount | src/colony.py:146-154 | the number of indices collected is the number of flags set, so the counter drops by exactly that many |
| Removal.Drop | src/colony.py:152-153 | popping the collected indices removes exactly that many entries |
| Removal.DropAppend | src/colony.py:152-153 | pops below the length of a prefix never touch what follows it |
| Removal.DropMarked | src/colony.py:152-153 | popping the flagged indices from the highest down leaves exactly the unflagged entries, in their original order |
| Removal.UnmarkedFrom | src/colony.py:152-153 | every entry left after the removal is an input entry whose flag was clear |
| Removal.UnmarkedNone | src/colony.py:152-153 | with no flag set nothing is removed |

## Left out

- Drawing: every `draw` method, the colours, the fonts and the pygame surfaces. These are rendering only.
- File I/O: the JSON files, and `save_state.py` with the saved-state load in `Colony.__init__` (src/colony.py:66-69). The save formats are modelled as in-memory dictionaries, and `to_dict`/`from_dict` round trips are proved on them.
- Floating point: every float is an exact real, so rounding, NaN and infinities are not modelled.
- `sqrt`, `atan2`, `cos`, `sin`, `tanh` and `sigmoid` are parameters. Only the laws a proof uses are assumed about them: a non-negative square root with `sqrt(0) = 0`, `atan2` within `[-pi, pi]`, bounded trigonometry, and activation ranges.
- Randomness: every `random` call is a draw the caller supplies, and only its documented range is assumed where a proof needs it. Distributions are not modelled.
- The mutation strength of `NeuralNetwork.mutate`: it only shapes the distribution of the Gaussian noise, which is supplied as a draw.
- `NeuralNetwork.forward` records its last inputs, hidden values and outputs for display (src/neural_net.py:135-162). That tracking is left out; only the outputs are modelled.
- The per-ant trail list and the `last_food_x`/`last_food_y` memory of src/ant.py are display and bookkeeping state that no modelled decision reads.
- `is_path_blocked` of src/walls.py: nothing in the modelled core calls it.
- The danger-avoidance call at src/ant.py:455 calls `get_danger_avoidance`, which `PheromoneModel` does not define. As written it raises `AttributeError`, so `Colony.update` crashes on every frame in which a live ant with energy left reaches `_move` and does not die in a wall. The model does not reproduce the crash: it treats the call as giving no turn.
- Headings: the steering angles in `Ants.Step` are not reasoned about beyond what the contracts state. Any heading is allowed.
- The ray-to-ant check reads `ant.id` (src/vision.py:147), but `Ant` in src/ant.py sets no `id`. The model takes the identifier as given.
- The wall constants of the older `walls.py` come from its `config.py`, which does not define them. The values 120 and 3.0 are taken from src/config.py.
- The configuration modules (`config.py`, src/config.py) are not modelled. Their constants appear as Dafny constants.
- `get_stats` and `get_graph_data` of src/colony_brain.py, and its activation averages: these are display only.
- `add_food_source` of src/colony.py: a one-line append that nothing in the modelled core calls.
- The `hasattr` guards in src/colony_brain.py are not modelled. Every ant view carries an optional brain instead.
- A pygame `Rect` is modelled by its left, top, width and height. It is falsy exactly when its width or height is 0, as `Ants.Truthy` states.
- The older ant keeps no width or height of its own. It receives the world size from its colony at each update.
- Ants.Step: states only that the progress counter never becomes negative. The movement itself depends on the trigonometric parameters and the wall geometry, and is stated through `Ants.Move`, `Ants.Bounce` and `Ants.ClampBounds`.
- Ants.Update: requires every wall to have non-negative width and height. Every wall that `Maze.ToWalls` builds has this, but the source accepts any rectangle.
- Ants.UpdateLawful: a kept ant is claimed to have energy left, not to be alive. An ant that dies in a wall this frame is still kept until its next update, as in the source.
- ColonySim.Update: requires the walls to have non-negative width and height, as for `Ants.Update`.
- ColonySim.NewColony: the walls are a parameter, the ones the wall manager built. Their construction is modelled separately in `Walls.CreateWalls`.
- PheromoneMap.NewMap: requires the window to be at least one cell wide and high. A smaller window gives an empty grid, and the source's clamped index of -1 cannot read it.
- ColonyLegacy.NewColony: requires the window to be at least one cell wide and high, for the same reason as `PheromoneMap.NewMap`.
- Evolution.Update: requires every elite to hold a non-empty weight list, while the source needs this only with two or more elites. Every elite of a lawful engine holds 499 weights.
- NeuralNet.Mutate: requires a draw for every weight. The source draws exactly one per weight.

## Findings

| source | as written | input that shows it | evidently intended | confidence | as-written member | corrected member |
|---|---|---|---|---|---|---|
| src/colony_brain.py:105-109 | the elite pool stores `brain.copy()`. `AntBrain.copy` (src/neural_net.py:308-310) resets the fitness to 0, so the pool sorts and evicts by 0 rather than by the efficiency it compared | ten elites of fitness 5, then a report of 1 food and 1 trip over 60 frames (efficiency 150): the new elite enters with fitness 0 and becomes the weakest entry | the stored elite carries the efficiency it was admitted with, so a full pool's weakest fitness never falls | not executed | Evolution.ReportAsWritten, Evolution.ReportAsWrittenLowersFloor | Evolution.Report, Evolution.ReportRaisesFloor |
