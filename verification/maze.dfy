/** The maze generator of `src/walls.py`: a grid of cells, `true` for wall and
    `false` for passage, carved by recursive backtracking, opened around the
    colony and at random spots, and merged greedily into rectangles. */
module Maze {
  import opened Common

  /** `grid[y][x]`: true for a wall cell, false for a passage. */
  type Grid = seq<seq<bool>>

  type Cell = (int, int)

  predicate Shaped(g: Grid, w: nat, h: nat)
  {
    |g| == h && forall y :: 0 <= y < h ==> |g[y]| == w
  }

  predicate InBounds(w: nat, h: nat, x: int, y: int)
  {
    0 <= x < w && 0 <= y < h
  }

  /** Not on row or column 0 nor on the last row or column. */
  predicate Interior(w: nat, h: nat, x: int, y: int)
  {
    0 < x < w - 1 && 0 < y < h - 1
  }

  predicate IsPassage(g: Grid, w: nat, h: nat, c: Cell)
    requires Shaped(g, w, h)
  {
    InBounds(w, h, c.0, c.1) && !g[c.1][c.0]
  }

  /** The wall cells of a grid. */
  ghost function WallCells(g: Grid, w: nat, h: nat): set<Cell>
    requires Shaped(g, w, h)
  {
    set x, y | 0 <= x < w && 0 <= y < h && g[y][x] :: (x, y)
  }

  /** Passages stay passages from `g0` to `g`. */
  ghost predicate OnlyOpens(g0: Grid, g: Grid, w: nat, h: nat)
    requires Shaped(g0, w, h) && Shaped(g, w, h)
  {
    forall x, y :: 0 <= x < w && 0 <= y < h && !g0[y][x] ==> !g[y][x]
  }

  /** `MazeGenerator.__init__`: every cell a wall. */
  function AllWalls(w: nat, h: nat): (g: Grid)
    ensures Shaped(g, w, h)
    ensures forall x, y :: 0 <= x < w && 0 <= y < h ==> g[y][x]
  {
    seq(h, _ => seq(w, _ => true))
  }

  /** The grid with cell `(x, y)` set to `v`. */
  function SetCell(g: Grid, w: nat, h: nat, x: int, y: int, v: bool): (r: Grid)
    requires Shaped(g, w, h) && InBounds(w, h, x, y)
    ensures Shaped(r, w, h)
    ensures forall cx, cy :: 0 <= cx < w && 0 <= cy < h ==>
              r[cy][cx] == if cx == x && cy == y then v else g[cy][cx]
  {
    g[y := g[y][x := v]]
  }

  lemma CarveShrinks(g: Grid, w: nat, h: nat, x: int, y: int)
    requires Shaped(g, w, h) && InBounds(w, h, x, y)
    ensures WallCells(SetCell(g, w, h, x, y, false), w, h) == WallCells(g, w, h) - {(x, y)}
  {
  }

  /** The candidate offsets, in the order the generator tries them. */
  const Directions: seq<Cell> := [(0, -2), (0, 2), (-2, 0), (2, 0)]

  /** `n` lies two cells from `c` straight up, down, left or right. */
  predicate TwoAway(c: Cell, n: Cell)
  {
    || (n.0 == c.0 && (n.1 == c.1 - 2 || n.1 == c.1 + 2))
    || (n.1 == c.1 && (n.0 == c.0 - 2 || n.0 == c.0 + 2))
  }

  /** The candidate for offset `j` when it is an interior wall cell. */
  function Candidate(g: Grid, w: nat, h: nat, x: int, y: int, j: nat): (ns: seq<Cell>)
    requires Shaped(g, w, h) && j < |Directions|
  {
    var (nx, ny) := (x + Directions[j].0, y + Directions[j].1);
    if Interior(w, h, nx, ny) && g[ny][nx] then [(nx, ny)] else []
  }

  /** `_get_unvisited_neighbors`: the interior cells two steps away that are
      still walls, in the order of `Directions`. */
  function UnvisitedNeighbours(g: Grid, w: nat, h: nat, x: int, y: int): (ns: seq<Cell>)
    requires Shaped(g, w, h)
    ensures forall k :: 0 <= k < |ns| ==>
              Interior(w, h, ns[k].0, ns[k].1) && g[ns[k].1][ns[k].0] && TwoAway((x, y), ns[k])
    ensures forall n :: TwoAway((x, y), n) && Interior(w, h, n.0, n.1) && g[n.1][n.0] ==> n in ns
  {
    Candidate(g, w, h, x, y, 0) + Candidate(g, w, h, x, y, 1)
      + Candidate(g, w, h, x, y, 2) + Candidate(g, w, h, x, y, 3)
  }

  predicate Adjacent(a: Cell, b: Cell)
  {
    (a.0 == b.0 && (a.1 - b.1 == 1 || b.1 - a.1 == 1)) || (a.1 == b.1 && (a.0 - b.0 == 1 || b.0 - a.0 == 1))
  }

  /** `p` walks from `a` to `b` through passage cells in 4-neighbour steps. */
  ghost predicate IsPath(g: Grid, w: nat, h: nat, p: seq<Cell>, a: Cell, b: Cell)
    requires Shaped(g, w, h)
  {
    && |p| >= 1 && p[0] == a && p[|p| - 1] == b
    && (forall i :: 0 <= i < |p| ==> IsPassage(g, w, h, p[i]))
    && (forall i :: 0 <= i < |p| - 1 ==> Adjacent(p[i], p[i + 1]))
  }

  /** A spanning-tree certificate: every passage cell other than the root has
      an adjacent passage parent of smaller rank. */
  ghost predicate Rooted(g: Grid, w: nat, h: nat, root: Cell,
                         parent: map<Cell, Cell>, rank: map<Cell, nat>)
    requires Shaped(g, w, h)
  {
    && IsPassage(g, w, h, root) && root in rank
    && forall c :: IsPassage(g, w, h, c) ==>
         && c in rank
         && (c != root ==>
               && c in parent && Adjacent(c, parent[c]) && IsPassage(g, w, h, parent[c])
               && parent[c] in rank && rank[parent[c]] < rank[c])
  }

  /** Following parents from any passage cell reaches the root. */
  lemma {:induction false} RootedPath(g: Grid, w: nat, h: nat, root: Cell,
                                      parent: map<Cell, Cell>, rank: map<Cell, nat>, c: Cell)
    returns (p: seq<Cell>)
    requires Shaped(g, w, h) && Rooted(g, w, h, root, parent, rank) && IsPassage(g, w, h, c)
    ensures IsPath(g, w, h, p, root, c)
    decreases rank[c]
  {
    if c == root {
      p := [root];
    } else {
      var q := RootedPath(g, w, h, root, parent, rank, parent[c]);
      p := q + [c];
      assert forall i :: 0 <= i < |q| ==> p[i] == q[i];
    }
  }

  /** What the carving loop keeps: the stack holds passage cells that are the
      start or interior. */
  ghost predicate StackOk(g: Grid, w: nat, h: nat, stack: seq<Cell>, start: Cell)
    requires Shaped(g, w, h)
  {
    forall i :: 0 <= i < |stack| ==>
      IsPassage(g, w, h, stack[i]) && (stack[i] == start || Interior(w, h, stack[i].0, stack[i].1))
  }

  /** Border cells, other than the start, have their original value. */
  ghost predicate BorderKept(g0: Grid, g: Grid, w: nat, h: nat, start: Cell)
    requires Shaped(g0, w, h) && Shaped(g, w, h)
  {
    forall x, y :: InBounds(w, h, x, y) && !Interior(w, h, x, y) && (x, y) != start ==> g[y][x] == g0[y][x]
  }

  /** The cell between `c` and a cell `n` two steps away. */
  function Midpoint(c: Cell, n: Cell): Cell
  {
    (c.0 + (n.0 - c.0) / 2, c.1 + (n.1 - c.1) / 2)
  }

  /** One push of the generator: carve the cell between `top` and `n`, then `n`. */
  function Carve(g: Grid, w: nat, h: nat, top: Cell, n: Cell): (r: Grid)
    requires Shaped(g, w, h) && InBounds(w, h, top.0, top.1) && Interior(w, h, n.0, n.1) && TwoAway(top, n)
    ensures Shaped(r, w, h)
    ensures Interior(w, h, Midpoint(top, n).0, Midpoint(top, n).1)
    ensures forall x, y :: 0 <= x < w && 0 <= y < h ==>
              r[y][x] == ((x, y) != Midpoint(top, n) && (x, y) != n && g[y][x])
  {
    var m := Midpoint(top, n);
    SetCell(SetCell(g, w, h, m.0, m.1, false), w, h, n.0, n.1, false)
  }

  /** A push removes at least the wall cell `n`. */
  lemma CarveShrinksWalls(g: Grid, w: nat, h: nat, top: Cell, n: Cell)
    requires Shaped(g, w, h) && InBounds(w, h, top.0, top.1) && Interior(w, h, n.0, n.1) && TwoAway(top, n)
    requires g[n.1][n.0]
    ensures |WallCells(Carve(g, w, h, top, n), w, h)| < |WallCells(g, w, h)|
  {
    var a, b := WallCells(Carve(g, w, h, top, n), w, h), WallCells(g, w, h);
    assert n in b && n !in a;
    assert a <= b;
    assert b == a + (b - a);
    assert |b| == |a| + |b - a|;
  }

  /** A push extends the spanning-tree certificate to the two new passages. */
  lemma {:induction false} CarveRooted(g: Grid, w: nat, h: nat, root: Cell,
                                       parent: map<Cell, Cell>, rank: map<Cell, nat>, top: Cell, n: Cell)
    returns (parent2: map<Cell, Cell>, rank2: map<Cell, nat>)
    requires Shaped(g, w, h) && Rooted(g, w, h, root, parent, rank)
    requires IsPassage(g, w, h, top) && Interior(w, h, n.0, n.1) && TwoAway(top, n) && g[n.1][n.0]
    ensures Rooted(Carve(g, w, h, top, n), w, h, root, parent2, rank2)
  {
    var r := Carve(g, w, h, top, n);
    var m := Midpoint(top, n);
    assert Adjacent(top, m) && Adjacent(m, n) && m != n;
    if g[m.1][m.0] {
      parent2 := parent[m := top][n := m];
      rank2 := rank[m := rank[top] + 1][n := rank[top] + 2];
    } else {
      parent2 := parent[n := m];
      rank2 := rank[n := rank[m] + 1];
    }
    forall c | IsPassage(r, w, h, c)
      ensures c in rank2
      ensures c != root ==>
               && c in parent2 && Adjacent(c, parent2[c]) && IsPassage(r, w, h, parent2[c])
               && parent2[c] in rank2 && rank2[parent2[c]] < rank2[c]
    {
      if c != n && c != m {
        assert IsPassage(g, w, h, c);
      } else if c == m && !g[m.1][m.0] {
        assert IsPassage(g, w, h, c);
      }
    }
  }

  /** A push from the top of a well-formed stack keeps the loop's frame
      properties: passages stay open, the border stays as it was, and the
      stack stays made of open start-or-interior cells. */
  lemma CarveKeeps(g0: Grid, g: Grid, w: nat, h: nat, start: Cell, stack: seq<Cell>, n: Cell)
    requires Shaped(g0, w, h) && Shaped(g, w, h) && |stack| > 0
    requires OnlyOpens(g0, g, w, h) && BorderKept(g0, g, w, h, start) && StackOk(g, w, h, stack, start)
    requires Interior(w, h, n.0, n.1) && TwoAway(stack[|stack| - 1], n)
    ensures var r := Carve(g, w, h, stack[|stack| - 1], n);
      && OnlyOpens(g0, r, w, h) && BorderKept(g0, r, w, h, start) && StackOk(r, w, h, stack + [n], start)
  {
    var top := stack[|stack| - 1];
    var r := Carve(g, w, h, top, n);
    assert IsPassage(g, w, h, top);
    forall i | 0 <= i < |stack + [n]|
      ensures IsPassage(r, w, h, (stack + [n])[i])
    {
      if i < |stack| {
        assert IsPassage(g, w, h, stack[i]);
      }
    }
  }

  /** The state after carving the start cell satisfies the loop's invariants. */
  lemma StartKeeps(g0: Grid, w: nat, h: nat, start: Cell)
    requires Shaped(g0, w, h) && InBounds(w, h, start.0, start.1)
    ensures var g := SetCell(g0, w, h, start.0, start.1, false);
      && OnlyOpens(g0, g, w, h) && BorderKept(g0, g, w, h, start) && StackOk(g, w, h, [start], start)
      && ((forall x, y :: 0 <= x < w && 0 <= y < h ==> g0[y][x]) ==> Rooted(g, w, h, start, map[], map[start := 0]))
  {
    var g := SetCell(g0, w, h, start.0, start.1, false);
    if forall x, y :: 0 <= x < w && 0 <= y < h ==> g0[y][x] {
      forall c | IsPassage(g, w, h, c) ensures c == start {
        assert !g[c.1][c.0];
      }
    }
  }

  lemma PopKeeps(g: Grid, w: nat, h: nat, stack: seq<Cell>, start: Cell)
    requires Shaped(g, w, h) && StackOk(g, w, h, stack, start) && |stack| > 0
    ensures StackOk(g, w, h, stack[..|stack| - 1], start)
  {
  }

  /** `generate`: depth-first carving from `(sx, sy)`. The random choice among
      unvisited neighbours is the oracle `pick`, consulted once per push. */
  method Generate(g0: Grid, w: nat, h: nat, sx: int, sy: int, pick: nat -> nat) returns (g: Grid)
    requires Shaped(g0, w, h) && InBounds(w, h, sx, sy)
    ensures Shaped(g, w, h)
    ensures !g[sy][sx]
    ensures OnlyOpens(g0, g, w, h)
    ensures BorderKept(g0, g, w, h, (sx, sy))
    ensures (forall x, y :: 0 <= x < w && 0 <= y < h ==> g0[y][x]) ==>
              forall c :: IsPassage(g, w, h, c) ==> exists p :: IsPath(g, w, h, p, (sx, sy), c)
  {
    var start := (sx, sy);
    ghost var allWalls := forall x, y :: 0 <= x < w && 0 <= y < h ==> g0[y][x];
    StartKeeps(g0, w, h, start);
    g := SetCell(g0, w, h, sx, sy, false);
    var stack := [start];
    var choices := 0;
    ghost var parent: map<Cell, Cell> := map[];
    ghost var rank: map<Cell, nat> := map[start := 0];
    while |stack| > 0
      invariant Shaped(g, w, h) && !g[sy][sx]
      invariant OnlyOpens(g0, g, w, h) && BorderKept(g0, g, w, h, start)
      invariant StackOk(g, w, h, stack, start)
      invariant allWalls ==> Rooted(g, w, h, start, parent, rank)
      decreases |WallCells(g, w, h)|, |stack|
    {
      var top := stack[|stack| - 1];
      var ns := UnvisitedNeighbours(g, w, h, top.0, top.1);
      if |ns| > 0 {
        var n := ns[pick(choices) % |ns|];
        choices := choices + 1;
        if allWalls {
          parent, rank := CarveRooted(g, w, h, start, parent, rank, top, n);
        }
        CarveShrinksWalls(g, w, h, top, n);
        CarveKeeps(g0, g, w, h, start, stack, n);
        g := Carve(g, w, h, top, n);
        stack := stack + [n];
      } else {
        PopKeeps(g, w, h, stack, start);
        stack := stack[..|stack| - 1];
      }
    }
    if allWalls {
      forall c | IsPassage(g, w, h, c)
        ensures exists p :: IsPath(g, w, h, p, start, c)
      {
        var p := RootedPath(g, w, h, start, parent, rank, c);
      }
    }
  }

  lemma SquareGrows(d: int, r: int)
    requires 0 <= r < d
    ensures d * d > r * r
  {
    MulLeftInt(r, d, d);
    MulLeftInt(r, d, r);
    assert r * d == d * r;
  }

  /** An integer whose square is at most `r * r` lies in `[-r, r]`. */
  lemma SquareBound(d: int, r: int)
    requires 0 <= r
    ensures d * d <= r * r ==> -r <= d <= r
  {
    if d > r {
      SquareGrows(d, r);
    } else if d < -r {
      SquareGrows(-d, r);
      assert (-d) * (-d) == d * d;
    }
  }

  lemma SquareNonNegativeInt(d: int)
    ensures d * d >= 0
  {
    if d >= 0 {
      MulLeftInt(0, d, d);
    } else {
      MulLeftInt(0, -d, -d);
      assert (-d) * (-d) == d * d;
    }
  }

  /** The square of the distance from `(cx, cy)` to `(x, y)`. */
  function DistSq(x: int, y: int, cx: int, cy: int): int
  {
    (x - cx) * (x - cx) + (y - cy) * (y - cy)
  }

  /** The cells the loops of `clear_area` visit. */
  predicate InClearRange(w: nat, h: nat, cx: int, cy: int, radius: int, x: int, y: int)
  {
    && MaxInt(1, cy - radius) <= y < MinInt(h - 1, cy + radius + 1)
    && MaxInt(1, cx - radius) <= x < MinInt(w - 1, cx + radius + 1)
  }

  /** A cell within `radius` of the centre lies inside the loop ranges of
      `clear_area` exactly when it is interior, so those ranges only cut off
      the outer ring of the grid. */
  lemma ClearRangeExact(w: nat, h: nat, cx: int, cy: int, radius: int, x: int, y: int)
    ensures (InClearRange(w, h, cx, cy, radius, x, y) && DistSq(x, y, cx, cy) <= radius * radius)
        <==> (radius >= 0 && Interior(w, h, x, y) && DistSq(x, y, cx, cy) <= radius * radius)
  {
    if radius >= 0 && DistSq(x, y, cx, cy) <= radius * radius {
      SquareNonNegativeInt(x - cx);
      SquareNonNegativeInt(y - cy);
      SquareBound(x - cx, radius);
      SquareBound(y - cy, radius);
    }
  }

  /** `clear_area`: every visited cell within `radius` of the centre becomes a
      passage. `sqrt(d) <= radius` is stated as `d <= radius * radius`, which
      is the same test for the non-negative radius any visited cell implies. */
  function ClearArea(g: Grid, w: nat, h: nat, cx: int, cy: int, radius: int): (r: Grid)
    requires Shaped(g, w, h)
    ensures Shaped(r, w, h)
    ensures forall x, y :: 0 <= x < w && 0 <= y < h ==>
              (r[y][x] <==> g[y][x] && !(radius >= 0 && Interior(w, h, x, y) && DistSq(x, y, cx, cy) <= radius * radius))
  {
    var r := seq(h, y requires 0 <= y < h =>
               seq(w, x requires 0 <= x < w =>
                 g[y][x] && !(InClearRange(w, h, cx, cy, radius, x, y) && DistSq(x, y, cx, cy) <= radius * radius)));
    forall x, y | 0 <= x < w && 0 <= y < h
      ensures r[y][x] <==> g[y][x] && !(radius >= 0 && Interior(w, h, x, y) && DistSq(x, y, cx, cy) <= radius * radius)
    {
      ClearRangeExact(w, h, cx, cy, radius, x, y);
    }
    r
  }

  /** One iteration of `add_extra_passages`: the drawn cell (from
      `randint(2, w - 3)` and `randint(2, h - 3)`) and, when the coin
      `random()` is below 0.5, its interior 4-neighbours. */
  datatype ExtraDraw = ExtraDraw(x: int, y: int, coin: real)

  predicate DrawInRange(w: nat, h: nat, d: ExtraDraw)
  {
    2 <= d.x <= w - 3 && 2 <= d.y <= h - 3
  }

  /** The neighbour offsets `add_extra_passages` clears, in its order. */
  const Plus: seq<Cell> := [(0, 1), (0, -1), (1, 0), (-1, 0)]

  function OpenIfInterior(g: Grid, w: nat, h: nat, x: int, y: int): (r: Grid)
    requires Shaped(g, w, h)
    ensures Shaped(r, w, h)
  {
    if Interior(w, h, x, y) then SetCell(g, w, h, x, y, false) else g
  }

  function OpenSpot(g: Grid, w: nat, h: nat, d: ExtraDraw): (r: Grid)
    requires Shaped(g, w, h) && DrawInRange(w, h, d)
    ensures Shaped(r, w, h)
    ensures !r[d.y][d.x]
    ensures forall x, y :: 0 <= x < w && 0 <= y < h ==>
              (r[y][x] <==>
                 g[y][x] && (x, y) != (d.x, d.y) && !(d.coin < 0.5 && Adjacent((x, y), (d.x, d.y))))
  {
    var g1 := SetCell(g, w, h, d.x, d.y, false);
    if d.coin < 0.5 then
      var g2 := OpenIfInterior(g1, w, h, d.x + Plus[0].0, d.y + Plus[0].1);
      var g3 := OpenIfInterior(g2, w, h, d.x + Plus[1].0, d.y + Plus[1].1);
      var g4 := OpenIfInterior(g3, w, h, d.x + Plus[2].0, d.y + Plus[2].1);
      OpenIfInterior(g4, w, h, d.x + Plus[3].0, d.y + Plus[3].1)
    else g1
  }

  /** `add_extra_passages(count)` with `count == |draws|`: extra passages
      only open cells, never touch the outer ring, and every drawn cell ends
      up a passage. */
  function AddExtraPassages(g: Grid, w: nat, h: nat, draws: seq<ExtraDraw>): (r: Grid)
    requires Shaped(g, w, h)
    requires forall i :: 0 <= i < |draws| ==> DrawInRange(w, h, draws[i])
    ensures Shaped(r, w, h)
    ensures OnlyOpens(g, r, w, h)
    ensures forall x, y :: InBounds(w, h, x, y) && !Interior(w, h, x, y) ==> r[y][x] == g[y][x]
    ensures forall i :: 0 <= i < |draws| ==>
              InBounds(w, h, draws[i].x, draws[i].y) && !r[draws[i].y][draws[i].x]
    decreases |draws|
  {
    if |draws| == 0 then g
    else
      var r := AddExtraPassages(OpenSpot(g, w, h, draws[0]), w, h, draws[1..]);
      assert forall i :: 1 <= i < |draws| ==> draws[1..][i - 1] == draws[i];
      r
  }

  /** `pygame.Rect(x, y, width, height)`; used both for blocks of grid cells
      and for wall rectangles in pixels. */
  datatype Rect = Rect(x: int, y: int, width: int, height: int)

  function RectCells(r: Rect): set<Cell>
  {
    set cx, cy | r.x <= cx < r.x + r.width && r.y <= cy < r.y + r.height :: (cx, cy)
  }

  /** The cells covered by a list of rectangles. */
  ghost function Covered(rs: seq<Rect>): set<Cell>
  {
    if |rs| == 0 then {} else Covered(rs[..|rs| - 1]) + RectCells(rs[|rs| - 1])
  }

  ghost predicate PairwiseDisjoint(rs: seq<Rect>)
  {
    forall i, j :: 0 <= i < j < |rs| ==> RectCells(rs[i]) !! RectCells(rs[j])
  }

  lemma {:induction false} CoveredContains(rs: seq<Rect>, i: int)
    requires 0 <= i < |rs|
    ensures RectCells(rs[i]) <= Covered(rs)
    decreases |rs|
  {
    if i < |rs| - 1 {
      CoveredContains(rs[..|rs| - 1], i);
    }
  }

  /** The scan condition of the height loop: every cell of row `row` in
      columns `x .. x + width` is an unvisited wall. */
  predicate RowFree(g: Grid, w: nat, h: nat, visited: set<Cell>, x: int, row: int, width: int)
    requires Shaped(g, w, h) && 0 <= row < h && 0 <= x && 0 <= width && x + width <= w
  {
    forall cx :: x <= cx < x + width ==> g[row][cx] && (cx, row) !in visited
  }

  /** The horizontal extent of the block starting at `(x, y)`. */
  method BlockWidth(g: Grid, w: nat, h: nat, visited: set<Cell>, x: int, y: int) returns (width: int)
    requires Shaped(g, w, h) && InBounds(w, h, x, y)
    requires g[y][x] && (x, y) !in visited
    ensures 1 <= width <= w - x
    ensures RowFree(g, w, h, visited, x, y, width)
  {
    width := 0;
    while x + width < w && g[y][x + width] && (x + width, y) !in visited
      invariant 0 <= width <= w - x
      invariant RowFree(g, w, h, visited, x, y, width)
    {
      width := width + 1;
    }
  }

  /** The vertical extent of the block: rows are added while the whole row
      segment below is made of unvisited walls. */
  method BlockHeight(g: Grid, w: nat, h: nat, visited: set<Cell>, x: int, y: int, width: int) returns (height: int)
    requires Shaped(g, w, h) && InBounds(w, h, x, y) && 1 <= width <= w - x
    requires RowFree(g, w, h, visited, x, y, width)
    ensures 1 <= height <= h - y
    ensures forall row :: y <= row < y + height ==> RowFree(g, w, h, visited, x, row, width)
  {
    height := 1;
    var canExtend := true;
    while canExtend && y + height < h
      invariant 1 <= height <= h - y
      invariant forall row :: y <= row < y + height ==> RowFree(g, w, h, visited, x, row, width)
      decreases h - y - height, canExtend
    {
      canExtend := RowFree(g, w, h, visited, x, y + height, width);
      if canExtend {
        height := height + 1;
      }
    }
  }

  /** The rectangle found from a free top row lies on unvisited wall cells. */
  lemma BlockIsFree(g: Grid, w: nat, h: nat, visited: set<Cell>, x: int, y: int, width: int, height: int)
    requires Shaped(g, w, h) && InBounds(w, h, x, y) && 1 <= width <= w - x && 1 <= height <= h - y
    requires forall row :: y <= row < y + height ==> RowFree(g, w, h, visited, x, row, width)
    ensures RectCells(Rect(x, y, width, height)) <= WallCells(g, w, h)
    ensures RectCells(Rect(x, y, width, height)) !! visited
    ensures (x, y) in RectCells(Rect(x, y, width, height))
  {
    forall c | c in RectCells(Rect(x, y, width, height))
      ensures c in WallCells(g, w, h) && c !in visited
    {
      assert RowFree(g, w, h, visited, x, c.1, width);
    }
  }

  /** What the merge knows once cells before `(x, y)` in row-major order have
      been scanned. */
  ghost predicate MergeInv(g: Grid, w: nat, h: nat, rects: seq<Rect>, visited: set<Cell>, x: int, y: int)
    requires Shaped(g, w, h)
  {
    && visited == Covered(rects)
    && visited <= WallCells(g, w, h)
    && PairwiseDisjoint(rects)
    && (forall i :: 0 <= i < |rects| ==> rects[i].width >= 1 && rects[i].height >= 1)
    && (forall cx, cy :: 0 <= cx < w && 0 <= cy < h && g[cy][cx] && (cy < y || (cy == y && cx < x))
          ==> (cx, cy) in visited)
  }

  /** Adding a block of unvisited walls keeps the merge's invariant. */
  lemma AddBlock(g: Grid, w: nat, h: nat, rects: seq<Rect>, visited: set<Cell>, x: int, y: int, r: Rect)
    requires Shaped(g, w, h) && MergeInv(g, w, h, rects, visited, x, y)
    requires r.width >= 1 && r.height >= 1
    requires RectCells(r) <= WallCells(g, w, h) && RectCells(r) !! visited
    ensures MergeInv(g, w, h, rects + [r], visited + RectCells(r), x, y)
  {
    var rs := rects + [r];
    assert rs[..|rs| - 1] == rects;
    forall i, j | 0 <= i < j < |rs| ensures RectCells(rs[i]) !! RectCells(rs[j]) {
      if j == |rs| - 1 {
        CoveredContains(rects, i);
      }
    }
  }

  /** `to_walls`, on grid cells: wall cells scanned in row-major order; an
      unvisited wall starts a block as wide as the run of unvisited walls to
      its right and as tall as the rows below that are unvisited walls over
      that whole width. The blocks have positive size, do not overlap, and
      together cover exactly the wall cells. */
  method MergeWalls(g: Grid, w: nat, h: nat) returns (rects: seq<Rect>)
    requires Shaped(g, w, h)
    ensures forall i :: 0 <= i < |rects| ==> rects[i].width >= 1 && rects[i].height >= 1
    ensures forall i :: 0 <= i < |rects| ==>
              0 <= rects[i].x && rects[i].x + rects[i].width <= w && 0 <= rects[i].y && rects[i].y + rects[i].height <= h
    ensures PairwiseDisjoint(rects)
    ensures Covered(rects) == WallCells(g, w, h)
  {
    rects := [];
    var visited: set<Cell> := {};
    var y := 0;
    while y < h
      invariant 0 <= y <= h
      invariant MergeInv(g, w, h, rects, visited, 0, y) && Placed(rects, w, h)
    {
      rects, visited := MergeRow(g, w, h, rects, visited, y);
      y := y + 1;
    }
    assert MergeInv(g, w, h, rects, visited, 0, h);
  }

  /** Every block lies inside the `w` by `h` grid. */
  predicate Placed(rects: seq<Rect>, w: nat, h: nat)
  {
    forall i :: 0 <= i < |rects| ==>
      0 <= rects[i].x && rects[i].x + rects[i].width <= w && 0 <= rects[i].y && rects[i].y + rects[i].height <= h
  }

  /** One row of the merge scan: every wall cell of row `y` is visited by
      the end. */
  method MergeRow(g: Grid, w: nat, h: nat, rects0: seq<Rect>, visited0: set<Cell>, y: int)
    returns (rects: seq<Rect>, visited: set<Cell>)
    requires Shaped(g, w, h) && 0 <= y < h
    requires MergeInv(g, w, h, rects0, visited0, 0, y) && Placed(rects0, w, h)
    ensures MergeInv(g, w, h, rects, visited, 0, y + 1) && Placed(rects, w, h)
  {
    rects, visited := rects0, visited0;
    var x := 0;
    while x < w
      invariant 0 <= x <= w
      invariant MergeInv(g, w, h, rects, visited, x, y) && Placed(rects, w, h)
    {
      rects, visited := MergeCell(g, w, h, rects, visited, x, y);
      x := x + 1;
    }
    MergeNextRow(g, w, h, rects, visited, y);
  }

  /** One cell of the merge scan: an unvisited wall starts a block of
      unvisited walls at that cell, anything else is passed over. */
  method MergeCell(g: Grid, w: nat, h: nat, rects0: seq<Rect>, visited0: set<Cell>, x: int, y: int)
    returns (rects: seq<Rect>, visited: set<Cell>)
    requires Shaped(g, w, h) && InBounds(w, h, x, y)
    requires MergeInv(g, w, h, rects0, visited0, x, y) && Placed(rects0, w, h)
    ensures MergeInv(g, w, h, rects, visited, x + 1, y) && Placed(rects, w, h)
  {
    rects, visited := rects0, visited0;
    if g[y][x] && (x, y) !in visited {
      var width := BlockWidth(g, w, h, visited, x, y);
      var height := BlockHeight(g, w, h, visited, x, y, width);
      var r := Rect(x, y, width, height);
      BlockIsFree(g, w, h, visited, x, y, width, height);
      AddBlock(g, w, h, rects, visited, x, y, r);
      visited := visited + RectCells(r);
      rects := rects + [r];
    }
    MergeStep(g, w, h, rects, visited, x, y);
  }

  /** Passing a cell that is no wall, or one already visited, keeps the
      merge's invariant one cell further on. */
  lemma MergeStep(g: Grid, w: nat, h: nat, rects: seq<Rect>, visited: set<Cell>, x: int, y: int)
    requires Shaped(g, w, h) && InBounds(w, h, x, y) && MergeInv(g, w, h, rects, visited, x, y)
    requires g[y][x] ==> (x, y) in visited
    ensures MergeInv(g, w, h, rects, visited, x + 1, y)
  {
  }

  /** The end of one row is the start of the next. */
  lemma MergeNextRow(g: Grid, w: nat, h: nat, rects: seq<Rect>, visited: set<Cell>, y: int)
    requires Shaped(g, w, h) && MergeInv(g, w, h, rects, visited, w, y)
    ensures MergeInv(g, w, h, rects, visited, 0, y + 1)
  {
  }

  /** The pixel rectangle of a block: `offset + cell * cell_size`. */
  function ToPixels(rects: seq<Rect>, offsetX: int, offsetY: int, cellSize: int): (walls: seq<Rect>)
    ensures |walls| == |rects|
    ensures forall i :: 0 <= i < |rects| ==>
              walls[i] == Rect(offsetX + rects[i].x * cellSize, offsetY + rects[i].y * cellSize,
                               rects[i].width * cellSize, rects[i].height * cellSize)
  {
    seq(|rects|, i requires 0 <= i < |rects| =>
      Rect(offsetX + rects[i].x * cellSize, offsetY + rects[i].y * cellSize,
           rects[i].width * cellSize, rects[i].height * cellSize))
  }

  /** `to_walls`: the merged blocks scaled by the generator's cell size and
      shifted by the offset. */
  method ToWalls(g: Grid, w: nat, h: nat, cellSize: int, offsetX: int, offsetY: int)
    returns (rects: seq<Rect>, walls: seq<Rect>)
    requires Shaped(g, w, h)
    ensures PairwiseDisjoint(rects) && Covered(rects) == WallCells(g, w, h)
    ensures forall i :: 0 <= i < |rects| ==> rects[i].width >= 1 && rects[i].height >= 1
    ensures walls == ToPixels(rects, offsetX, offsetY, cellSize)
  {
    rects := MergeWalls(g, w, h);
    walls := ToPixels(rects, offsetX, offsetY, cellSize);
  }
}
