/** Shared vocabulary of the ant colony model: optional values, the Python
    numeric conventions the simulation relies on, angle wrapping, and the
    transcendental functions that are passed in rather than modelled. */
module Common {

  datatype Option<+T> = None | Some(value: T)

  /** Python's `math.pi`, as a real number. */
  const PI: real := 3.141592653589793

  /** The behaviour states shared by both ant implementations. */
  datatype AntState = Foraging | Returning | Idle

  /** Python's `min(a, b)`: the first argument unless the second is smaller. */
  function Min(a: real, b: real): real { if b < a then b else a }

  /** Python's `max(a, b)`. */
  function Max(a: real, b: real): real { if b > a then b else a }

  function MinInt(a: int, b: int): int { if b < a then b else a }

  function MaxInt(a: int, b: int): int { if b > a then b else a }

  /** `max(lo, min(v, hi))` on reals. */
  function Clamp(v: real, lo: real, hi: real): real { Max(lo, Min(v, hi)) }

  /** `max(lo, min(v, hi))` on integers. */
  function ClampInt(v: int, lo: int, hi: int): (r: int)
    ensures lo <= hi ==> lo <= r <= hi
    ensures lo <= v <= hi ==> r == v
  {
    MaxInt(lo, MinInt(v, hi))
  }

  /** `int(x // c)` for a float `x` and a positive integer `c`: the floor of the quotient. */
  function FloorDiv(x: real, c: int): (r: int)
    requires c > 0
    ensures r as real <= x / c as real < r as real + 1.0
  {
    (x / c as real).Floor
  }

  lemma MulMonotone(a: real, b: real, c: real)
    requires a <= b && c > 0.0
    ensures a * c <= b * c
    ensures a < b ==> a * c < b * c
  {
  }

  /** Scaling a turn of at most `bound` by a non-negative factor `k` gives a
      turn of at most `bound * k`, strictly less when the turn was strictly
      less and `k` is positive. */
  lemma ScaledTurn(w: real, bound: real, k: real)
    requires Abs(w) <= bound && 0.0 <= k
    ensures Abs(w * k) <= bound * k
    ensures Abs(w) < bound && 0.0 < k ==> Abs(w * k) < bound * k
  {
    if k > 0.0 {
      if w >= 0.0 {
        MulMonotone(0.0, w, k);
        MulMonotone(w, bound, k);
        assert 0.0 <= w * k;
      } else {
        MulMonotone(-w, bound, k);
        MulMonotone(w, 0.0, k);
        assert w * k < 0.0 && (-w) * k == -(w * k);
        assert Abs(w * k) == (-w) * k && Abs(w) == -w;
      }
    } else {
      assert w * k == 0.0 && bound * k == 0.0;
    }
  }

  lemma SquareNonNegative(a: real)
    ensures 0.0 <= a * a
  {
    if a > 0.0 {
      MulMonotone(0.0, a, a);
    } else if a < 0.0 {
      MulMonotone(0.0, -a, -a);
      assert (-a) * (-a) == a * a;
    }
  }

  /** A square is positive unless its base is zero. */
  lemma SquarePositive(a: real)
    requires a != 0.0
    ensures a * a > 0.0
  {
    if a > 0.0 {
      MulMonotone(0.0, a, a);
    } else {
      assert (-a) * (-a) == a * a;
      MulMonotone(0.0, -a, -a);
    }
  }

  lemma SumOfSquaresPositive(a: real, b: real)
    requires a != 0.0 || b != 0.0
    ensures a * a + b * b > 0.0
  {
    SquareNonNegative(a);
    SquareNonNegative(b);
    if a != 0.0 {
      SquarePositive(a);
    } else {
      SquarePositive(b);
    }
  }

  /** A quotient of a non-negative number by a larger one lies in `[0, 1)`. */
  lemma FractionBelowOne(d: real, l: real)
    requires 0.0 <= d < l
    ensures 0.0 <= d / l < 1.0
  {
    var q := d / l;
    assert q * l == d;
    if q >= 1.0 {
      MulMonotone(1.0, q, l);
    }
    if q < 0.0 {
      MulMonotone(q, 0.0, l);
    }
  }

  lemma MulLeftInt(a: int, b: int, c: int)
    requires a <= b && 0 <= c
    ensures c * a <= c * b
    ensures a < b && 0 < c ==> c * a < c * b
  {
  }

  /** Python's `int(r)`, which truncates toward zero. */
  function Trunc(r: real): (n: int)
    ensures 0.0 <= r ==> n == r.Floor
    ensures r < 0.0 ==> n == -((-r).Floor)
  {
    if r >= 0.0 then r.Floor else -((-r).Floor)
  }

  /** The whole multiple of `m` below `x` is at most `x` and within `m` of it. */
  lemma FloorTimes(x: real, m: real)
    requires m > 0.0
    ensures (x / m).Floor as real * m <= x < (x / m).Floor as real * m + m
  {
    var q := x / m;
    var k := q.Floor as real;
    assert q * m == x;
    assert k <= q < k + 1.0;
    MulMonotone(k, q, m);
    assert k * m <= x;
    MulMonotone(q, k + 1.0, m);
    assert x < (k + 1.0) * m;
    assert (k + 1.0) * m == k * m + m;
    assert k * m <= x < k * m + m;
  }

  /** Python's float `x % m` for a positive modulus: the result lies in [0, m)
      and differs from `x` by a whole multiple of `m`. */
  function FloatMod(x: real, m: real): (r: real)
    requires m > 0.0
    ensures 0.0 <= r < m
    ensures r == x - (x / m).Floor as real * m
  {
    FloorTimes(x, m);
    x - (x / m).Floor as real * m
  }

  /** `while d > pi: d -= 2 * pi`. */
  function WrapAbove(d: real): (r: real)
    ensures r <= PI
    ensures d <= PI ==> r == d
    ensures d > PI ==> -PI < r
    decreases (d / PI).Floor
  {
    if d > PI then
      assert (d - 2.0 * PI) / PI == d / PI - 2.0;
      WrapAbove(d - 2.0 * PI)
    else d
  }

  /** `while d < -pi: d += 2 * pi`. */
  function WrapBelow(d: real): (r: real)
    ensures -PI <= r
    ensures -PI <= d ==> r == d
    ensures d <= PI ==> r <= PI
    decreases (-d / PI).Floor
  {
    if d < -PI then
      assert (-(d + 2.0 * PI)) / PI == -d / PI - 2.0;
      WrapBelow(d + 2.0 * PI)
    else d
  }

  /** The two wrapping loops the ant and wall code apply to an angle difference. */
  function WrapAngle(d: real): (r: real)
    ensures -PI <= r <= PI
    ensures -PI <= d <= PI ==> r == d
  {
    WrapBelow(WrapAbove(d))
  }

  /** `while d > pi: d = abs(d - 2 * pi)`, applied to a non-negative difference. */
  function FoldAbs(d: real): (r: real)
    requires 0.0 <= d
    ensures 0.0 <= r <= PI
    ensures d <= PI ==> r == d
    decreases (d / PI).Floor
  {
    if d > PI then
      var e := d - 2.0 * PI;
      if e >= 0.0 then
        assert e / PI == d / PI - 2.0;
        FoldAbs(e)
      else
        assert -e < PI;
        -e
    else d
  }

  function Abs(x: real): real { if x < 0.0 then -x else x }

  /** `math.atan2(dy, dx)` for one of the eight unit grid offsets. */
  function OffsetAngle(dx: int, dy: int): real
  {
    if dx == 1 && dy == 0 then 0.0
    else if dx == 1 && dy == 1 then PI / 4.0
    else if dx == 0 && dy == 1 then PI / 2.0
    else if dx == -1 && dy == 1 then 3.0 * PI / 4.0
    else if dx == -1 && dy == 0 then PI
    else if dx == -1 && dy == -1 then -3.0 * PI / 4.0
    else if dx == 0 && dy == -1 then -PI / 2.0
    else if dx == 1 && dy == -1 then -PI / 4.0
    else 0.0
  }

  /** The eight neighbour offsets in the scan order both pheromone grids use:
      rows top to bottom, and left to right inside a row. */
  const Neighbours: seq<(int, int)> :=
    [(-1, -1), (0, -1), (1, -1), (-1, 0), (1, 0), (-1, 1), (0, 1), (1, 1)]

  /** The functions the simulation takes from Python's `math` module. They are
      parameters of the model; the predicates below state what it relies on. */
  datatype Maths = Maths(
    sqrt: real -> real,
    atan2: (real, real) -> real,
    cos: real -> real,
    sin: real -> real,
    tanh: real -> real,
    sigmoid: real -> real)

  /** `sqrt` of a non-negative number is a non-negative root of it, a
      positive one for a positive number, and `sqrt(0) == 0`. */
  ghost predicate SqrtLaw(m: Maths)
  {
    && m.sqrt(0.0) == 0.0
    && forall v :: 0.0 <= v ==> && 0.0 <= m.sqrt(v) && m.sqrt(v) * m.sqrt(v) == v
                                && (0.0 < v ==> 0.0 < m.sqrt(v))
  }

  /** The direction `(cos t, sin t)` is a unit vector. */
  ghost predicate TrigLaw(m: Maths)
  {
    forall t :: m.cos(t) * m.cos(t) + m.sin(t) * m.sin(t) == 1.0
  }

  /** `atan2` returns an angle in `[-pi, pi]`. */
  ghost predicate AtanLaw(m: Maths)
  {
    forall y, x :: -PI <= m.atan2(y, x) <= PI
  }

  ghost predicate ActivationLaw(m: Maths)
  {
    && (forall v :: -1.0 <= m.tanh(v) <= 1.0)
    && (forall v :: 0.0 <= m.sigmoid(v) <= 1.0)
  }

  /** Euclidean distance through the supplied square root. */
  function Dist(m: Maths, x1: real, y1: real, x2: real, y2: real): real
  {
    m.sqrt((x1 - x2) * (x1 - x2) + (y1 - y2) * (y1 - y2))
  }

  lemma DistNonNegative(m: Maths, x1: real, y1: real, x2: real, y2: real)
    requires SqrtLaw(m)
    ensures 0.0 <= Dist(m, x1, y1, x2, y2)
  {
    SquareNonNegative(x1 - x2);
    SquareNonNegative(y1 - y2);
  }
}

/** First-extremum scans: the Python idiom `if v > best: best = v; idx = i`
    (and its `<` mirror) over a fixed sequence of candidate values. */
module Selection {
  import opened Common

  /** `vals[k]` is the first strict maximum above `floor`. */
  ghost predicate IsFirstMaxAbove(vals: seq<real>, floor: real, k: int)
  {
    && 0 <= k < |vals|
    && vals[k] > floor
    && (forall j :: 0 <= j < k ==> vals[j] < vals[k])
    && (forall j :: k < j < |vals| ==> vals[j] <= vals[k])
  }

  /** `vals[k]` is the first strict minimum below `ceiling`. */
  ghost predicate IsFirstMinBelow(vals: seq<real>, ceiling: real, k: int)
  {
    && 0 <= k < |vals|
    && vals[k] < ceiling
    && (forall j :: 0 <= j < k ==> vals[j] > vals[k])
    && (forall j :: k < j < |vals| ==> vals[j] >= vals[k])
  }

  /** What the scan knows after the prefix `vals[..i]`. */
  ghost predicate MaxSoFar(vals: seq<real>, floor: real, i: int, best: real, idx: Option<nat>)
  {
    && 0 <= i <= |vals|
    && (idx.None? ==> best == floor && forall j :: 0 <= j < i ==> vals[j] <= floor)
    && (idx.Some? ==>
          && IsFirstMaxAbove(vals[..i], floor, idx.value)
          && best == vals[idx.value])
  }

  ghost predicate MinSoFar(vals: seq<real>, ceiling: real, i: int, best: real, idx: Option<nat>)
  {
    && 0 <= i <= |vals|
    && (idx.None? ==> best == ceiling && forall j :: 0 <= j < i ==> vals[j] >= ceiling)
    && (idx.Some? ==>
          && IsFirstMinBelow(vals[..i], ceiling, idx.value)
          && best == vals[idx.value])
  }

  function ScanMax(vals: seq<real>, floor: real, i: nat, best: real, idx: Option<nat>): (r: (real, Option<nat>))
    requires MaxSoFar(vals, floor, i, best, idx)
    ensures MaxSoFar(vals, floor, |vals|, r.0, r.1)
    decreases |vals| - i
  {
    if i == |vals| then (best, idx)
    else if vals[i] > best then
      assert vals[..i + 1][..i] == vals[..i];
      ScanMax(vals, floor, i + 1, vals[i], Some(i))
    else
      assert vals[..i + 1][..i] == vals[..i];
      ScanMax(vals, floor, i + 1, best, idx)
  }

  function ScanMin(vals: seq<real>, ceiling: real, i: nat, best: real, idx: Option<nat>): (r: (real, Option<nat>))
    requires MinSoFar(vals, ceiling, i, best, idx)
    ensures MinSoFar(vals, ceiling, |vals|, r.0, r.1)
    decreases |vals| - i
  {
    if i == |vals| then (best, idx)
    else if vals[i] < best then
      assert vals[..i + 1][..i] == vals[..i];
      ScanMin(vals, ceiling, i + 1, vals[i], Some(i))
    else
      assert vals[..i + 1][..i] == vals[..i];
      ScanMin(vals, ceiling, i + 1, best, idx)
  }

  /** Index of the first strict maximum of `vals` exceeding `floor`, if any. */
  function FirstMax(vals: seq<real>, floor: real): (r: Option<nat>)
    ensures r.None? <==> forall j :: 0 <= j < |vals| ==> vals[j] <= floor
    ensures r.Some? ==> IsFirstMaxAbove(vals, floor, r.value)
  {
    var res := ScanMax(vals, floor, 0, floor, None);
    assert vals[..|vals|] == vals;
    res.1
  }

  /** Index of the first strict minimum of `vals` below `ceiling`, if any. */
  function FirstMin(vals: seq<real>, ceiling: real): (r: Option<nat>)
    ensures r.None? <==> forall j :: 0 <= j < |vals| ==> vals[j] >= ceiling
    ensures r.Some? ==> IsFirstMinBelow(vals, ceiling, r.value)
  {
    var res := ScanMin(vals, ceiling, 0, ceiling, None);
    assert vals[..|vals|] == vals;
    res.1
  }
}
