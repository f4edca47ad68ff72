/** The evolvable controller of `src/neural_net.py`: a 27-16-3 feedforward
    network stored as one flat weight vector, its mutation and crossover, the
    ranges of its outputs, and the ant-facing wrapper that turns sensor
    readings into a steering decision. Random draws are parameters. */
module NeuralNet {
  import opened Common

  const NumVisionRays: nat := 7
  /** Wall, ant and food distance per ray. */
  const VisionInputs: nat := NumVisionRays * 3
  const InputSize: nat := VisionInputs + 6
  const HiddenSize: nat := 16
  const OutputSize: nat := 3

  /** Offsets of the four blocks of the flat weight vector. */
  const HiddenOutputStart: nat := InputSize * HiddenSize
  const HiddenBiasStart: nat := HiddenOutputStart + HiddenSize * OutputSize
  const OutputBiasStart: nat := HiddenBiasStart + HiddenSize
  const TotalWeights: nat := OutputBiasStart + OutputSize

  /** The layout constants, written out. */
  lemma Layout()
    ensures InputSize == 27 && HiddenOutputStart == 432
    ensures HiddenBiasStart == 480 && OutputBiasStart == 496 && TotalWeights == 499
  {
  }

  /** A network is its flat weight list; the matrices are derived from it. */
  datatype Network = Network(weights: seq<real>)

  /** Building a network unpacks the two weight matrices by direct indexing,
      so Python raises unless both matrices are present; the biases are taken
      by slicing, which never raises. */
  predicate Valid(n: Network)
  {
    |n.weights| >= HiddenBiasStart
  }

  /** The weight vector as the matrices and bias vectors `_unpack_weights` builds. */
  datatype Unpacked = Unpacked(wIH: seq<seq<real>>, wHO: seq<seq<real>>, bH: seq<real>, bO: seq<real>)

  /** `n` consecutive rows of width `k` read from `w` starting at `off`. */
  function Rows(w: seq<real>, off: nat, k: nat, n: nat): (r: seq<seq<real>>)
    requires off + k * n <= |w|
    ensures |r| == n
    ensures forall i :: 0 <= i < n ==> r[i] == Row(w, off, k, n, i)
  {
    seq(n, i requires 0 <= i < n => Row(w, off, k, n, i))
  }

  /** Row `i` of them. */
  function Row(w: seq<real>, off: nat, k: nat, n: nat, i: nat): (r: seq<real>)
    requires off + k * n <= |w| && i < n
    ensures off + k * i + k <= |w| && r == w[off + k * i .. off + k * i + k]
  {
    RowFits(k, n, i);
    w[off + k * i .. off + k * i + k]
  }

  /** Row `i` of `n` rows of width `k` ends within the block. */
  lemma RowFits(k: nat, n: nat, i: nat)
    requires i < n
    ensures k * i + k <= k * n
  {
    MulLeftInt(i + 1, n, k);
    assert k * (i + 1) == k * i + k;
  }

  /** `_unpack_weights`: the matrix entries are read row by row in order, then
      the hidden biases, then the output biases, both as slices. */
  function UnpackOf(w: seq<real>): (u: Unpacked)
    requires |w| >= HiddenBiasStart
    ensures |u.wIH| == InputSize && |u.wHO| == HiddenSize
    ensures forall i, j :: 0 <= i < InputSize && 0 <= j < HiddenSize ==>
              |u.wIH[i]| == HiddenSize && u.wIH[i][j] == w[HiddenSize * i + j]
    ensures forall i, k :: 0 <= i < HiddenSize && 0 <= k < OutputSize ==>
              |u.wHO[i]| == OutputSize && u.wHO[i][k] == w[HiddenOutputStart + OutputSize * i + k]
    ensures u.bH == w[HiddenBiasStart .. MinInt(OutputBiasStart, |w|)]
    ensures u.bO == w[MinInt(OutputBiasStart, |w|) .. MinInt(TotalWeights, |w|)]
  {
    Unpacked(Rows(w, 0, HiddenSize, InputSize),
             Rows(w, HiddenOutputStart, OutputSize, HiddenSize),
             w[HiddenBiasStart .. MinInt(OutputBiasStart, |w|)],
             w[MinInt(OutputBiasStart, |w|) .. MinInt(TotalWeights, |w|)])
  }

  /** `_unpack_weights` as the nested loops of the source, with a running index. */
  method UnpackWeights(w: seq<real>) returns (u: Unpacked)
    requires |w| >= HiddenBiasStart
    ensures |u.wIH| == InputSize && |u.wHO| == HiddenSize
    ensures forall i :: 0 <= i < InputSize ==> u.wIH[i] == w[HiddenSize * i .. HiddenSize * i + HiddenSize]
    ensures forall i :: 0 <= i < HiddenSize ==>
              u.wHO[i] == w[HiddenOutputStart + OutputSize * i .. HiddenOutputStart + OutputSize * i + OutputSize]
    ensures u.bH == w[HiddenBiasStart .. MinInt(OutputBiasStart, |w|)]
    ensures u.bO == w[MinInt(OutputBiasStart, |w|) .. MinInt(TotalWeights, |w|)]
  {
    var idx := 0;
    var wIH: seq<seq<real>> := [];
    var i := 0;
    while i < InputSize
      invariant 0 <= i <= InputSize && idx == HiddenSize * i && |wIH| == i
      invariant forall a :: 0 <= a < i ==> wIH[a] == w[HiddenSize * a .. HiddenSize * a + HiddenSize]
    {
      var row: seq<real> := [];
      var j := 0;
      while j < HiddenSize
        invariant 0 <= j <= HiddenSize && idx == HiddenSize * i + j
        invariant row == w[HiddenSize * i .. idx]
      {
        row := row + [w[idx]];
        idx := idx + 1;
        j := j + 1;
      }
      wIH := wIH + [row];
      i := i + 1;
    }
    var wHO: seq<seq<real>> := [];
    i := 0;
    while i < HiddenSize
      invariant 0 <= i <= HiddenSize && idx == HiddenOutputStart + OutputSize * i && |wHO| == i
      invariant forall a :: 0 <= a < i ==>
                  wHO[a] == w[HiddenOutputStart + OutputSize * a .. HiddenOutputStart + OutputSize * a + OutputSize]
    {
      var row: seq<real> := [];
      var j := 0;
      while j < OutputSize
        invariant 0 <= j <= OutputSize && idx == HiddenOutputStart + OutputSize * i + j
        invariant row == w[HiddenOutputStart + OutputSize * i .. idx]
      {
        row := row + [w[idx]];
        idx := idx + 1;
        j := j + 1;
      }
      wHO := wHO + [row];
      i := i + 1;
    }
    var bH := w[idx .. MinInt(idx + HiddenSize, |w|)];
    idx := idx + HiddenSize;
    var bO := w[MinInt(idx, |w|) .. MinInt(idx + OutputSize, |w|)];
    u := Unpacked(wIH, wHO, bH, bO);
  }

  /** The loops build exactly the matrices of the slice-based reading. */
  lemma UnpackAgrees(w: seq<real>, u: Unpacked)
    requires |w| >= HiddenBiasStart
    requires |u.wIH| == InputSize && |u.wHO| == HiddenSize
    requires forall i :: 0 <= i < InputSize ==> u.wIH[i] == w[HiddenSize * i .. HiddenSize * i + HiddenSize]
    requires forall i :: 0 <= i < HiddenSize ==>
               u.wHO[i] == w[HiddenOutputStart + OutputSize * i .. HiddenOutputStart + OutputSize * i + OutputSize]
    requires u.bH == w[HiddenBiasStart .. MinInt(OutputBiasStart, |w|)]
    requires u.bO == w[MinInt(OutputBiasStart, |w|) .. MinInt(TotalWeights, |w|)]
    ensures u == UnpackOf(w)
  {
    var v := UnpackOf(w);
    assert u.wIH == v.wIH;
    assert u.wHO == v.wHO;
  }

  /** Rows laid end to end. */
  function Flatten(rows: seq<seq<real>>): (r: seq<real>)
  {
    if |rows| == 0 then [] else Flatten(rows[..|rows| - 1]) + rows[|rows| - 1]
  }

  /** Every row has width `k`. */
  ghost predicate Shaped(rows: seq<seq<real>>, n: nat, k: nat)
  {
    |rows| == n && forall i :: 0 <= i < n ==> |rows[i]| == k
  }

  /** Laying the rows read from `w` end to end gives back the slice they cover. */
  lemma {:induction false} FlattenRows(w: seq<real>, off: nat, k: nat, n: nat)
    requires off + k * n <= |w|
    ensures Flatten(Rows(w, off, k, n)) == w[off .. off + k * n]
  {
    if n > 0 {
      RowSplit(k, n);
      var front := k * (n - 1);
      var rs := Rows(w, off, k, n);
      assert rs[..n - 1] == Rows(w, off, k, n - 1);
      FlattenRows(w, off, k, n - 1);
      assert rs[n - 1] == w[off + front .. off + front + k];
      SliceJoin(w, off, off + front, off + k * n);
    }
  }

  lemma RowSplit(k: nat, n: nat)
    requires n > 0
    ensures 0 <= k * (n - 1) && k * (n - 1) + k == k * n
  {
  }

  lemma SliceJoin(w: seq<real>, a: nat, b: nat, c: nat)
    requires a <= b <= c <= |w|
    ensures w[a .. b] + w[b .. c] == w[a .. c]
  {
  }

  /** Flattened shaped rows have `n * k` entries. */
  lemma {:induction false} FlattenLength(rows: seq<seq<real>>, n: nat, k: nat)
    requires Shaped(rows, n, k)
    ensures |Flatten(rows)| == k * n
  {
    if n > 0 {
      FlattenLength(rows[..n - 1], n - 1, k);
      assert k * (n - 1) + k == k * n;
    }
  }

  /** Entry `(i, j)` of shaped rows sits at `k * i + j` of the flattened list. */
  lemma {:induction false} FlattenAt(rows: seq<seq<real>>, n: nat, k: nat, i: nat, j: nat)
    requires Shaped(rows, n, k) && i < n && j < k
    ensures k * i + j < |Flatten(rows)| && Flatten(rows)[k * i + j] == rows[i][j]
  {
    var front := rows[..n - 1];
    FlattenLength(front, n - 1, k);
    RowFits(k, n, i);
    if i < n - 1 {
      assert rows[i] == front[i];
      FlattenAt(front, n - 1, k, i, j);
    }
  }

  /** The flat vector of an unpacked network: the inverse of unpacking. */
  function Pack(u: Unpacked): (w: seq<real>)
  {
    Flatten(u.wIH) + Flatten(u.wHO) + u.bH + u.bO
  }

  /** Unpacking a full 499-entry vector uses every entry exactly once, in order:
      packing the result gives back the vector. */
  lemma PackUnpack(w: seq<real>)
    requires |w| == TotalWeights
    ensures Pack(UnpackOf(w)) == w
  {
    var u := UnpackOf(w);
    FlattenRows(w, 0, HiddenSize, InputSize);
    FlattenRows(w, HiddenOutputStart, OutputSize, HiddenSize);
    assert w == w[..HiddenOutputStart] + w[HiddenOutputStart .. HiddenBiasStart]
              + w[HiddenBiasStart .. OutputBiasStart] + w[OutputBiasStart ..];
  }

  /** Conversely, a correctly shaped set of matrices survives packing and unpacking. */
  lemma UnpackPack(u: Unpacked)
    requires Shaped(u.wIH, InputSize, HiddenSize) && Shaped(u.wHO, HiddenSize, OutputSize)
    requires |u.bH| == HiddenSize && |u.bO| == OutputSize
    ensures |Pack(u)| == TotalWeights
    ensures UnpackOf(Pack(u)) == u
  {
    var w := Pack(u);
    FlattenLength(u.wIH, InputSize, HiddenSize);
    FlattenLength(u.wHO, HiddenSize, OutputSize);
    var v := UnpackOf(w);
    forall i | 0 <= i < InputSize
      ensures v.wIH[i] == u.wIH[i]
    {
      forall j | 0 <= j < HiddenSize
        ensures v.wIH[i][j] == u.wIH[i][j]
      {
        FlattenAt(u.wIH, InputSize, HiddenSize, i, j);
        assert w[HiddenSize * i + j] == Flatten(u.wIH)[HiddenSize * i + j];
      }
    }
    forall i | 0 <= i < HiddenSize
      ensures v.wHO[i] == u.wHO[i]
    {
      forall k | 0 <= k < OutputSize
        ensures v.wHO[i][k] == u.wHO[i][k]
      {
        FlattenAt(u.wHO, HiddenSize, OutputSize, i, k);
        assert w[HiddenOutputStart + OutputSize * i + k] == Flatten(u.wHO)[OutputSize * i + k];
      }
    }
    assert v.wIH == u.wIH;
    assert v.wHO == u.wHO;
    assert v.bH == u.bH;
    assert v.bO == u.bO;
  }

  /** `NeuralNetwork(weights)`: the constructor raises unless the matrices can be unpacked. */
  function Construct(weights: seq<real>): (r: Option<Network>)
    ensures r.Some? <==> |weights| >= HiddenBiasStart
    ensures r.Some? ==> Valid(r.value) && r.value.weights == weights
  {
    if |weights| >= HiddenBiasStart then Some(Network(weights)) else None
  }

  /** `NeuralNetwork()`: a fresh network from one Gaussian draw per weight. */
  function Fresh(gauss: seq<real>): (n: Network)
    requires |gauss| == TotalWeights
    ensures Valid(n) && |n.weights| == TotalWeights
  {
    Network(gauss)
  }

  /** Python's `tanh` after clamping its argument to `[-500, 500]`. */
  function Tanh(m: Maths, x: real): real { m.tanh(Max(-500.0, Min(500.0, x))) }

  /** Python's `sigmoid` after the same clamp. */
  function Sigmoid(m: Maths, x: real): real { m.sigmoid(Max(-500.0, Min(500.0, x))) }

  /** The first `n` products `xs[i] * w[i][col]`, summed left to right. */
  function Weighted(xs: seq<real>, w: seq<seq<real>>, col: nat, n: nat): real
    requires n <= |xs| && n <= |w|
    requires forall i :: 0 <= i < n ==> col < |w[i]|
  {
    if n == 0 then 0.0 else Weighted(xs, w, col, n - 1) + xs[n - 1] * w[n - 1][col]
  }

  /** The three activated outputs of a forward pass. */
  datatype Outputs = Outputs(turn: real, speed: real, exploration: real)

  /** `forward`: a tanh hidden layer, then tanh for the turn and shifted and
      plain sigmoids for speed and exploration. Fewer than 27 inputs, or a
      weight list too short to hold all biases, makes Python raise. */
  function Forward(m: Maths, n: Network, inputs: seq<real>): (r: Option<Outputs>)
    requires Valid(n)
    ensures r.Some? <==> |inputs| >= InputSize && |n.weights| >= TotalWeights
    ensures r.Some? && ActivationLaw(m) ==>
              && -1.0 <= r.value.turn <= 1.0
              && 0.5 <= r.value.speed <= 1.5
              && 0.0 <= r.value.exploration <= 1.0
  {
    var u := UnpackOf(n.weights);
    if |inputs| < InputSize || |n.weights| < TotalWeights then None
    else
      var hidden := seq(HiddenSize, j requires 0 <= j < HiddenSize =>
                          Tanh(m, u.bH[j] + Weighted(inputs, u.wIH, j, InputSize)));
      var o := seq(OutputSize, k requires 0 <= k < OutputSize =>
                     u.bO[k] + Weighted(hidden, u.wHO, k, HiddenSize));
      Some(Outputs(Tanh(m, o[0]), Sigmoid(m, o[1]) + 0.5, Sigmoid(m, o[2])))
  }

  /** `mutate`: weight `i` gains the Gaussian draw `noise[i]` exactly when its
      uniform draw is below `rate`. The mutation strength only shapes the
      distribution of `noise`. */
  function Mutate(n: Network, draws: seq<real>, noise: seq<real>, rate: real): (r: Network)
    requires |draws| >= |n.weights| && |noise| >= |n.weights|
    ensures |r.weights| == |n.weights|
    ensures Valid(n) ==> Valid(r)
    ensures forall i :: 0 <= i < |r.weights| ==>
              (r.weights[i] != n.weights[i] ==> draws[i] < rate)
              && (r.weights[i] == n.weights[i] || r.weights[i] == n.weights[i] + noise[i])
  {
    Network(seq(|n.weights|, i requires 0 <= i < |n.weights| =>
                  if draws[i] < rate then n.weights[i] + noise[i] else n.weights[i]))
  }

  /** Uniform draws lie in `[0, 1)`, so a zero rate changes nothing. */
  lemma MutateZeroRate(n: Network, draws: seq<real>, noise: seq<real>)
    requires |draws| >= |n.weights| && |noise| >= |n.weights|
    requires forall i :: 0 <= i < |n.weights| ==> 0.0 <= draws[i]
    ensures Mutate(n, draws, noise, 0.0) == n
  {
    assert Mutate(n, draws, noise, 0.0).weights == n.weights;
  }

  /** A draw below the rate with non-zero noise really moves the weight. */
  lemma MutateMoves(n: Network, draws: seq<real>, noise: seq<real>, rate: real, i: nat)
    requires |draws| >= |n.weights| && |noise| >= |n.weights| && i < |n.weights|
    requires draws[i] < rate && noise[i] != 0.0
    ensures Mutate(n, draws, noise, rate).weights[i] != n.weights[i]
  {
  }

  /** `crossover`: `zip` stops at the shorter list; each child weight comes from
      this network when its draw is below 0.5 and from the other otherwise. */
  function Crossover(a: Network, b: Network, draws: seq<real>): (r: Network)
    requires |draws| >= MinInt(|a.weights|, |b.weights|)
    ensures |r.weights| == MinInt(|a.weights|, |b.weights|)
    ensures Valid(a) && Valid(b) ==> Valid(r)
    ensures forall i :: 0 <= i < |r.weights| ==>
              (draws[i] < 0.5 ==> r.weights[i] == a.weights[i])
              && (draws[i] >= 0.5 ==> r.weights[i] == b.weights[i])
  {
    var len := MinInt(|a.weights|, |b.weights|);
    Network(seq(len, i requires 0 <= i < len => if draws[i] < 0.5 then a.weights[i] else b.weights[i]))
  }

  /** Every child weight is one of the two parents' weights at that index. */
  lemma CrossoverFromParents(a: Network, b: Network, draws: seq<real>, i: nat)
    requires |draws| >= MinInt(|a.weights|, |b.weights|)
    requires i < |Crossover(a, b, draws).weights|
    ensures Crossover(a, b, draws).weights[i] in {a.weights[i], b.weights[i]}
  {
  }

  /** Crossing a network with itself reproduces its weights. */
  lemma CrossoverSelf(a: Network, draws: seq<real>)
    requires |draws| >= |a.weights|
    ensures Crossover(a, a, draws) == a
  {
    assert Crossover(a, a, draws).weights == a.weights;
  }

  /** `copy`: a network over the same weight list. */
  function Copy(n: Network): (r: Network)
    ensures r.weights == n.weights
  {
    Network(n.weights)
  }

  /** The serialised form, `{'weights': [...]}`. */
  type Dict = map<string, seq<real>>

  /** `from_dict`: Python raises on a missing key, and the constructor raises
      on a list too short to unpack. */
  function FromDict(d: Dict): (r: Option<Network>)
    ensures "weights" !in d ==> r.None?
    ensures r.Some? <==> "weights" in d && |d["weights"]| >= HiddenBiasStart
    ensures r.Some? ==> Valid(r.value) && r.value.weights == d["weights"]
  {
    if "weights" in d then Construct(d["weights"]) else None
  }

  /** `to_dict`: the one key `weights`, holding every weight in order; what it
      writes, `from_dict` reads back as the same network. */
  function ToDict(n: Network): (d: Dict)
    ensures d.Keys == {"weights"} && d["weights"] == n.weights
    ensures Valid(n) ==> FromDict(d) == Some(n)
  {
    map["weights" := n.weights]
  }

  /** Loading a dictionary and saving the network again gives back exactly
      its `weights` entry, whatever other keys it carried. */
  lemma LoadSaveRoundTrip(d: Dict)
    requires "weights" in d && |d["weights"]| >= HiddenBiasStart
    ensures FromDict(d).Some? && ToDict(FromDict(d).value) == map["weights" := d["weights"]]
  {
  }

  /** Saving and loading a network, or copying it, keeps the weight list. */
  lemma SaveRoundTrip(n: Network)
    requires Valid(n)
    ensures FromDict(ToDict(n)) == Some(n)
    ensures Copy(n) == n
  {
  }

  /** The running sum of a weight list. */
  function Sum(w: seq<real>): real
  {
    if |w| == 0 then 0.0 else Sum(w[..|w| - 1]) + w[|w| - 1]
  }

  /** The smallest and largest weights, as Python's `min` and `max` find them. */
  function SeqMin(w: seq<real>): (r: real)
    requires |w| > 0
    ensures forall i :: 0 <= i < |w| ==> r <= w[i]
    ensures exists i :: 0 <= i < |w| && w[i] == r
  {
    if |w| == 1 then w[0]
    else
      var rest := SeqMin(w[1..]);
      assert forall i :: 1 <= i < |w| ==> w[i] == w[1..][i - 1];
      if rest < w[0] then rest else w[0]
  }

  function SeqMax(w: seq<real>): (r: real)
    requires |w| > 0
    ensures forall i :: 0 <= i < |w| ==> w[i] <= r
    ensures exists i :: 0 <= i < |w| && w[i] == r
  {
    if |w| == 1 then w[0]
    else
      var rest := SeqMax(w[1..]);
      assert forall i :: 1 <= i < |w| ==> w[i] == w[1..][i - 1];
      if rest > w[0] then rest else w[0]
  }

  /** Sum of squared deviations from `mean`. */
  function SquaredDeviation(w: seq<real>, mean: real): real
  {
    if |w| == 0 then 0.0
    else SquaredDeviation(w[..|w| - 1], mean) + (w[|w| - 1] - mean) * (w[|w| - 1] - mean)
  }

  /** A sum of `n` values, each between `lo` and `hi`, lies between `n * lo` and `n * hi`. */
  lemma {:induction false} SumBetween(w: seq<real>, lo: real, hi: real)
    requires forall i :: 0 <= i < |w| ==> lo <= w[i] <= hi
    ensures |w| as real * lo <= Sum(w) <= |w| as real * hi
  {
    if |w| > 0 {
      var n := |w| - 1;
      SumBetween(w[..n], lo, hi);
      assert (n as real + 1.0) * lo == n as real * lo + lo;
      assert (n as real + 1.0) * hi == n as real * hi + hi;
    }
  }

  lemma {:induction false} SquaredDeviationNonNegative(w: seq<real>, mean: real)
    ensures 0.0 <= SquaredDeviation(w, mean)
  {
    if |w| > 0 {
      SquaredDeviationNonNegative(w[..|w| - 1], mean);
      SquareNonNegative(w[|w| - 1] - mean);
    }
  }

  /** Dividing a value between `n * lo` and `n * hi` by a positive `n`. */
  lemma QuotientBetween(s: real, n: real, lo: real, hi: real)
    requires n > 0.0 && n * lo <= s <= n * hi
    ensures lo <= s / n <= hi
  {
    var q := s / n;
    assert q * n == s;
    if q < lo {
      MulMonotone(q, lo, n);
    }
    if q > hi {
      MulMonotone(hi, q, n);
    }
  }

  /** The mean lies between the extremes, and the variance is non-negative. */
  lemma MeanBetween(w: seq<real>, lo: real, hi: real)
    requires |w| > 0
    requires forall i :: 0 <= i < |w| ==> lo <= w[i] <= hi
    ensures lo <= Sum(w) / |w| as real <= hi
  {
    SumBetween(w, lo, hi);
    QuotientBetween(Sum(w), |w| as real, lo, hi);
  }

  lemma VarianceNonNegative(w: seq<real>, mean: real)
    requires |w| > 0
    ensures 0.0 <= SquaredDeviation(w, mean) / |w| as real
  {
    SquaredDeviationNonNegative(w, mean);
    NonNegativeQuotient(SquaredDeviation(w, mean), |w| as real);
  }

  lemma NonNegativeQuotient(s: real, n: real)
    requires 0.0 <= s && 0.0 < n
    ensures 0.0 <= s / n
  {
    var q := s / n;
    assert q * n == s;
    if q < 0.0 {
      MulMonotone(q, 0.0, n);
    }
  }

  datatype WeightStats = WeightStats(mean: real, min: real, max: real, std: real)

  /** `get_weight_stats`: Python divides by the length, so an empty list raises. */
  function GetWeightStats(m: Maths, n: Network): (r: Option<WeightStats>)
    ensures r.Some? <==> |n.weights| > 0
    ensures r.Some? ==> r.value.min <= r.value.mean <= r.value.max
    ensures r.Some? ==> (exists i :: 0 <= i < |n.weights| && n.weights[i] == r.value.min)
                        && (exists i :: 0 <= i < |n.weights| && n.weights[i] == r.value.max)
    ensures r.Some? && SqrtLaw(m) ==> 0.0 <= r.value.std
  {
    var w := n.weights;
    if |w| == 0 then None
    else
      var len := |w| as real;
      var mean := Sum(w) / len;
      MeanBetween(w, SeqMin(w), SeqMax(w));
      VarianceNonNegative(w, mean);
      Some(WeightStats(mean, SeqMin(w), SeqMax(w), m.sqrt(SquaredDeviation(w, mean) / len)))
  }

  /** `AntBrain`: a network with the fitness it has accumulated and a count of
      decisions taken. */
  datatype Brain = Brain(network: Network, fitness: real, decisionsMade: nat)

  /** `AntBrain(network)`: every new brain starts with zero fitness and no decisions. */
  function NewBrain(n: Network): (b: Brain)
    ensures b.network == n && b.fitness == 0.0 && b.decisionsMade == 0
  {
    Brain(n, 0.0, 0)
  }

  function AddFitness(b: Brain, amount: real): (r: Brain)
    ensures r.network == b.network && r.decisionsMade == b.decisionsMade
    ensures r.fitness - b.fitness == amount
  {
    b.(fitness := b.fitness + amount)
  }

  /** The brain operations wrap a fresh brain around the derived network, so
      the derived brain has fitness 0 whatever its parent earned. */
  function BrainMutate(b: Brain, draws: seq<real>, noise: seq<real>, rate: real): (r: Brain)
    requires |draws| >= |b.network.weights| && |noise| >= |b.network.weights|
    ensures r.fitness == 0.0 && r.decisionsMade == 0
    ensures r.network == Mutate(b.network, draws, noise, rate)
  {
    NewBrain(Mutate(b.network, draws, noise, rate))
  }

  function BrainCrossover(a: Brain, b: Brain, draws: seq<real>): (r: Brain)
    requires |draws| >= MinInt(|a.network.weights|, |b.network.weights|)
    ensures r.fitness == 0.0 && r.decisionsMade == 0
    ensures r.network == Crossover(a.network, b.network, draws)
  {
    NewBrain(Crossover(a.network, b.network, draws))
  }

  function BrainCopy(b: Brain): (r: Brain)
    ensures r.fitness == 0.0 && r.decisionsMade == 0
    ensures r.network.weights == b.network.weights
  {
    NewBrain(Copy(b.network))
  }

  /** The sensor readings `decide` adds after the vision values. */
  datatype Senses = Senses(foodPheromoneAhead: real, homePheromoneAhead: real,
                           colonyDistance: real, colonyDirection: real,
                           carryingFood: bool, energy: real)

  /** The input vector of `decide`: the vision values, then six state values
      normalised against the pheromone cap, the distance scale, pi and an
      energy scale of 100. */
  function DecideInputs(vision: seq<real>, s: Senses, maxPheromone: real, maxDistance: real): (r: seq<real>)
    requires maxPheromone != 0.0 && maxDistance != 0.0
    ensures |r| == |vision| + 6 && r[..|vision|] == vision
    ensures var v := |vision|;
      && r[v] <= 1.0 && r[v + 1] <= 1.0 && r[v + 2] <= 1.0 && r[v + 5] <= 1.0
      && r[v + 4] == (if s.carryingFood then 1.0 else 0.0)
      && (-PI <= s.colonyDirection <= PI ==> -1.0 <= r[v + 3] <= 1.0)
    ensures var v := |vision|;
      && (s.foodPheromoneAhead / maxPheromone < 1.0 ==> r[v] == s.foodPheromoneAhead / maxPheromone)
      && (s.homePheromoneAhead / maxPheromone < 1.0 ==> r[v + 1] == s.homePheromoneAhead / maxPheromone)
      && (s.colonyDistance / maxDistance < 1.0 ==> r[v + 2] == s.colonyDistance / maxDistance)
      && (s.energy / 100.0 < 1.0 ==> r[v + 5] == s.energy / 100.0)
    ensures var v := |vision|;
      && (s.foodPheromoneAhead / maxPheromone >= 1.0 ==> r[v] == 1.0)
      && (s.homePheromoneAhead / maxPheromone >= 1.0 ==> r[v + 1] == 1.0)
      && (s.colonyDistance / maxDistance >= 1.0 ==> r[v + 2] == 1.0)
      && r[v + 3] == s.colonyDirection / PI
      && (s.energy / 100.0 >= 1.0 ==> r[v + 5] == 1.0)
  {
    vision + [Min(1.0, s.foodPheromoneAhead / maxPheromone),
              Min(1.0, s.homePheromoneAhead / maxPheromone),
              Min(1.0, s.colonyDistance / maxDistance),
              s.colonyDirection / PI,
              if s.carryingFood then 1.0 else 0.0,
              Min(1.0, s.energy / 100.0)]
  }

  /** What `decide` returns: a turn in radians, a speed multiplier and an
      exploration tendency. */
  datatype Decision = Decision(turnAngle: real, speedModifier: real, exploration: real)

  /** `decide`: one forward pass, the turn output scaled to `[-pi/2, pi/2]`,
      and one more decision counted. Fewer than 21 vision values make the
      forward pass raise, and then nothing is counted. */
  function Decide(m: Maths, b: Brain, vision: seq<real>, s: Senses,
                  maxPheromone: real, maxDistance: real): (r: (Option<Decision>, Brain))
    requires Valid(b.network) && maxPheromone != 0.0 && maxDistance != 0.0
    ensures r.0.Some? <==> |vision| >= VisionInputs && |b.network.weights| >= TotalWeights
    ensures r.0.None? ==> r.1 == b
    ensures r.0.Some? ==> r.1 == b.(decisionsMade := b.decisionsMade + 1)
    ensures r.0.Some? && ActivationLaw(m) ==>
              && -PI / 2.0 <= r.0.value.turnAngle <= PI / 2.0
              && 0.5 <= r.0.value.speedModifier <= 1.5
              && 0.0 <= r.0.value.exploration <= 1.0
    ensures var o := Forward(m, b.network, DecideInputs(vision, s, maxPheromone, maxDistance));
      r.0.Some? ==> o.Some? && r.0.value == Decision(o.value.turn * (PI / 2.0), o.value.speed, o.value.exploration)
  {
    match Forward(m, b.network, DecideInputs(vision, s, maxPheromone, maxDistance))
    case None => (None, b)
    case Some(o) =>
      (Some(Decision(o.turn * (PI / 2.0), o.speed, o.exploration)),
       b.(decisionsMade := b.decisionsMade + 1))
  }
}
