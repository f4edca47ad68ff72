/** The colony-wide evolution engine of `src/colony_brain.py`: a bounded elite
    pool kept sorted by fitness, brain creation from the elites, fitness
    reports, per-frame statistics with rolling histories, pairwise weight
    diversity, generation averaging and decay, and the saved form. */
module Evolution {
  import opened Common
  import opened NeuralNet

  const MaxElites: nat := 10
  /** Capacity of every rolling history. */
  const HistoryLength: nat := 300
  /** Factor applied to every elite's fitness at each generation. */
  const FitnessDecay: real := 0.95

  /** The state of the `ColonyBrain` class. Activation averages, kept only
      for display, are not part of it. */
  datatype ColonyBrain = ColonyBrain(
    populationSize: int,
    elites: seq<Brain>,
    colonyNetwork: Network,
    generation: int,
    totalFood: int,
    totalTrips: int,
    foodHistory: seq<int>,
    fitnessHistory: seq<real>,
    populationHistory: seq<int>,
    explorationHistory: seq<real>,
    avgFitness: real,
    bestFitness: real,
    diversity: real,
    knowledge: real,
    cooperation: real)

  /** Elites are ordered by fitness, strongest first. */
  ghost predicate SortedDesc(es: seq<Brain>)
  {
    forall i, j :: 0 <= i < j < |es| ==> es[i].fitness >= es[j].fitness
  }

  /** Every elite holds a full weight vector. */
  ghost predicate FullElites(es: seq<Brain>)
  {
    forall i :: 0 <= i < |es| ==> |es[i].network.weights| == TotalWeights
  }

  /** The invariant the engine keeps: a sorted pool of at most ten full
      networks and histories no longer than their capacity. */
  ghost predicate Lawful(cb: ColonyBrain)
  {
    && |cb.elites| <= MaxElites && SortedDesc(cb.elites) && FullElites(cb.elites)
    && |cb.foodHistory| <= HistoryLength && |cb.fitnessHistory| <= HistoryLength
    && |cb.populationHistory| <= HistoryLength && |cb.explorationHistory| <= HistoryLength
  }

  /** `ColonyBrain(population_size)`: no elites, a fresh colony network, and
      every counter, score and history empty. */
  function New(populationSize: int, gauss: seq<real>): (cb: ColonyBrain)
    requires |gauss| == TotalWeights
    ensures Lawful(cb) && |cb.elites| == 0 && cb.generation == 0
    ensures cb.totalFood == 0 && cb.totalTrips == 0 && cb.bestFitness == 0.0
  {
    ColonyBrain(populationSize, [], Fresh(gauss), 0, 0, 0, [], [], [], [],
                0.0, 0.0, 0.0, 0.0, 0.0)
  }

  /** The random draws `create_brain` consumes: Gaussian initial weights,
      two elite choices, the crossover coin flips, and the mutation draws. */
  datatype Draws = Draws(gauss: seq<real>, pick1: nat, pick2: nat,
                         cross: seq<real>, uniform: seq<real>, noise: seq<real>)

  /** The draws are long enough for whatever elite they are applied to. */
  ghost predicate Enough(d: Draws, es: seq<Brain>)
  {
    && (|es| == 0 ==> |d.gauss| == TotalWeights)
    && forall i :: 0 <= i < |es| ==>
         var n := |es[i].network.weights|;
         |d.cross| >= n && |d.uniform| >= n && |d.noise| >= n
  }

  /** `create_brain`: a fresh brain without elites; the single elite mutated
      at rate 0.2; otherwise a crossover of two chosen elites mutated at rate
      0.15. The new brain never inherits fitness. */
  function CreateBrain(cb: ColonyBrain, d: Draws): (b: Brain)
    requires Enough(d, cb.elites)
    ensures b.fitness == 0.0 && b.decisionsMade == 0
    ensures |cb.elites| == 0 ==> b.network == Fresh(d.gauss)
    ensures |cb.elites| == 1 ==>
              var w := cb.elites[0].network.weights;
              && |b.network.weights| == |w|
              && forall i :: 0 <= i < |w| ==>
                   b.network.weights[i] == (if d.uniform[i] < 0.2 then w[i] + d.noise[i] else w[i])
    ensures |cb.elites| >= 2 ==>
              var p1 := cb.elites[d.pick1 % |cb.elites|].network.weights;
              var p2 := cb.elites[d.pick2 % |cb.elites|].network.weights;
              && |b.network.weights| == MinInt(|p1|, |p2|)
              && forall i :: 0 <= i < |b.network.weights| ==>
                   var parent := if d.cross[i] < 0.5 then p1[i] else p2[i];
                   b.network.weights[i] == (if d.uniform[i] < 0.15 then parent + d.noise[i] else parent)
  {
    var es := cb.elites;
    if |es| == 0 then NewBrain(Fresh(d.gauss))
    else if |es| == 1 then BrainMutate(es[0], d.uniform, d.noise, 0.2)
    else
      var p1 := es[d.pick1 % |es|];
      var p2 := es[d.pick2 % |es|];
      var child := BrainCrossover(p1, p2, d.cross);
      BrainMutate(child, d.uniform, d.noise, 0.15)
  }

  /** With every uniform draw at or above the mutation rate, a child of two
      elites takes each weight from one of its parents. */
  lemma CreateBrainInherits(cb: ColonyBrain, d: Draws, i: nat)
    requires Enough(d, cb.elites) && |cb.elites| >= 2
    requires i < |CreateBrain(cb, d).network.weights| && d.uniform[i] >= 0.15
    ensures CreateBrain(cb, d).network.weights[i] in
              {cb.elites[d.pick1 % |cb.elites|].network.weights[i],
               cb.elites[d.pick2 % |cb.elites|].network.weights[i]}
  {
  }

  /** The efficiency `report_ant_performance` computes: food and trips
      weighted 100 and 50, per minute of life at 60 frames a second. */
  function Efficiency(food: int, trips: int, timeAlive: int): (e: real)
    ensures timeAlive <= 0 ==> e == 0.0
    ensures timeAlive > 0 ==> e * timeAlive as real == (food * 100 + trips * 50) as real * 60.0
  {
    if timeAlive > 0 then (food * 100 + trips * 50) as real / (timeAlive as real / 60.0) else 0.0
  }

  /** Collecting food or finishing trips never makes an ant's efficiency negative. */
  lemma EfficiencyNonNegative(food: int, trips: int, timeAlive: int)
    requires food >= 0 && trips >= 0
    ensures Efficiency(food, trips, timeAlive) >= 0.0
  {
    if timeAlive > 0 {
      var e := Efficiency(food, trips, timeAlive);
      var t := timeAlive as real;
      if e < 0.0 {
        MulMonotone(e, 0.0, t);
      }
    }
  }

  /** The number of leading elites at least as fit as `x`. */
  function InsertPos(es: seq<Brain>, x: Brain): (p: nat)
    ensures p <= |es|
    ensures forall i :: 0 <= i < p ==> es[i].fitness >= x.fitness
    ensures p < |es| ==> es[p].fitness < x.fitness
  {
    if |es| == 0 || es[0].fitness < x.fitness then 0
    else
      var q := InsertPos(es[1..], x);
      assert forall i :: 1 <= i < q + 1 ==> es[i] == es[1..][i - 1];
      q + 1
  }

  /** Appending `x` to a sorted pool and sorting it again with Python's
      stable descending sort: `x` lands after every elite at least as fit. */
  function Insert(es: seq<Brain>, x: Brain): (r: seq<Brain>)
    ensures |r| == |es| + 1
    ensures multiset(r) == multiset(es) + multiset{x}
    ensures SortedDesc(es) ==> SortedDesc(r)
    ensures r[|r| - 1] == x || (|es| > 0 && r[|r| - 1] == es[|es| - 1])
  {
    var p := InsertPos(es, x);
    var r := es[..p] + [x] + es[p..];
    InsertSorted(es, x, p, r);
    InsertShape(es, x, p, r);
    r
  }

  /** The newcomer sits at its insertion point, with the other elites in
      their old order before and after it. */
  lemma InsertAround(es: seq<Brain>, x: Brain)
    ensures var p := InsertPos(es, x); var r := Insert(es, x);
      r[p] == x && r[..p] == es[..p] && r[p + 1..] == es[p..]
  {
    var p := InsertPos(es, x);
    InsertShape(es, x, p, es[..p] + [x] + es[p..]);
  }

  lemma InsertShape(es: seq<Brain>, x: Brain, p: nat, r: seq<Brain>)
    requires p <= |es| && r == es[..p] + [x] + es[p..]
    ensures |r| == |es| + 1
    ensures multiset(r) == multiset(es) + multiset{x}
    ensures r[|r| - 1] == x || (|es| > 0 && r[|r| - 1] == es[|es| - 1])
    ensures r[p] == x && r[..p] == es[..p] && r[p + 1..] == es[p..]
  {
    assert es == es[..p] + es[p..];
    assert r[..p] == es[..p] && r[p + 1..] == es[p..];
  }

  lemma InsertSorted(es: seq<Brain>, x: Brain, p: nat, r: seq<Brain>)
    requires p == InsertPos(es, x) && r == es[..p] + [x] + es[p..]
    ensures SortedDesc(es) ==> SortedDesc(r)
  {
    if SortedDesc(es) {
      forall i, j | 0 <= i < j < |r|
        ensures r[i].fitness >= r[j].fitness
      {
        if j < p {
        } else if j == p {
        } else if i < p {
          assert r[j] == es[j - 1];
        } else if i == p {
          assert r[j] == es[j - 1];
          assert es[j - 1].fitness <= es[p].fitness;
        } else {
          assert r[i] == es[i - 1] && r[j] == es[j - 1];
        }
      }
    }
  }

  /** `sort(key=fitness, reverse=True)`: Python's stable descending sort,
      written as an insertion sort in which each elite in turn goes after
      every earlier one at least as fit. */
  function SortDesc(es: seq<Brain>): (r: seq<Brain>)
    ensures |r| == |es|
  {
    if |es| == 0 then [] else Insert(SortDesc(es[..|es| - 1]), es[|es| - 1])
  }

  /** The sort leaves the pool in order and holds exactly the same elites. */
  lemma SortDescSorts(es: seq<Brain>)
    ensures SortedDesc(SortDesc(es)) && multiset(SortDesc(es)) == multiset(es)
  {
    SortDescOrdered(es);
    SortDescSame(es);
  }

  lemma {:induction false} SortDescOrdered(es: seq<Brain>)
    ensures SortedDesc(SortDesc(es))
  {
    if |es| > 0 {
      var n := |es| - 1;
      SortDescOrdered(es[..n]);
      var sorted := SortDesc(es[..n]);
      assert SortDesc(es) == Insert(sorted, es[n]);
    }
  }

  lemma {:induction false} SortDescSame(es: seq<Brain>)
    ensures multiset(SortDesc(es)) == multiset(es)
  {
    if |es| > 0 {
      var n := |es| - 1;
      SortDescSame(es[..n]);
      assert es == es[..n] + [es[n]];
      assert SortDesc(es) == Insert(SortDesc(es[..n]), es[n]);
    }
  }

  /** Sorting a pool that is already in order changes nothing. */
  lemma {:induction false} SortDescSorted(es: seq<Brain>)
    requires SortedDesc(es)
    ensures SortDesc(es) == es
  {
    if |es| > 0 {
      var n := |es| - 1;
      var front := es[..n];
      SortedFront(es);
      SortDescSorted(front);
      InsertLast(front, es[n]);
      assert front + [es[n]] == es;
    }
  }

  lemma SortedFront(es: seq<Brain>)
    requires SortedDesc(es) && |es| > 0
    ensures SortedDesc(es[..|es| - 1])
    ensures forall i :: 0 <= i < |es| - 1 ==> es[i].fitness >= es[|es| - 1].fitness
  {
  }

  /** An elite no fitter than any in the pool is inserted at its end. */
  lemma InsertLast(es: seq<Brain>, x: Brain)
    requires forall i :: 0 <= i < |es| ==> es[i].fitness >= x.fitness
    ensures Insert(es, x) == es + [x]
  {
    var p := InsertPos(es, x);
    assert p == |es|;
    assert es[..p] == es && es[p..] == [];
  }

  /** Appending to a sorted pool and sorting again is one insertion. */
  lemma SortAppend(front: seq<Brain>, x: Brain)
    requires SortedDesc(front)
    ensures SortDesc(front + [x]) == Insert(front, x)
  {
    assert (front + [x])[..|front|] == front;
    SortDescSorted(front);
  }

  /** The elite update of `report_ant_performance`: a pool with room takes the
      candidate; a full pool replaces its last entry only when the new
      efficiency is strictly greater than that entry's fitness; either change
      is followed by the stable descending sort, so an admitted pool is in
      order whatever order it was loaded in. */
  function Admit(es: seq<Brain>, candidate: Brain, efficiency: real): (r: seq<Brain>)
    ensures (|es| < MaxElites || efficiency > es[|es| - 1].fitness) ==> SortedDesc(r)
    ensures SortedDesc(es) ==> SortedDesc(r)
    ensures |es| <= MaxElites ==> |r| <= MaxElites
    ensures |es| < MaxElites ==> multiset(r) == multiset(es) + multiset{candidate}
    ensures |es| >= MaxElites ==>
              if efficiency > es[|es| - 1].fitness
              then multiset(r) == multiset(es[..|es| - 1]) + multiset{candidate}
              else r == es
  {
    if |es| < MaxElites then
      SortDescSorts(es + [candidate]);
      SortDesc(es + [candidate])
    else if efficiency > es[|es| - 1].fitness then
      SortDescSorts(es[..|es| - 1] + [candidate]);
      SortDesc(es[..|es| - 1] + [candidate])
    else es
  }

  /** On a pool already in order, admission is a single insertion after
      every elite at least as fit, in place of the weakest when full. */
  lemma AdmitSorted(es: seq<Brain>, candidate: Brain, efficiency: real)
    requires SortedDesc(es)
    ensures |es| < MaxElites ==> Admit(es, candidate, efficiency) == Insert(es, candidate)
    ensures |es| >= MaxElites && efficiency > es[|es| - 1].fitness ==>
              Admit(es, candidate, efficiency) == Insert(es[..|es| - 1], candidate)
  {
    if |es| < MaxElites {
      SortAppend(es, candidate);
    } else if efficiency > es[|es| - 1].fitness {
      var front := es[..|es| - 1];
      assert SortedDesc(front) by {
        forall i, j | 0 <= i < j < |front| ensures front[i].fitness >= front[j].fitness {
          assert front[i] == es[i] && front[j] == es[j];
        }
      }
      SortAppend(front, candidate);
    }
  }

  /** The effect of one report shared by the code as written and the
      corrected version: the reported brain's fitness is set, the totals
      grow, `candidate` goes through the elite update, and the best fitness
      is raised to the efficiency if that is larger. */
  function ReportWith(cb: ColonyBrain, brain: Brain, food: int, trips: int, timeAlive: int,
                      candidate: Brain): (r: (ColonyBrain, Brain))
    ensures var e := Efficiency(food, trips, timeAlive);
      && r.1 == brain.(fitness := e)
      && r.0.totalFood == cb.totalFood + food && r.0.totalTrips == cb.totalTrips + trips
      && r.0.bestFitness == Max(cb.bestFitness, e)
      && r.0.bestFitness >= cb.bestFitness && r.0.bestFitness >= e
      && (r.0.bestFitness == cb.bestFitness || r.0.bestFitness == e)
      && r.0.elites == Admit(cb.elites, candidate, e)
      && r.0 == cb.(elites := r.0.elites, totalFood := r.0.totalFood,
                    totalTrips := r.0.totalTrips, bestFitness := r.0.bestFitness)
  {
    var e := Efficiency(food, trips, timeAlive);
    (cb.(totalFood := cb.totalFood + food,
         totalTrips := cb.totalTrips + trips,
         elites := Admit(cb.elites, candidate, e),
         bestFitness := if e > cb.bestFitness then e else cb.bestFitness),
     brain.(fitness := e))
  }

  /** `report_ant_performance` as written: the pool stores `brain.copy()`,
      which is a fresh brain of fitness 0, not the efficiency just computed. */
  function ReportAsWritten(cb: ColonyBrain, brain: Brain, food: int, trips: int, timeAlive: int): (r: (ColonyBrain, Brain))
    ensures r.0.bestFitness == Max(cb.bestFitness, Efficiency(food, trips, timeAlive))
    ensures r.0.elites == Admit(cb.elites, BrainCopy(brain), Efficiency(food, trips, timeAlive))
    ensures BrainCopy(brain).fitness == 0.0
  {
    ReportWith(cb, brain, food, trips, timeAlive, BrainCopy(brain))
  }

  /** `report_ant_performance` with the stored elite carrying the efficiency
      it was admitted for. */
  function Report(cb: ColonyBrain, brain: Brain, food: int, trips: int, timeAlive: int): (r: (ColonyBrain, Brain))
    ensures r.0.bestFitness == Max(cb.bestFitness, Efficiency(food, trips, timeAlive))
    ensures r.1.fitness == Efficiency(food, trips, timeAlive)
    ensures r.0.totalFood == cb.totalFood + food && r.0.totalTrips == cb.totalTrips + trips
    ensures |cb.elites| < MaxElites ==>
              multiset(r.0.elites) == multiset(cb.elites) + multiset{Stored(brain, Efficiency(food, trips, timeAlive))}
  {
    var e := Efficiency(food, trips, timeAlive);
    ReportWith(cb, brain, food, trips, timeAlive, Stored(brain, e))
  }

  /** The copy of a reported brain that the pool keeps, with its efficiency. */
  function Stored(brain: Brain, efficiency: real): (s: Brain)
    ensures s.network == brain.network && s.fitness == efficiency && s.decisionsMade == 0
  {
    BrainCopy(brain).(fitness := efficiency)
  }

  /** Reports keep the engine's invariant, for a brain with a full weight vector. */
  lemma ReportLawful(cb: ColonyBrain, brain: Brain, food: int, trips: int, timeAlive: int)
    requires Lawful(cb) && |brain.network.weights| == TotalWeights
    ensures Lawful(Report(cb, brain, food, trips, timeAlive).0)
    ensures Lawful(ReportAsWritten(cb, brain, food, trips, timeAlive).0)
  {
    var e := Efficiency(food, trips, timeAlive);
    FullAdmit(cb.elites, Stored(brain, e), e);
    FullAdmit(cb.elites, BrainCopy(brain), e);
  }

  lemma FullAdmit(es: seq<Brain>, candidate: Brain, e: real)
    requires FullElites(es) && |candidate.network.weights| == TotalWeights
    ensures FullElites(Admit(es, candidate, e))
  {
    var r := Admit(es, candidate, e);
    forall i | 0 <= i < |r|
      ensures |r[i].network.weights| == TotalWeights
    {
      assert r[i] in multiset(r);
      if |es| < MaxElites || e > es[|es| - 1].fitness {
        var base := if |es| < MaxElites then es else es[..|es| - 1];
        assert r[i] in multiset(base) || r[i] == candidate;
        if r[i] != candidate {
          var k :| 0 <= k < |base| && base[k] == r[i];
          assert base[k] == es[k];
        }
      }
    }
  }

  /** With the efficiency stored, a full pool's weakest fitness never falls. */
  lemma ReportRaisesFloor(cb: ColonyBrain, brain: Brain, food: int, trips: int, timeAlive: int)
    requires Lawful(cb) && |cb.elites| == MaxElites
    ensures var es := Report(cb, brain, food, trips, timeAlive).0.elites;
      |es| == MaxElites && es[MaxElites - 1].fitness >= cb.elites[MaxElites - 1].fitness
  {
    var e := Efficiency(food, trips, timeAlive);
    var es := cb.elites;
    AdmitSorted(es, Stored(brain, e), e);
    if e > es[MaxElites - 1].fitness {
      var front := es[..MaxElites - 1];
      var r := Insert(front, Stored(brain, e));
      assert front[MaxElites - 2] == es[MaxElites - 2];
      assert r[MaxElites - 1] == Stored(brain, e) || r[MaxElites - 1] == front[MaxElites - 2];
    }
  }

  /** As written, the floor can fall: ten elites of fitness 5 and a report of
      one food and one trip over one minute (efficiency 150) leave an elite of
      fitness 0 at the bottom of the pool. */
  lemma ReportAsWrittenLowersFloor(n: Network)
    ensures var es := seq(MaxElites, _ => Brain(n, 5.0, 0));
      var cb := ColonyBrain(100, es, n, 0, 0, 0, [], [], [], [], 0.0, 0.0, 0.0, 0.0, 0.0);
      var r := ReportAsWritten(cb, NewBrain(n), 1, 1, 60).0.elites;
      && Efficiency(1, 1, 60) == 150.0
      && |r| == MaxElites && r[MaxElites - 1].fitness == 0.0 < es[MaxElites - 1].fitness
  {
    var es := seq(MaxElites, _ => Brain(n, 5.0, 0));
    var x := BrainCopy(NewBrain(n));
    var front := es[..MaxElites - 1];
    assert Efficiency(1, 1, 60) == 150.0;
    AdmitSorted(es, x, 150.0);
    var p := InsertPos(front, x);
    assert p == |front|;
    assert Insert(front, x) == front + [x];
  }

  /** A deque of capacity 300: appending to a full one drops its oldest entry. */
  function Push<T>(h: seq<T>, v: T): (r: seq<T>)
    ensures |h| <= HistoryLength ==> |r| == MinInt(|h| + 1, HistoryLength)
    ensures |r| > 0 && r[|r| - 1] == v
  {
    if |h| >= HistoryLength then h[|h| - HistoryLength + 1..] + [v] else h + [v]
  }

  /** On a history within capacity, one push keeps the newest 300 entries of
      the history followed by the new value. */
  lemma PushKeepsNewest<T>(h: seq<T>, v: T)
    requires |h| <= HistoryLength
    ensures var all := h + [v];
      Push(h, v) == all[|all| - MinInt(|all|, HistoryLength)..]
  {
  }

  /** What `update` reads from an ant: its brain, if any, with that brain's
      fitness and the outputs of its last forward pass. */
  datatype AntView = AntView(brain: Option<BrainView>)
  datatype BrainView = BrainView(fitness: real, lastOutputs: seq<real>)

  function CountBrains(ants: seq<AntView>): (n: nat)
    ensures n <= |ants|
  {
    if |ants| == 0 then 0
    else CountBrains(ants[..|ants| - 1]) + (if ants[|ants| - 1].brain.Some? then 1 else 0)
  }

  function FitnessTotal(ants: seq<AntView>): real
  {
    if |ants| == 0 then 0.0
    else
      var last := ants[|ants| - 1];
      FitnessTotal(ants[..|ants| - 1]) + (if last.brain.Some? then last.brain.value.fitness else 0.0)
  }

  /** The exploration output of a brain, or 0 when fewer than three outputs were recorded. */
  function ExplorationOf(b: BrainView): real
  {
    if |b.lastOutputs| > 2 then b.lastOutputs[2] else 0.0
  }

  function ExplorationTotal(ants: seq<AntView>): real
  {
    if |ants| == 0 then 0.0
    else
      var last := ants[|ants| - 1];
      ExplorationTotal(ants[..|ants| - 1]) + (if last.brain.Some? then ExplorationOf(last.brain.value) else 0.0)
  }

  function EliteFitnessTotal(es: seq<Brain>): real
  {
    if |es| == 0 then 0.0 else EliteFitnessTotal(es[..|es| - 1]) + es[|es| - 1].fitness
  }

  /** The sum of `|a[i] - b[i]|` over the first `n` positions. */
  function L1(a: seq<real>, b: seq<real>, n: nat): (d: real)
    requires n <= |a| && n <= |b|
    ensures 0.0 <= d
  {
    if n == 0 then 0.0 else L1(a, b, n - 1) + Abs(a[n - 1] - b[n - 1])
  }

  /** Weight lists are compared over their common length, as `zip` does. */
  function Distance(a: Brain, b: Brain): (d: real)
    requires |a.network.weights| > 0
    ensures 0.0 <= d
  {
    var n := MinInt(|a.network.weights|, |b.network.weights|);
    var s := L1(a.network.weights, b.network.weights, n);
    NonNegativeQuotient(s, |a.network.weights| as real);
    s / |a.network.weights| as real
  }

  ghost predicate NonEmptyWeights(es: seq<Brain>)
  {
    forall i :: 0 <= i < |es| ==> |es[i].network.weights| > 0
  }

  /** The distances from `a` to every brain of `rest`. */
  function RowTotal(a: Brain, rest: seq<Brain>): (t: real)
    requires |a.network.weights| > 0
    ensures 0.0 <= t
  {
    if |rest| == 0 then 0.0 else RowTotal(a, rest[..|rest| - 1]) + Distance(a, rest[|rest| - 1])
  }

  /** The distances over every pair `i < j`, as the two nested loops add them. */
  function PairTotal(es: seq<Brain>): (t: real)
    requires NonEmptyWeights(es)
    ensures 0.0 <= t
  {
    if |es| == 0 then 0.0 else RowTotal(es[0], es[1..]) + PairTotal(es[1..])
  }

  /** The number of pairs `i < j` among `n` elites. */
  function Pairs(n: nat): (p: nat)
    ensures n >= 2 ==> p >= 1
  {
    if n == 0 then 0 else (n - 1) + Pairs(n - 1)
  }

  /** `_calculate_diversity`: 1 with fewer than two elites, otherwise the mean
      per-weight distance over all pairs, capped at 1. */
  function Diversity(es: seq<Brain>): (d: real)
    requires NonEmptyWeights(es)
    ensures 0.0 <= d <= 1.0
    ensures |es| < 2 ==> d == 1.0
  {
    if |es| < 2 then 1.0
    else
      NonNegativeQuotient(PairTotal(es), Pairs(|es|) as real);
      Min(1.0, PairTotal(es) / Pairs(|es|) as real)
  }

  lemma {:induction false} L1Self(a: seq<real>, n: nat)
    requires n <= |a|
    ensures L1(a, a, n) == 0.0
  {
    if n > 0 {
      L1Self(a, n - 1);
    }
  }

  /** All elites share the weight list `w`. */
  ghost predicate AllWeights(es: seq<Brain>, w: seq<real>)
  {
    forall i :: 0 <= i < |es| ==> es[i].network.weights == w
  }

  lemma {:induction false} RowTotalSame(a: Brain, rest: seq<Brain>)
    requires |a.network.weights| > 0 && AllWeights(rest, a.network.weights)
    ensures RowTotal(a, rest) == 0.0
  {
    if |rest| > 0 {
      RowTotalSame(a, rest[..|rest| - 1]);
      L1Self(a.network.weights, |a.network.weights|);
    }
  }

  lemma {:induction false} PairTotalSame(es: seq<Brain>, w: seq<real>)
    requires |w| > 0 && AllWeights(es, w)
    ensures PairTotal(es) == 0.0
  {
    if |es| > 0 {
      RowTotalSame(es[0], es[1..]);
      PairTotalSame(es[1..], w);
    }
  }

  /** Two or more identical elites have no diversity at all. */
  lemma IdenticalElitesNoDiversity(es: seq<Brain>, w: seq<real>)
    requires |es| >= 2 && |w| > 0 && AllWeights(es, w)
    ensures Diversity(es) == 0.0
  {
    PairTotalSame(es, w);
  }

  /** What the per-frame statistics of `update` average over. */
  function AverageExploration(ants: seq<AntView>): real
  {
    var n := CountBrains(ants);
    if n > 0 then ExplorationTotal(ants) / n as real else 0.5
  }

  /** `update`: nothing for an empty ant list; otherwise the averages over
      the ants with brains, one append to each history, the knowledge score
      from the mean elite fitness capped at 1, the diversity, and the
      cooperation score when some ant had a brain. */
  function Update(cb: ColonyBrain, ants: seq<AntView>, foodThisFrame: int): (r: ColonyBrain)
    requires NonEmptyWeights(cb.elites)
    ensures |ants| == 0 ==> r == cb
    ensures |ants| > 0 ==>
              && r.foodHistory == Push(cb.foodHistory, foodThisFrame)
              && r.fitnessHistory == Push(cb.fitnessHistory, r.avgFitness)
              && r.populationHistory == Push(cb.populationHistory, |ants|)
              && r.explorationHistory == Push(cb.explorationHistory, AverageExploration(ants))
              && 0.0 <= r.diversity <= 1.0
              && (|cb.elites| > 0 ==> r.knowledge <= 1.0)
              && (CountBrains(ants) == 0 ==> r.avgFitness == cb.avgFitness && r.cooperation == cb.cooperation)
              && (CountBrains(ants) > 0 ==> r.cooperation == 1.0 - AverageExploration(ants))
    ensures r.elites == cb.elites && r.generation == cb.generation && r.bestFitness == cb.bestFitness
  {
    if |ants| == 0 then cb
    else
      var count := CountBrains(ants);
      var avgFitness := if count > 0 then FitnessTotal(ants) / count as real else cb.avgFitness;
      var explore := AverageExploration(ants);
      cb.(avgFitness := avgFitness,
          foodHistory := Push(cb.foodHistory, foodThisFrame),
          fitnessHistory := Push(cb.fitnessHistory, avgFitness),
          populationHistory := Push(cb.populationHistory, |ants|),
          explorationHistory := Push(cb.explorationHistory, explore),
          knowledge := if |cb.elites| > 0
                       then Min(1.0, EliteFitnessTotal(cb.elites) / |cb.elites| as real / 100.0)
                       else cb.knowledge,
          diversity := Diversity(cb.elites),
          cooperation := if count > 0 then 1.0 - explore else cb.cooperation)
  }

  /** Each update appends exactly one value to each history and keeps the invariant. */
  lemma UpdateLawful(cb: ColonyBrain, ants: seq<AntView>, foodThisFrame: int)
    requires Lawful(cb)
    ensures NonEmptyWeights(cb.elites)
    ensures Lawful(Update(cb, ants, foodThisFrame))
    ensures |ants| > 0 ==> |Update(cb, ants, foodThisFrame).foodHistory| == MinInt(|cb.foodHistory| + 1, HistoryLength)
  {
  }

  /** `x` is the mean of `c`: `x` times the number of entries is their sum. */
  ghost predicate MeanOf(x: real, c: seq<real>)
  {
    x * (|c| as real) == Sum(c)
  }

  /** Weight `i` of every elite, in pool order. */
  function Column(es: seq<Brain>, i: nat): (c: seq<real>)
    requires forall k :: 0 <= k < |es| ==> i < |es[k].network.weights|
    ensures |c| == |es| && forall k :: 0 <= k < |es| ==> c[k] == es[k].network.weights[i]
  {
    seq(|es|, k requires 0 <= k < |es| => es[k].network.weights[i])
  }

  /** `evolve_generation` indexes every elite by the first elite's weight
      count, and builds a network from the averages. */
  ghost predicate Averageable(es: seq<Brain>)
  {
    |es| > 0 ==>
      && Valid(es[0].network)
      && forall k :: 0 <= k < |es| ==> |es[k].network.weights| >= |es[0].network.weights|
  }

  /** The colony network: weight `i` is the mean of weight `i` over the elites. */
  function AverageNetwork(es: seq<Brain>): (n: Network)
    requires |es| > 0 && Averageable(es)
    ensures |n.weights| == |es[0].network.weights| && Valid(n)
    ensures forall i :: 0 <= i < |n.weights| ==> MeanOf(n.weights[i], Column(es, i))
    ensures forall i :: 0 <= i < |n.weights| ==>
              SeqMin(Column(es, i)) <= n.weights[i] <= SeqMax(Column(es, i))
  {
    var len := |es[0].network.weights|;
    var avg := seq(len, i requires 0 <= i < len => Sum(Column(es, i)) / |es| as real);
    AverageBetween(es, avg);
    Network(avg)
  }

  lemma AverageBetween(es: seq<Brain>, avg: seq<real>)
    requires |es| > 0 && Averageable(es) && |avg| == |es[0].network.weights|
    requires forall i :: 0 <= i < |avg| ==> avg[i] == Sum(Column(es, i)) / |es| as real
    ensures forall i :: 0 <= i < |avg| ==> MeanOf(avg[i], Column(es, i))
    ensures forall i :: 0 <= i < |avg| ==> SeqMin(Column(es, i)) <= avg[i] <= SeqMax(Column(es, i))
  {
    forall i | 0 <= i < |avg|
      ensures MeanOf(avg[i], Column(es, i))
    {
      QuotientTimes(Sum(Column(es, i)), |Column(es, i)| as real, avg[i]);
    }
    forall i | 0 <= i < |avg|
      ensures SeqMin(Column(es, i)) <= avg[i] <= SeqMax(Column(es, i))
    {
      var c := Column(es, i);
      MeanBetween(c, SeqMin(c), SeqMax(c));
    }
  }

  /** A quotient times its divisor gives back the dividend. */
  lemma QuotientTimes(x: real, d: real, q: real)
    requires d > 0.0 && q == x / d
    ensures q * d == x
  {
  }

  /** Identical elites average to their common weights. */
  lemma AverageOfIdentical(es: seq<Brain>, w: seq<real>)
    requires |es| > 0 && Valid(es[0].network) && AllWeights(es, w)
    ensures AverageNetwork(es).weights == w
  {
    var n := AverageNetwork(es);
    forall i | 0 <= i < |w|
      ensures n.weights[i] == w[i]
    {
      var c := Column(es, i);
      MeanBetween(c, w[i], w[i]);
    }
  }

  /** `brain.fitness *= 0.95` for every elite. */
  function Decay(es: seq<Brain>): (r: seq<Brain>)
    ensures |r| == |es|
    ensures forall k :: 0 <= k < |es| ==> r[k] == es[k].(fitness := es[k].fitness * FitnessDecay)
  {
    seq(|es|, k requires 0 <= k < |es| => es[k].(fitness := es[k].fitness * FitnessDecay))
  }

  /** Decay keeps each elite's network and counters, shrinks every positive
      fitness towards zero, and preserves the ranking between any two elites,
      so a sorted pool stays sorted. */
  lemma DecayKeepsRanking(es: seq<Brain>)
    ensures var r := Decay(es);
      forall k :: 0 <= k < |es| ==>
        && r[k].network == es[k].network && r[k].decisionsMade == es[k].decisionsMade
        && (es[k].fitness > 0.0 ==> 0.0 < r[k].fitness < es[k].fitness)
    ensures var r := Decay(es);
      forall j, k :: 0 <= j < |es| && 0 <= k < |es| ==>
        (r[j].fitness >= r[k].fitness <==> es[j].fitness >= es[k].fitness)
    ensures SortedDesc(es) ==> SortedDesc(Decay(es))
  {
  }

  /** `evolve_generation`: one more generation, the colony network replaced by
      the elite average when there are elites, and every elite's fitness decayed. */
  function EvolveGeneration(cb: ColonyBrain): (r: ColonyBrain)
    requires Averageable(cb.elites)
    ensures r.generation == cb.generation + 1
    ensures |cb.elites| == 0 ==> r.colonyNetwork == cb.colonyNetwork
    ensures |cb.elites| > 0 ==>
              && |r.colonyNetwork.weights| == |cb.elites[0].network.weights|
              && (forall i :: 0 <= i < |r.colonyNetwork.weights| ==>
                    MeanOf(r.colonyNetwork.weights[i], Column(cb.elites, i)))
              && (forall i :: 0 <= i < |r.colonyNetwork.weights| ==>
                    SeqMin(Column(cb.elites, i)) <= r.colonyNetwork.weights[i] <= SeqMax(Column(cb.elites, i)))
    ensures |r.elites| == |cb.elites|
    ensures forall k :: 0 <= k < |cb.elites| ==>
              r.elites[k].network == cb.elites[k].network
              && r.elites[k].fitness == cb.elites[k].fitness * FitnessDecay
  {
    cb.(generation := cb.generation + 1,
        colonyNetwork := if |cb.elites| > 0 then AverageNetwork(cb.elites) else cb.colonyNetwork,
        elites := Decay(cb.elites))
  }

  /** Decay scales every fitness by the same positive factor, so the pool
      stays sorted and the invariant holds. */
  lemma EvolveLawful(cb: ColonyBrain)
    requires Lawful(cb)
    ensures Averageable(cb.elites)
    ensures Lawful(EvolveGeneration(cb))
  {
    var r := EvolveGeneration(cb).elites;
    forall i, j | 0 <= i < j < |r|
      ensures r[i].fitness >= r[j].fitness
    {
      assert cb.elites[i].fitness >= cb.elites[j].fitness;
    }
  }

  /** One saved elite: its weights and fitness, either possibly missing. */
  datatype SavedElite = SavedElite(weights: Option<seq<real>>, fitness: Option<real>)

  /** The saved dictionary; a missing key reads as `None`. */
  datatype Saved = Saved(generation: Option<int>, totalFood: Option<int>, totalTrips: Option<int>,
                         eliteBrains: Option<seq<SavedElite>>, bestFitness: Option<real>)

  /** `to_dict`: every counter is written, and each elite in pool order as
      its weight list and fitness. */
  function ToDict(cb: ColonyBrain): (d: Saved)
    ensures d.eliteBrains.Some? && |d.eliteBrains.value| == |cb.elites|
    ensures && d.generation == Some(cb.generation) && d.bestFitness == Some(cb.bestFitness)
            && d.totalFood == Some(cb.totalFood) && d.totalTrips == Some(cb.totalTrips)
    ensures forall k :: 0 <= k < |cb.elites| ==>
              && d.eliteBrains.value[k].weights == Some(cb.elites[k].network.weights)
              && d.eliteBrains.value[k].fitness == Some(cb.elites[k].fitness)
    ensures forall k :: 0 <= k < |cb.elites| && |cb.elites[k].network.weights| >= HiddenBiasStart ==>
              LoadElite(d.eliteBrains.value[k]) == Some(cb.elites[k].(decisionsMade := 0))
  {
    Saved(Some(cb.generation), Some(cb.totalFood), Some(cb.totalTrips),
          Some(seq(|cb.elites|, k requires 0 <= k < |cb.elites| =>
                     SavedElite(Some(cb.elites[k].network.weights), Some(cb.elites[k].fitness)))),
          Some(cb.bestFitness))
  }

  function Get<T>(o: Option<T>, default: T): T
  {
    if o.Some? then o.value else default
  }

  /** `AntBrain(NeuralNetwork(elite_data['weights']))` with the saved fitness,
      0 if absent. A missing weight list, or one too short to unpack, raises. */
  function LoadElite(e: SavedElite): (r: Option<Brain>)
    ensures r.Some? <==> e.weights.Some? && |e.weights.value| >= HiddenBiasStart
    ensures r.Some? ==> r.value.network.weights == e.weights.value
                        && r.value.fitness == Get(e.fitness, 0.0) && r.value.decisionsMade == 0
  {
    if e.weights.Some? && |e.weights.value| >= HiddenBiasStart
    then Some(NewBrain(Network(e.weights.value)).(fitness := Get(e.fitness, 0.0)))
    else None
  }

  function LoadElites(saved: seq<SavedElite>): (r: Option<seq<Brain>>)
    ensures r.Some? <==> forall k :: 0 <= k < |saved| ==> LoadElite(saved[k]).Some?
    ensures r.Some? ==> (|r.value| == |saved| &&
              forall k :: 0 <= k < |saved| ==> Some(r.value[k]) == LoadElite(saved[k]))
  {
    if |saved| == 0 then Some([])
    else
      var front := LoadElites(saved[..|saved| - 1]);
      var last := LoadElite(saved[|saved| - 1]);
      if front.Some? && last.Some? then Some(front.value + [last.value])
      else
        assert forall k :: 0 <= k < |saved| - 1 ==> saved[..|saved| - 1][k] == saved[k];
        None
  }

  /** `from_dict`: a fresh engine with the saved counters (0 when absent)
      and the saved elites appended in order. */
  function FromDict(d: Saved, populationSize: int, gauss: seq<real>): (r: Option<ColonyBrain>)
    requires |gauss| == TotalWeights
    ensures r.Some? <==> LoadElites(Get(d.eliteBrains, [])).Some?
    ensures r.Some? ==>
              && r.value.generation == Get(d.generation, 0)
              && r.value.totalFood == Get(d.totalFood, 0) && r.value.totalTrips == Get(d.totalTrips, 0)
              && r.value.bestFitness == Get(d.bestFitness, 0.0)
              && |r.value.elites| == |Get(d.eliteBrains, [])|
  {
    match LoadElites(Get(d.eliteBrains, []))
    case None => None
    case Some(es) =>
      Some(New(populationSize, gauss).(generation := Get(d.generation, 0),
                                       totalFood := Get(d.totalFood, 0),
                                       totalTrips := Get(d.totalTrips, 0),
                                       bestFitness := Get(d.bestFitness, 0.0),
                                       elites := es))
  }

  /** Saving and loading restores the generation, the totals, the best
      fitness, and every elite's weights and fitness in pool order. */
  lemma SaveRoundTrip(cb: ColonyBrain, populationSize: int, gauss: seq<real>)
    requires |gauss| == TotalWeights
    requires forall k :: 0 <= k < |cb.elites| ==> Valid(cb.elites[k].network)
    ensures var r := FromDict(ToDict(cb), populationSize, gauss);
      && r.Some?
      && r.value.generation == cb.generation
      && r.value.totalFood == cb.totalFood && r.value.totalTrips == cb.totalTrips
      && r.value.bestFitness == cb.bestFitness
      && |r.value.elites| == |cb.elites|
      && forall k :: 0 <= k < |cb.elites| ==>
           r.value.elites[k].network == cb.elites[k].network
           && r.value.elites[k].fitness == cb.elites[k].fitness
  {
    var saved := ToDict(cb).eliteBrains.value;
    assert forall k :: 0 <= k < |saved| ==> LoadElite(saved[k]).Some?;
  }
}
