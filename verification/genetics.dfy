/** The gene record and fitness score of `src/genetics.py`: five real genes
    bred by averaging, mutated by bounded random steps and clamped into
    fixed ranges, and a fitness formula that is never negative. */
module Genetics {
  import opened Common

  datatype Genes = Genes(speed: real, sensitivity: real, exploration: real, strength: real, efficiency: real)

  /** The range `_clamp_genes` keeps each gene in. */
  const SpeedRange: (real, real) := (1.0, 4.0)
  const SensitivityRange: (real, real) := (0.01, 0.5)
  const ExplorationRange: (real, real) := (0.05, 0.4)
  const StrengthRange: (real, real) := (0.5, 3.0)
  const EfficiencyRange: (real, real) := (0.005, 0.02)

  /** The largest step `_mutate` takes on each gene. */
  const SpeedStep: real := 0.2
  const SensitivityStep: real := 0.05
  const ExplorationStep: real := 0.05
  const StrengthStep: real := 0.3
  const EfficiencyStep: real := 0.002
  const MutationRate: real := 0.15
  /** Half-width of the noise `_crossover` adds to the parents' mean. */
  const CrossoverNoise: real := 0.1

  predicate Within(v: real, range: (real, real))
  {
    range.0 <= v <= range.1
  }

  predicate InRange(g: Genes)
  {
    && Within(g.speed, SpeedRange)
    && Within(g.sensitivity, SensitivityRange)
    && Within(g.exploration, ExplorationRange)
    && Within(g.strength, StrengthRange)
    && Within(g.efficiency, EfficiencyRange)
  }

  /** `max(lo, min(hi, v))`. */
  function ClampGene(v: real, range: (real, real)): (r: real)
    requires range.0 <= range.1
    ensures Within(r, range)
    ensures Within(v, range) ==> r == v
    ensures v < range.0 ==> r == range.0
    ensures v > range.1 ==> r == range.1
  {
    Max(range.0, Min(range.1, v))
  }

  /** `_clamp_genes`. */
  function ClampGenes(g: Genes): (r: Genes)
    ensures InRange(r)
    ensures InRange(g) ==> r == g
  {
    Genes(ClampGene(g.speed, SpeedRange), ClampGene(g.sensitivity, SensitivityRange),
          ClampGene(g.exploration, ExplorationRange), ClampGene(g.strength, StrengthRange),
          ClampGene(g.efficiency, EfficiencyRange))
  }

  /** Clamping twice is clamping once. */
  lemma ClampIdempotent(g: Genes)
    ensures ClampGenes(ClampGenes(g)) == ClampGenes(g)
  {
  }

  /** `_crossover`: the parents' mean plus the drawn noise. */
  function CrossGene(a: real, b: real, noise: real): (r: real)
    ensures -CrossoverNoise <= noise <= CrossoverNoise ==> Abs(r - (a + b) / 2.0) <= CrossoverNoise
    ensures Min(a, b) <= r - noise <= Max(a, b)
  {
    (a + b) / 2.0 + noise
  }

  /** One `random() < 0.15` test and the step drawn for one gene. */
  datatype Mutation = Mutation(chance: real, step: real)

  function MutateGene(v: real, mu: Mutation): (r: real)
    ensures mu.chance >= MutationRate ==> r == v
    ensures Abs(r - v) <= Abs(mu.step)
  {
    if mu.chance < MutationRate then v + mu.step else v
  }

  datatype Mutations = Mutations(speed: Mutation, sensitivity: Mutation, exploration: Mutation,
                                 strength: Mutation, efficiency: Mutation)

  /** Every drawn step lies within its gene's bound. */
  predicate StepsBounded(ms: Mutations)
  {
    && Abs(ms.speed.step) <= SpeedStep
    && Abs(ms.sensitivity.step) <= SensitivityStep
    && Abs(ms.exploration.step) <= ExplorationStep
    && Abs(ms.strength.step) <= StrengthStep
    && Abs(ms.efficiency.step) <= EfficiencyStep
  }

  /** `_mutate`. */
  function Mutate(g: Genes, ms: Mutations): (r: Genes)
    ensures StepsBounded(ms) ==>
      && Abs(r.speed - g.speed) <= SpeedStep
      && Abs(r.sensitivity - g.sensitivity) <= SensitivityStep
      && Abs(r.exploration - g.exploration) <= ExplorationStep
      && Abs(r.strength - g.strength) <= StrengthStep
      && Abs(r.efficiency - g.efficiency) <= EfficiencyStep
  {
    Genes(MutateGene(g.speed, ms.speed), MutateGene(g.sensitivity, ms.sensitivity),
          MutateGene(g.exploration, ms.exploration), MutateGene(g.strength, ms.strength),
          MutateGene(g.efficiency, ms.efficiency))
  }

  /** Draws all above the rate leave every gene alone. */
  lemma NoMutationKeeps(g: Genes, ms: Mutations)
    requires ms.speed.chance >= MutationRate && ms.sensitivity.chance >= MutationRate
    requires ms.exploration.chance >= MutationRate && ms.strength.chance >= MutationRate
    requires ms.efficiency.chance >= MutationRate
    ensures Mutate(g, ms) == g
  {
  }

  /** The five uniform draws of a parentless construction, and the five
      crossover noises of a bred one. */
  datatype Draws = Draws(initial: Genes, noise: Genes, mutations: Mutations)

  /** `AntGenes.__init__`: bred from two parents (gene-wise mean plus noise)
      or drawn at random, then mutated and clamped. */
  function NewGenes(parents: Option<(Genes, Genes)>, d: Draws): (r: Genes)
    ensures InRange(r)
  {
    var base := match parents
      case Some((p1, p2)) =>
        Genes(CrossGene(p1.speed, p2.speed, d.noise.speed),
              CrossGene(p1.sensitivity, p2.sensitivity, d.noise.sensitivity),
              CrossGene(p1.exploration, p2.exploration, d.noise.exploration),
              CrossGene(p1.strength, p2.strength, d.noise.strength),
              CrossGene(p1.efficiency, p2.efficiency, d.noise.efficiency))
      case None => d.initial;
    ClampGenes(Mutate(base, d.mutations))
  }

  /** `copy`: a fresh random record whose five genes are then overwritten,
      so the copy equals the original whatever the fresh record drew. */
  function Copy(g: Genes, d: Draws): (r: Genes)
    ensures r == g
  {
    var blank := NewGenes(None, d);
    blank.(speed := g.speed, sensitivity := g.sensitivity, exploration := g.exploration,
           strength := g.strength, efficiency := g.efficiency)
  }

  /** Two parents with the same genes, no noise and no mutation breed a
      child with those genes. */
  lemma BreedIdentical(g: Genes, d: Draws)
    requires InRange(g)
    requires d.noise == Genes(0.0, 0.0, 0.0, 0.0, 0.0)
    requires d.mutations.speed.chance >= MutationRate && d.mutations.sensitivity.chance >= MutationRate
    requires d.mutations.exploration.chance >= MutationRate && d.mutations.strength.chance >= MutationRate
    requires d.mutations.efficiency.chance >= MutationRate
    ensures NewGenes(Some((g, g)), d) == g
  {
  }

  // ---------------------------------------------------------------- fitness

  datatype Tracker = Tracker(
    foodCollected: int,
    energySpent: real,
    lifetime: int,
    successfulTrips: int,
    wallHits: int,
    distanceTraveled: real,
    timeStuck: real,
    foodDiscoveryTime: real)

  /** The speed bonus: half of `max(0, 100 - average trip time)`, only when
      there are trips and a recorded discovery time. */
  function SpeedBonus(t: Tracker): (b: real)
    ensures b >= 0.0
    ensures !(t.successfulTrips > 0 && t.foodDiscoveryTime > 0.0) ==> b == 0.0
    ensures b < 50.0
  {
    if t.successfulTrips > 0 && t.foodDiscoveryTime > 0.0 then
      var avg := t.foodDiscoveryTime / t.successfulTrips as real;
      PositiveQuotient(t.foodDiscoveryTime, t.successfulTrips as real);
      Max(0.0, 100.0 - avg) * 0.5
    else 0.0
  }

  lemma PositiveQuotient(a: real, b: real)
    requires a > 0.0 && b > 0.0
    ensures a / b > 0.0
  {
  }

  /** The efficiency term: food per unit of energy, the energy taken as at
      least 1. */
  function EfficiencyScore(t: Tracker): real
  {
    (t.foodCollected as real / Max(1.0, t.energySpent)) * 50.0
  }

  /** With the divisor at least 1 the efficiency term never exceeds 50 per
      unit of food, and is never negative for a non-negative count. */
  lemma EfficiencyBounded(t: Tracker)
    requires t.foodCollected >= 0
    ensures 0.0 <= EfficiencyScore(t) <= t.foodCollected as real * 50.0
  {
    var f := t.foodCollected as real;
    var q := Max(1.0, t.energySpent);
    assert f / q <= f by {
      if f > 0.0 {
        assert f / q * q == f;
        QuotientAtMost(f, q);
      }
    }
  }

  lemma QuotientAtMost(f: real, q: real)
    requires f > 0.0 && q >= 1.0
    ensures 0.0 <= f / q <= f
  {
    assert f / q * q == f;
    if f / q > f {
      MulMonotone(f, f / q, q);
      MulMonotone(1.0, q, f);
    }
  }

  /** The raw score before the floor at 0. */
  function RawFitness(t: Tracker): real
  {
    t.foodCollected as real * 15.0 + EfficiencyScore(t) + t.lifetime as real * 0.01
    + t.successfulTrips as real * 20.0 + t.distanceTraveled * 0.01 + SpeedBonus(t)
    - t.wallHits as real * 5.0 - t.timeStuck * 0.5
  }

  /** `calculate_fitness`: the raw score, floored at 0. */
  function Fitness(t: Tracker): (f: real)
    ensures f >= 0.0
    ensures f >= RawFitness(t)
    ensures RawFitness(t) > 0.0 ==> f == RawFitness(t)
    ensures RawFitness(t) <= 0.0 ==> f == 0.0
  {
    Max(0.0, RawFitness(t))
  }

  /** One more wall hit never raises the fitness. */
  lemma WallHitNeverHelps(t: Tracker)
    ensures Fitness(t.(wallHits := t.wallHits + 1)) <= Fitness(t)
  {
    assert SpeedBonus(t.(wallHits := t.wallHits + 1)) == SpeedBonus(t);
    assert EfficiencyScore(t.(wallHits := t.wallHits + 1)) == EfficiencyScore(t);
  }

  /** A faster discovery time never lowers the speed bonus. */
  lemma FasterNeverHurts(t: Tracker, faster: real)
    requires 0.0 < faster <= t.foodDiscoveryTime
    ensures SpeedBonus(t.(foodDiscoveryTime := faster)) >= SpeedBonus(t)
  {
    if t.successfulTrips > 0 {
      var n := t.successfulTrips as real;
      DivMonotone(faster, t.foodDiscoveryTime, n);
    }
  }

  lemma DivMonotone(a: real, b: real, n: real)
    requires a <= b && n > 0.0
    ensures a / n <= b / n
  {
    assert b / n - a / n == (b - a) / n;
  }
}
