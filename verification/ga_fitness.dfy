/**
 * The fitness side of the genetic algorithm: population statistics, the
 * re-baselining of fitness values, the four scaling schemes and roulette
 * wheel selection. Every function here works on the population as
 * `Epoch` leaves it after sorting.
 */
module GAFitness {
  import opened Wrappers
  import opened AIUtils
  import opened Genomes

  /** `double.MaxValue`, the start value of every "lowest so far" search. */
  const DoubleMax: real := 1.7976931348623157e308

  /** `FitnessScallingType`. */
  datatype FitnessScaling = Ranking | Sigma | Boltzmann | NoneUnsigned

  /**
   * Where the program would divide by zero in floating point and carry on
   * with infinite or NaN fitness values, the model stops with this error.
   */
  datatype ScalingError = NonFiniteFitness

  function Abs(x: real): real {
    if x < 0.0 then -x else x
  }

  /** The pair with its genome's fitness replaced. */
  function WithFitness(p: GenomePair, f: real): (q: GenomePair)
    ensures q.id == p.id && q.genome.weights == p.genome.weights && q.genome.fitness == f
  {
    GenomePair(p.id, Genome(p.genome.weights, f))
  }

  /** Only the fitness values differ between `a` and `b`. */
  predicate SameGenes(a: seq<GenomePair>, b: seq<GenomePair>) {
    |a| == |b| && forall i :: 0 <= i < |a| ==> a[i].id == b[i].id && a[i].genome.weights == b[i].genome.weights
  }

  predicate NonNegativeFitness(s: seq<GenomePair>) {
    forall i :: 0 <= i < |s| ==> s[i].genome.fitness >= 0.0
  }

  /** Σ fitness, accumulated front to back as the program's loops do. */
  function SumFitness(s: seq<GenomePair>): real {
    if |s| == 0 then 0.0 else SumFitness(s[..|s| - 1]) + s[|s| - 1].genome.fitness
  }

  lemma {:induction false} SumFitnessNonNegative(s: seq<GenomePair>)
    requires NonNegativeFitness(s)
    ensures SumFitness(s) >= 0.0
    decreases |s|
  {
    if |s| > 0 {
      SumFitnessNonNegative(s[..|s| - 1]);
    }
  }

  lemma SumFitnessSnoc(s: seq<GenomePair>, n: nat)
    requires n < |s|
    ensures SumFitness(s[..n + 1]) == SumFitness(s[..n]) + s[n].genome.fitness
  {
    assert s[..n + 1][..n] == s[..n];
  }

  // ---------------------------------------------------------------------
  // Statistics
  // ---------------------------------------------------------------------

  /** The running maximum of the fitness values, starting from `h` and replaced only by a larger value. */
  function Highest(s: seq<GenomePair>, h: real): (r: real)
    ensures r >= h && forall i :: 0 <= i < |s| ==> s[i].genome.fitness <= r
    ensures r == h || exists i :: 0 <= i < |s| && s[i].genome.fitness == r
    decreases |s|
  {
    if |s| == 0 then h
    else
      var r := Highest(s[1..], if s[0].genome.fitness > h then s[0].genome.fitness else h);
      assert forall i :: 1 <= i < |s| ==> s[i] == s[1..][i - 1];
      r
  }

  /** The running minimum of the fitness values, starting from `l` and replaced only by a smaller value. */
  function Lowest(s: seq<GenomePair>, l: real): (r: real)
    ensures r <= l && forall i :: 0 <= i < |s| ==> r <= s[i].genome.fitness
    ensures r == l || exists i :: 0 <= i < |s| && s[i].genome.fitness == r
    decreases |s|
  {
    if |s| == 0 then l
    else
      var r := Lowest(s[1..], if s[0].genome.fitness < l then s[0].genome.fitness else l);
      assert forall i :: 1 <= i < |s| ==> s[i] == s[1..][i - 1];
      r
  }

  datatype Stats = Stats(total: real, best: real, worst: real, average: real)

  /**
   * `CalculateFitnesses`: the total, the best fitness (never below 0, the
   * start value of its search), the worst fitness (never above
   * `double.MaxValue`), and the average over the configured population size.
   */
  function CalculateFitnesses(s: seq<GenomePair>, populationSize: nat): (st: Stats)
    requires populationSize >= 1
    ensures st.total == SumFitness(s) && st.average == st.total / populationSize as real
    ensures st.best >= 0.0 && forall i :: 0 <= i < |s| ==> s[i].genome.fitness <= st.best
    ensures st.best == 0.0 || exists i :: 0 <= i < |s| && s[i].genome.fitness == st.best
    ensures st.worst <= DoubleMax && forall i :: 0 <= i < |s| ==> st.worst <= s[i].genome.fitness
    ensures st.worst == DoubleMax || exists i :: 0 <= i < |s| && s[i].genome.fitness == st.worst
  {
    var total := SumFitness(s);
    Stats(total, Highest(s, 0.0), Lowest(s, DoubleMax), total / populationSize as real)
  }

  // ---------------------------------------------------------------------
  // Scaling
  // ---------------------------------------------------------------------

  /**
   * The first step of `ScaleFitnesses`: every fitness is moved down by the
   * worst one (by adding its magnitude when it is negative).
   */
  function Rebaseline(s: seq<GenomePair>, worst: real): (r: seq<GenomePair>)
    ensures SameGenes(r, s)
    ensures forall i :: 0 <= i < |s| ==> r[i].genome.fitness == s[i].genome.fitness - worst
  {
    if worst < 0.0 then seq(|s|, i requires 0 <= i < |s| => WithFitness(s[i], s[i].genome.fitness + Abs(worst)))
    else seq(|s|, i requires 0 <= i < |s| => WithFitness(s[i], s[i].genome.fitness - worst))
  }

  /** `ScaleFitnessRanking`: each fitness becomes its position in the sorted population. */
  function RankingScale(s: seq<GenomePair>): (r: seq<GenomePair>)
    ensures SameGenes(r, s) && NonNegativeFitness(r) && SortedByFitness(r)
    ensures forall i :: 0 <= i < |s| ==> r[i].genome.fitness == i as real
  {
    seq(|s|, i requires 0 <= i < |s| => WithFitness(s[i], i as real))
  }

  /** 2 · (0 + 1 + ... + (n - 1)) == n · (n - 1), one step at a time. */
  lemma TriangleStep(n: nat)
    requires n >= 1
    ensures n * (n - 1) == (n - 1) * (n - 2) + 2 * (n - 1)
  {
    var m := n - 1;
    assert n * (n - 1) == (m + 1) * m;
    assert (m + 1) * m == m * m + m;
    assert m * (m - 1) == m * m - m;
  }

  /** The ranking total is 0 + 1 + ... + (n - 1). */
  lemma {:induction false} RankingTotal(s: seq<GenomePair>)
    ensures 2.0 * SumFitness(RankingScale(s)) == (|s| * (|s| - 1)) as real
    decreases |s|
  {
    if |s| > 0 {
      var n := |s|;
      var r := RankingScale(s);
      var r' := RankingScale(s[..n - 1]);
      assert r[..n - 1] == r' by {
        forall i | 0 <= i < n - 1
          ensures r[..n - 1][i] == r'[i]
        {
          assert s[..n - 1][i] == s[i];
        }
      }
      RankingTotal(s[..n - 1]);
      TriangleStep(n);
      assert SumFitness(r) == SumFitness(r') + (n - 1) as real;
    }
  }

  /** The Boltzmann temperature after one step down, floored at the minimum. */
  function CoolDown(temperature: real, step: real, minimum: real): (t: real)
    ensures t >= minimum
    ensures t == minimum || t == temperature - step
    ensures temperature - step >= minimum ==> t == temperature - step
  {
    var t := temperature - step;
    if t < minimum then minimum else t
  }

  /** `f`'s share of the total fitness, scaled by the population size. */
  function Share(f: real, total: real, n: real): real
    requires total != 0.0
  {
    f * n / total
  }

  /**
   * `ScaleFitnessBoltzmann` with the cooled temperature `t`: each fitness
   * `f` becomes `(f / t) / ((total / populationSize) / t)`. The temperature
   * cancels out: the scaled fitness is the pair's share of the total times
   * the population size.
   */
  function BoltzmannScale(s: seq<GenomePair>, total: real, t: real, populationSize: nat): (r: Result<seq<GenomePair>, ScalingError>)
    requires populationSize >= 1
    ensures r.Failure? <==> |s| > 0 && (t == 0.0 || total == 0.0)
    ensures r.Success? ==> SameGenes(r.value, s)
    ensures r.Success? && |s| > 0 ==> total != 0.0 && forall i :: 0 <= i < |s| ==>
      r.value[i].genome.fitness == Share(s[i].genome.fitness, total, populationSize as real)
  {
    if |s| > 0 && (t == 0.0 || total == 0.0) then Failure(NonFiniteFitness)
    else if |s| == 0 then Success([])
    else
      var divider := (total / populationSize as real) / t;
      QuotientsNonZero(total, populationSize as real, t);
      var r := seq(|s|, i requires 0 <= i < |s| => WithFitness(s[i], (s[i].genome.fitness / t) / divider));
      BoltzmannCancels(s, total, t, populationSize as real, r);
      Success(r)
  }

  lemma QuotientsNonZero(a: real, b: real, c: real)
    requires a != 0.0 && b != 0.0 && c != 0.0
    ensures a / b != 0.0 && (a / b) / c != 0.0
  {
    var q := a / b;
    assert q * b == a;
    var q' := q / c;
    assert q' * c == q;
  }

  lemma BoltzmannCancels(s: seq<GenomePair>, total: real, t: real, n: real, r: seq<GenomePair>)
    requires t != 0.0 && total != 0.0 && n != 0.0 && (total / n) / t != 0.0
    requires |r| == |s| && forall i :: 0 <= i < |s| ==> r[i].genome.fitness == (s[i].genome.fitness / t) / ((total / n) / t)
    ensures forall i :: 0 <= i < |s| ==> r[i].genome.fitness == Share(s[i].genome.fitness, total, n)
  {
    forall i | 0 <= i < |s|
      ensures r[i].genome.fitness == Share(s[i].genome.fitness, total, n)
    {
      BoltzmannIdentity(s[i].genome.fitness, total, t, n);
    }
  }

  /** `(f / t) / ((total / n) / t) == f * n / total` for non-zero `t`, `total` and `n`. */
  lemma BoltzmannIdentity(f: real, total: real, t: real, n: real)
    requires t != 0.0 && total != 0.0 && n != 0.0
    ensures (total / n) / t != 0.0
    ensures (f / t) / ((total / n) / t) == f * n / total
  {
    QuotientsNonZero(total, n, t);
    var x := f / t;
    var avg := total / n;
    var d := avg / t;
    assert x * t == f;
    assert avg * n == total;
    assert d * t == avg;
    var q := x / d;
    assert q * d == x;
    var lhs := f * n / total;
    assert lhs * total == f * n;
    assert q * total == (q * d) * (t * n);
    assert (q - lhs) * total == 0.0;
  }

  /** Σ (f - average)², accumulated front to back. */
  function SquaredDeviations(s: seq<GenomePair>, average: real): (r: real)
    ensures r >= 0.0
  {
    if |s| == 0 then 0.0
    else
      var d := s[|s| - 1].genome.fitness - average;
      SquaredDeviations(s[..|s| - 1], average) + d * d
  }

  /** `Math.Sqrt` is a parameter: the non-negative square root on non-negative arguments. */
  ghost predicate IsSqrt(sqrt: real -> real) {
    forall x :: x >= 0.0 ==> sqrt(x) >= 0.0 && sqrt(x) * sqrt(x) == x
  }

  /** The standard deviation around `average` (not necessarily the mean of `s`). */
  function Deviation(s: seq<GenomePair>, average: real, sqrt: real -> real): (sigma: real)
    requires |s| > 0 && IsSqrt(sqrt)
    ensures sigma >= 0.0 && sigma * sigma * |s| as real == SquaredDeviations(s, average)
  {
    var variance := SquaredDeviations(s, average) / |s| as real;
    assert variance * |s| as real == SquaredDeviations(s, average);
    sqrt(variance)
  }

  /** `(f - c) / k`: how far `f` lies from `c`, in units of `k`. */
  function Standard(f: real, c: real, k: real): real
    requires k != 0.0
  {
    (f - c) / k
  }

  /** Dividing by a positive unit keeps the order. */
  lemma StandardMonotone(a: real, b: real, c: real, k: real)
    requires a <= b && k > 0.0
    ensures Standard(a, c, k) <= Standard(b, c, k)
  {
    DivideMonotone(a - c, b - c, k);
  }

  /** Each fitness `f` replaced by `Standard(f, c, k)`. */
  function Standardise(s: seq<GenomePair>, c: real, k: real): (r: seq<GenomePair>)
    requires k != 0.0
    ensures SameGenes(r, s)
    ensures forall i :: 0 <= i < |s| ==> r[i].genome.fitness == Standard(s[i].genome.fitness, c, k)
  {
    seq(|s|, i requires 0 <= i < |s| => WithFitness(s[i], Standard(s[i].genome.fitness, c, k)))
  }

  /** Each fitness raised by `d`. */
  function Raise(s: seq<GenomePair>, d: real): (r: seq<GenomePair>)
    ensures SameGenes(r, s)
    ensures forall i :: 0 <= i < |s| ==> r[i].genome.fitness == s[i].genome.fitness + d
  {
    seq(|s|, i requires 0 <= i < |s| => WithFitness(s[i], s[i].genome.fitness + d))
  }

  /** Scaled values, their total, the standard deviation and the shift applied to clear negatives. */
  datatype SigmaResult = SigmaResult(population: seq<GenomePair>, total: real, sigma: real, shift: real)

  /**
   * `ScaleFitnessSigma`: the deviation of each fitness from `average` (the
   * average computed before re-baselining) over twice the standard
   * deviation around that same average; then, if any value is negative,
   * all are raised by the magnitude of the lowest.
   */
  function SigmaScale(s: seq<GenomePair>, average: real, sqrt: real -> real): (r: Result<SigmaResult, ScalingError>)
    requires IsSqrt(sqrt)
    ensures r.Failure? <==> |s| == 0 || Deviation(s, average, sqrt) == 0.0
    ensures r.Success? ==> r.value.sigma == Deviation(s, average, sqrt) && r.value.sigma > 0.0
    ensures r.Success? ==> SameGenes(r.value.population, s) && r.value.shift >= 0.0
    ensures r.Success? ==> NonNegativeFitness(r.value.population) && r.value.total == SumFitness(r.value.population)
    ensures r.Success? ==> forall i :: 0 <= i < |s| ==>
      r.value.population[i].genome.fitness == Standard(s[i].genome.fitness, average, 2.0 * r.value.sigma) + r.value.shift
  {
    if |s| == 0 then Failure(NonFiniteFitness)
    else
      var sigma := Deviation(s, average, sqrt);
      if sigma == 0.0 then Failure(NonFiniteFitness)
      else
        var z := Standardise(s, average, 2.0 * sigma);
        var lowest := Lowest(z, DoubleMax);
        if lowest < 0.0 then
          var p := Raise(z, Abs(lowest));
          Success(SigmaResult(p, SumFitness(p), sigma, Abs(lowest)))
        else
          Success(SigmaResult(z, SumFitness(z), sigma, 0.0))
  }

  /** The population after `ScaleFitnesses`, with the roulette total and the scheme's state. */
  datatype Scaled = Scaled(population: seq<GenomePair>, rouletteTotal: real, temperature: real, sigma: real)

  /** The re-baselined population and its roulette total, before the scheme runs. */
  function Baseline(s: seq<GenomePair>, st: Stats): (res: (seq<GenomePair>, real))
    ensures SameGenes(res.0, s)
  {
    if st.worst != st.best then
      var r := Rebaseline(s, st.worst);
      (r, SumFitness(r))
    else (s, st.total)
  }

  /**
   * After the first step of `ScaleFitnesses` no fitness is negative and the
   * roulette total is their sum: either every fitness was moved down by the
   * worst, or the worst equals the best and every fitness is that value,
   * which is not negative.
   */
  lemma BaselineReady(s: seq<GenomePair>, populationSize: nat)
    requires populationSize >= 1
    ensures var b := Baseline(s, CalculateFitnesses(s, populationSize));
      NonNegativeFitness(b.0) && b.1 == SumFitness(b.0)
  {
    var st := CalculateFitnesses(s, populationSize);
    if st.worst == st.best {
      assert forall i :: 0 <= i < |s| ==> st.worst <= s[i].genome.fitness <= st.best;
    }
  }

  /** Re-baselining keeps the order. */
  lemma BaselineKeepsOrder(s: seq<GenomePair>, st: Stats)
    requires SortedByFitness(s)
    ensures SortedByFitness(Baseline(s, st).0)
  {
  }

  /**
   * `ScaleFitnesses`: re-baseline unless the worst fitness equals the best,
   * then apply the configured scheme (none for `NoneUnsigned`).
   */
  function ScaleFitnesses(s: seq<GenomePair>, st: Stats, scaling: FitnessScaling, temperature: real, step: real,
                          minTemperature: real, sigma: real, populationSize: nat, sqrt: real -> real): (r: Result<Scaled, ScalingError>)
    requires populationSize >= 1 && IsSqrt(sqrt)
    ensures r.Failure? ==> scaling == Boltzmann || scaling == Sigma
    ensures r.Success? ==> SameGenes(r.value.population, s)
    ensures r.Success? && scaling != Boltzmann ==> r.value.temperature == temperature
    ensures r.Success? && scaling == Boltzmann ==> r.value.temperature == CoolDown(temperature, step, minTemperature)
    ensures r.Success? && scaling != Sigma ==> r.value.sigma == sigma
    ensures r.Success? && scaling == Ranking ==> forall i :: 0 <= i < |s| ==> r.value.population[i].genome.fitness == i as real
    ensures r.Success? && scaling == NoneUnsigned && st.worst != st.best ==>
      forall i :: 0 <= i < |s| ==> r.value.population[i].genome.fitness == s[i].genome.fitness - st.worst
    ensures r.Success? && scaling == NoneUnsigned && st.worst == st.best ==> r.value.population == s
  {
    var (base, total) := Baseline(s, st);
    match scaling
    case Ranking =>
      var ranked := RankingScale(base);
      Success(Scaled(ranked, SumFitness(ranked), temperature, sigma))
    case Boltzmann =>
      var t := CoolDown(temperature, step, minTemperature);
      var scaled :- BoltzmannScale(base, total, t, populationSize);
      Success(Scaled(scaled, SumFitness(scaled), t, sigma))
    case Sigma =>
      var res :- SigmaScale(base, st.average, sqrt);
      Success(Scaled(res.population, res.total, temperature, res.sigma))
    case NoneUnsigned =>
      Success(Scaled(base, total, temperature, sigma))
  }

  /** Boltzmann scaling of non-negative values leaves them non-negative and keeps their order. */
  lemma BoltzmannReady(s: seq<GenomePair>, total: real, t: real, populationSize: nat)
    requires populationSize >= 1 && NonNegativeFitness(s) && total == SumFitness(s)
    ensures var r := BoltzmannScale(s, total, t, populationSize);
      r.Success? ==> NonNegativeFitness(r.value) && (SortedByFitness(s) ==> SortedByFitness(r.value))
  {
    var r := BoltzmannScale(s, total, t, populationSize);
    if r.Success? && |s| > 0 {
      SumFitnessNonNegative(s);
      var n := populationSize as real;
      forall i | 0 <= i < |s|
        ensures r.value[i].genome.fitness >= 0.0
      {
        ShareMonotone(0.0, s[i].genome.fitness, n, total);
      }
      if SortedByFitness(s) {
        forall i, j | 0 <= i < j < |s|
          ensures r.value[i].genome.fitness <= r.value[j].genome.fitness
        {
          ShareMonotone(s[i].genome.fitness, s[j].genome.fitness, n, total);
        }
      }
    }
  }

  lemma ShareMonotone(a: real, b: real, n: real, total: real)
    requires a <= b && n > 0.0 && total > 0.0
    ensures Share(a, total, n) <= Share(b, total, n)
  {
    assert a * n <= b * n;
    DivideMonotone(a * n, b * n, total);
  }

  lemma DivideMonotone(a: real, b: real, d: real)
    requires a <= b && d > 0.0
    ensures a / d <= b / d
  {
    var qa := a / d;
    var qb := b / d;
    assert qa * d == a && qb * d == b;
    assert (qb - qa) * d == b - a;
  }

  /** Sigma scaling keeps the order. */
  lemma SigmaKeepsOrder(s: seq<GenomePair>, average: real, sqrt: real -> real)
    requires IsSqrt(sqrt) && SortedByFitness(s)
    ensures var r := SigmaScale(s, average, sqrt); r.Success? ==> SortedByFitness(r.value.population)
  {
    var r := SigmaScale(s, average, sqrt);
    if r.Success? {
      ShiftedStandardInOrder(r.value.population, s, average, 2.0 * r.value.sigma, r.value.shift);
    }
  }

  /** Standardising and shifting every fitness by the same amounts keeps a sorted population sorted. */
  lemma ShiftedStandardInOrder(p: seq<GenomePair>, s: seq<GenomePair>, c: real, k: real, shift: real)
    requires SortedByFitness(s) && k > 0.0 && |p| == |s|
    requires forall i :: 0 <= i < |s| ==> p[i].genome.fitness == Standard(s[i].genome.fitness, c, k) + shift
    ensures SortedByFitness(p)
  {
    forall i, j | 0 <= i < j < |p|
      ensures p[i].genome.fitness <= p[j].genome.fitness
    {
      StandardMonotone(s[i].genome.fitness, s[j].genome.fitness, c, k);
    }
  }

  /**
   * Whatever the scheme, a successful scaling of a population whose
   * statistics were just computed leaves no negative fitness and a roulette
   * total equal to the sum of the fitness values: what roulette selection
   * needs in order never to come back empty-handed. Scaling also keeps the
   * population's order.
   */
  lemma ScalingReady(s: seq<GenomePair>, scaling: FitnessScaling, temperature: real, step: real,
                     minTemperature: real, sigma: real, populationSize: nat, sqrt: real -> real)
    requires populationSize >= 1 && IsSqrt(sqrt)
    ensures var st := CalculateFitnesses(s, populationSize);
      var r := ScaleFitnesses(s, st, scaling, temperature, step, minTemperature, sigma, populationSize, sqrt);
      r.Success? ==> (NonNegativeFitness(r.value.population) && r.value.rouletteTotal == SumFitness(r.value.population)
        && (SortedByFitness(s) ==> SortedByFitness(r.value.population)))
  {
    var st := CalculateFitnesses(s, populationSize);
    BaselineReady(s, populationSize);
    if SortedByFitness(s) {
      BaselineKeepsOrder(s, st);
    }
    ScaledReady(s, st, scaling, temperature, step, minTemperature, sigma, populationSize, sqrt);
  }

  /** Each scheme keeps a ready, ordered baseline ready and ordered. */
  lemma ScaledReady(s: seq<GenomePair>, st: Stats, scaling: FitnessScaling, temperature: real, step: real,
                    minTemperature: real, sigma: real, populationSize: nat, sqrt: real -> real)
    requires populationSize >= 1 && IsSqrt(sqrt)
    requires NonNegativeFitness(Baseline(s, st).0) && Baseline(s, st).1 == SumFitness(Baseline(s, st).0)
    ensures var r := ScaleFitnesses(s, st, scaling, temperature, step, minTemperature, sigma, populationSize, sqrt);
      r.Success? ==> (NonNegativeFitness(r.value.population) && r.value.rouletteTotal == SumFitness(r.value.population)
        && (SortedByFitness(Baseline(s, st).0) ==> SortedByFitness(r.value.population)))
  {
    var b := Baseline(s, st);
    match scaling
    case Boltzmann =>
      BoltzmannReady(b.0, b.1, CoolDown(temperature, step, minTemperature), populationSize);
    case Sigma =>
      if SortedByFitness(b.0) {
        SigmaKeepsOrder(b.0, st.average, sqrt);
      }
    case Ranking =>
    case NoneUnsigned =>
  }

  // ---------------------------------------------------------------------
  // Roulette wheel selection
  // ---------------------------------------------------------------------

  /** The fitness of the first `n` pairs. */
  function PrefixSum(s: seq<GenomePair>, n: nat): real
    requires n <= |s|
  {
    SumFitness(s[..n])
  }

  /** The running sum reaches `slice` for the first time at index `i`. */
  predicate FirstReaching(s: seq<GenomePair>, slice: real, i: nat) {
    i < |s| && PrefixSum(s, i + 1) >= slice
    && forall n :: 1 <= n <= i ==> PrefixSum(s, n) < slice
  }

  function RouletteFrom(s: seq<GenomePair>, i: nat, soFar: real, slice: real): (r: Option<nat>)
    requires i <= |s| && soFar == PrefixSum(s, i)
    requires forall n :: 1 <= n <= i ==> PrefixSum(s, n) < slice
    ensures r.Some? ==> FirstReaching(s, slice, r.value)
    ensures r.None? ==> forall n :: 1 <= n <= |s| ==> PrefixSum(s, n) < slice
    decreases |s| - i
  {
    if i == |s| then None
    else
      SumFitnessSnoc(s, i);
      var next := soFar + s[i].genome.fitness;
      if next >= slice then Some(i) else RouletteFrom(s, i + 1, next, slice)
  }

  /**
   * `GetChromoRoulette`: a slice of the roulette total drawn from [0, total);
   * the first pair whose running fitness sum reaches it, or none.
   */
  function Roulette(s: seq<GenomePair>, total: real, r: real): (res: Option<nat>)
    requires IsUnitDraw(r)
    ensures res.Some? ==> FirstReaching(s, Random(total, r), res.value)
    ensures res.None? ==> forall n :: 1 <= n <= |s| ==> PrefixSum(s, n) < Random(total, r)
  {
    assert s[..0] == [];
    RouletteFrom(s, 0, 0.0, Random(total, r))
  }

  /**
   * With no negative fitness and the total equal to the sum, the wheel
   * always selects a pair of a non-empty population.
   */
  lemma RouletteSelects(s: seq<GenomePair>, total: real, r: real)
    requires IsUnitDraw(r) && |s| >= 1
    requires NonNegativeFitness(s) && total == SumFitness(s)
    ensures Roulette(s, total, r).Some?
  {
    SumFitnessNonNegative(s);
    assert Random(total, r) <= total;
    assert s[..|s|] == s;
    assert PrefixSum(s, |s|) == total;
  }
}
