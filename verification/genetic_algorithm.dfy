/**
 * The genetic algorithm's state, its breeding operators (elitism, mutation,
 * single- and multi-point crossover) and `Epoch`, which turns a population
 * with fitness values into the next generation.
 */
module GeneticAlgorithm {
  import opened Wrappers
  import opened Text
  import opened AIUtils
  import opened Genomes
  import opened GAFitness

  /** The `AIParams` settings the algorithm reads. */
  datatype GAParams = GAParams(
    numElite: nat,
    numCopiesElite: nat,
    maxPerturbation: real,
    multiPointCrossover: bool,
    scaling: FitnessScaling,
    boltzmannTemperature: real,
    boltzmannTemperatureStep: real,
    boltzmannMinTemperature: real)

  /**
   * `IndexOutOfRange` stands for the `ArgumentOutOfRangeException` that
   * leaves `Epoch`; `NonFinite` for a scaling step that would divide by zero.
   */
  datatype GAError = IndexOutOfRange | NonFinite

  /** The fields of `GeneticAlgorithm`. */
  datatype GA = GA(
    population: seq<GenomePair>,
    populationSize: nat,
    populationCounter: nat,
    chromosomeLength: nat,
    totalFitness: real,
    rouletteTotal: real,
    bestFitness: real,
    averageFitness: real,
    worstFitness: real,
    sigma: real,
    mutationRate: real,
    crossoverRate: real,
    splitPoints: seq<int>,
    generation: nat,
    temperature: real)

  // ---------------------------------------------------------------------
  // Construction
  // ---------------------------------------------------------------------

  /** `count` unnamed genomes of `numWeights` clamped draws each, read genome after genome. */
  function InitialPopulation(g: Rng, count: nat, numWeights: nat): (p: seq<GenomePair>)
    requires g.Valid()
    ensures |p| == count
    ensures forall i :: 0 <= i < count ==>
      p[i].id == "" && p[i].genome.fitness == 0.0 && p[i].genome.weights == ClampedDraws(g.Skip(i * numWeights), numWeights)
    decreases count
  {
    if count == 0 then []
    else
      var i := count - 1;
      InitialPopulation(g, i, numWeights) + [GenomePair("", Genome(ClampedDraws(g.Skip(i * numWeights), numWeights), 0.0))]
  }

  /**
   * The constructor: `popSize` genomes of random weights in [-1, 1) with
   * fitness 0, the counter at `popSize`, best fitness 0, worst fitness
   * `double.MaxValue`, and the Boltzmann temperature from the settings.
   */
  function NewGA(popSize: nat, mutationRate: real, crossoverRate: real, numWeights: nat, splitPoints: seq<int>,
                 cfg: GAParams, g: Rng): (res: (GA, Rng))
    requires g.Valid()
    ensures var ga := res.0;
      |ga.population| == popSize && ga.populationSize == popSize && ga.populationCounter == popSize
      && ga.chromosomeLength == numWeights && ga.splitPoints == splitPoints && ga.generation == 0
      && ga.bestFitness == 0.0 && ga.worstFitness == DoubleMax && ga.temperature == cfg.boltzmannTemperature
    ensures forall i :: 0 <= i < popSize ==>
      (res.0.population[i].genome.fitness == 0.0 && |res.0.population[i].genome.weights| == numWeights
       && forall k :: 0 <= k < numWeights ==> -1.0 <= res.0.population[i].genome.weights[k] < 1.0)
    ensures res.1.Valid() && res.1.draw == g.draw && res.1.pos == g.pos + popSize * numWeights
  {
    var ga := GA(InitialPopulation(g, popSize, numWeights), popSize, popSize, numWeights, 0.0, 0.0, 0.0, 0.0, DoubleMax,
                 0.0, mutationRate, crossoverRate, splitPoints, 0, cfg.boltzmannTemperature);
    (ga, g.Skip(popSize * numWeights))
  }

  // ---------------------------------------------------------------------
  // Elitism
  // ---------------------------------------------------------------------

  /** `n` references to the same pair. */
  function Copies(p: GenomePair, n: nat): (r: seq<GenomePair>)
    ensures |r| == n && forall k :: 0 <= k < n ==> r[k] == p
  {
    seq(n, _ => p)
  }

  /** Reference definition: every pair of `xs`, in order, repeated `c` times. */
  function Repeat(xs: seq<GenomePair>, c: nat): (r: seq<GenomePair>)
    ensures |r| == |xs| * c
    decreases |xs|
  {
    if |xs| == 0 then [] else Copies(xs[0], c) + Repeat(xs[1..], c)
  }

  /** Position `j * c + m` of `Repeat(xs, c)` is the `j`-th pair. */
  lemma {:induction false} RepeatAt(xs: seq<GenomePair>, c: nat, j: nat, m: nat)
    requires j < |xs| && m < c
    ensures j * c + m < |Repeat(xs, c)| && Repeat(xs, c)[j * c + m] == xs[j]
    decreases j
  {
    if j > 0 {
      RepeatAt(xs[1..], c, j - 1, m);
      assert j * c + m == c + ((j - 1) * c + m);
    }
  }

  /** Every repeated pair comes from `xs`. */
  lemma {:induction false} RepeatFrom(xs: seq<GenomePair>, c: nat)
    ensures forall k :: 0 <= k < |Repeat(xs, c)| ==> Repeat(xs, c)[k] in xs
    decreases |xs|
  {
    if |xs| > 0 {
      RepeatFrom(xs[1..], c);
      var r := Repeat(xs, c);
      forall k | 0 <= k < |r|
        ensures r[k] in xs
      {
        if k >= c {
          assert r[k] == Repeat(xs[1..], c)[k - c];
        }
      }
    }
  }

  /**
   * The `while (NBest != 0)` loop of `GrabNBest` from `nBest` down: `numCopies`
   * references to `s[populationSize - 1 - n]` for n = nBest, ..., 1.
   */
  function EliteLoop(s: seq<GenomePair>, populationSize: nat, nBest: nat, numCopies: nat): (r: Result<seq<GenomePair>, GAError>)
    decreases nBest
  {
    if nBest == 0 then Success([])
    else
      var i := populationSize - 1 - nBest;
      if numCopies > 0 && !(0 <= i < |s|) then Failure(IndexOutOfRange)
      else
        var rest :- EliteLoop(s, populationSize, nBest - 1, numCopies);
        Success((if numCopies == 0 then [] else Copies(s[i], numCopies)) + rest)
  }

  lemma {:induction false} EliteLoopIsRepeat(s: seq<GenomePair>, populationSize: nat, nBest: nat, numCopies: nat)
    requires numCopies > 0 && nBest < populationSize && populationSize - 1 <= |s|
    ensures EliteLoop(s, populationSize, nBest, numCopies) == Success(Repeat(s[populationSize - 1 - nBest .. populationSize - 1], numCopies))
    decreases nBest
  {
    if nBest > 0 {
      EliteLoopIsRepeat(s, populationSize, nBest - 1, numCopies);
      var xs := s[populationSize - 1 - nBest .. populationSize - 1];
      assert xs[0] == s[populationSize - 1 - nBest];
      assert xs[1..] == s[populationSize - 1 - (nBest - 1) .. populationSize - 1];
    }
  }

  lemma {:induction false} EliteLoopFails(s: seq<GenomePair>, populationSize: nat, nBest: nat, numCopies: nat)
    requires numCopies > 0 && nBest > 0 && (nBest >= populationSize || populationSize - 1 > |s|)
    ensures EliteLoop(s, populationSize, nBest, numCopies).Failure?
    decreases nBest
  {
    var i := populationSize - 1 - nBest;
    if 0 <= i < |s| {
      EliteLoopFails(s, populationSize, nBest - 1, numCopies);
    }
  }

  lemma {:induction false} EliteLoopNoCopies(s: seq<GenomePair>, populationSize: nat, nBest: nat)
    ensures EliteLoop(s, populationSize, nBest, 0).Success? && EliteLoop(s, populationSize, nBest, 0).value == []
    decreases nBest
  {
    if nBest > 0 {
      EliteLoopNoCopies(s, populationSize, nBest - 1);
    }
  }

  /**
   * `GrabNBest`: `numCopies` references to each of the sorted pairs at
   * positions `populationSize - 1 - numElite` up to `populationSize - 2`, in
   * ascending order; the fittest pair, at `populationSize - 1`, is not among
   * them. An index outside the population fails.
   */
  function GrabNBest(s: seq<GenomePair>, populationSize: nat, numElite: nat, numCopies: nat): (r: Result<seq<GenomePair>, GAError>)
    ensures r.Success? <==> numElite == 0 || numCopies == 0 || (numElite < populationSize && populationSize - 1 <= |s|)
    ensures r.Success? && numElite > 0 && numCopies > 0 ==>
      r.value == Repeat(s[populationSize - 1 - numElite .. populationSize - 1], numCopies)
    ensures r.Success? ==> |r.value| == numElite * numCopies
  {
    if numCopies == 0 then
      EliteLoopNoCopies(s, populationSize, numElite);
      EliteLoop(s, populationSize, numElite, numCopies)
    else if numElite == 0 then
      EliteLoop(s, populationSize, numElite, numCopies)
    else if numElite < populationSize && populationSize - 1 <= |s| then
      EliteLoopIsRepeat(s, populationSize, numElite, numCopies);
      EliteLoop(s, populationSize, numElite, numCopies)
    else
      EliteLoopFails(s, populationSize, numElite, numCopies);
      EliteLoop(s, populationSize, numElite, numCopies)
  }

  /**
   * The fittest pair of a sorted population is copied by elitism only if
   * another pair shares its fitness value — never the pair itself at the
   * top position.
   */
  lemma EliteExcludesFittest(s: seq<GenomePair>, populationSize: nat, numElite: nat, numCopies: nat)
    requires |s| == populationSize && GrabNBest(s, populationSize, numElite, numCopies).Success?
    requires populationSize >= 1 && forall i :: 0 <= i < |s| - 1 ==> s[i] != s[|s| - 1]
    ensures s[|s| - 1] !in GrabNBest(s, populationSize, numElite, numCopies).value
  {
    var r := GrabNBest(s, populationSize, numElite, numCopies).value;
    if numElite > 0 && numCopies > 0 {
      var xs := s[populationSize - 1 - numElite .. populationSize - 1];
      RepeatFrom(xs, numCopies);
    }
  }

  /** The number of elite entries `Epoch` starts the new population with. */
  function EliteCount(cfg: GAParams): (e: nat)
    ensures e % 2 == 0
  {
    if (cfg.numCopiesElite * cfg.numElite) % 2 == 0 then cfg.numElite * cfg.numCopiesElite else 0
  }

  /**
   * `Epoch`'s elitism step: `GrabNBest` only when `NumCopiesElite * NumElite`
   * is even, otherwise no elites at all.
   */
  function Elitism(s: seq<GenomePair>, populationSize: nat, cfg: GAParams): (r: Result<seq<GenomePair>, GAError>)
    ensures r.Success? ==> |r.value| == EliteCount(cfg)
    ensures r.Success? && EliteCount(cfg) > 0 ==>
      cfg.numElite < populationSize && populationSize - 1 <= |s|
      && r.value == Repeat(s[populationSize - 1 - cfg.numElite .. populationSize - 1], cfg.numCopiesElite)
    ensures r.Failure? <==> EliteCount(cfg) > 0 && (cfg.numElite >= populationSize || populationSize - 1 > |s|)
  {
    if (cfg.numCopiesElite * cfg.numElite) % 2 == 0 then GrabNBest(s, populationSize, cfg.numElite, cfg.numCopiesElite)
    else Success([])
  }

  /** The elite block stays at the head of the population breeding extends it to. */
  lemma ElitesLead(scaled: seq<GenomePair>, n: nat, cfg: GAParams, elites: seq<GenomePair>, p: seq<GenomePair>)
    requires Elitism(scaled, n, cfg) == Success(elites)
    requires |elites| <= |p| && p[..|elites|] == elites
    ensures EliteCount(cfg) > 0 ==>
      cfg.numElite < n && n - 1 <= |scaled|
      && p[..EliteCount(cfg)] == Repeat(scaled[n - 1 - cfg.numElite .. n - 1], cfg.numCopiesElite)
  {
  }

  /** What `Continues` says about the part of the population that was there before. */
  lemma KeepsStart(b: Brood, r: Brood)
    requires Continues(b, r)
    ensures |b.population| <= |r.population| && r.population[..|b.population|] == b.population
    ensures r.counter >= b.counter && r.rng.draw == b.rng.draw
    ensures BredFrom(r.population, |b.population|, b.counter, r.counter)
  {
  }

  /** A population filled two at a time from an even elite count ends at the size rounded up to even. */
  lemma FilledLength(n: nat, e: nat, len: nat)
    requires e % 2 == 0
    requires e >= n ==> len == e
    requires e < n ==> n <= len <= n + 1 && (len - e) % 2 == 0
    ensures len == if e >= n then e else n + n % 2
  {
    if e < n {
      assert len % 2 == 0 by {
        assert len == (len - e) + e;
      }
    }
  }

  // ---------------------------------------------------------------------
  // Mutation
  // ---------------------------------------------------------------------

  lemma PerturbationBound(r: real, m: real)
    requires IsUnitDraw(r)
    ensures Abs(RandomClamped(r) * m) <= Abs(m)
  {
    var rm := r * m;
    ProductBounds(r, m, rm);
    var c := RandomClamped(r);
    assert c == 2.0 * r - 1.0;
    assert c * m == 2.0 * rm - m;
    DeviationBound(rm, m);
  }

  /** A value between 0 and `m`, doubled and shifted by `-m`, stays within `|m|` of 0. */
  lemma DeviationBound(rm: real, m: real)
    requires m >= 0.0 ==> 0.0 <= rm <= m
    requires m <= 0.0 ==> m <= rm <= 0.0
    ensures Abs(2.0 * rm - m) <= Abs(m)
  {
  }

  /** The change a mutated gene receives: `RandomClamped() * maxPerturbation`. */
  function Perturbation(r: real, maxPerturbation: real): (d: real)
    requires IsUnitDraw(r)
    ensures Abs(d) <= Abs(maxPerturbation)
  {
    PerturbationBound(r, maxPerturbation);
    RandomClamped(r) * maxPerturbation
  }

  /** One gene: a draw, and when it is below the rate a second draw that perturbs the gene. */
  function MutateGene(x: real, rate: real, maxPerturbation: real, g: Rng): (res: (real, Rng))
    requires g.Valid()
    ensures Abs(res.0 - x) <= Abs(maxPerturbation)
    ensures res.1.Valid() && res.1.draw == g.draw && g.pos + 1 <= res.1.pos <= g.pos + 2
    ensures rate <= 0.0 ==> res.0 == x && res.1.pos == g.pos + 1
  {
    var (r, g1) := g.Next();
    if Random(1.0, r) < rate then
      var (r2, g2) := g1.Next();
      (x + Perturbation(r2, maxPerturbation), g2)
    else (x, g1)
  }

  /**
   * `Mutate`: each gene in order gets one draw; when it is below the rate a
   * second draw adds `RandomClamped() * maxPerturbation` to the gene.
   */
  function Mutate(c: seq<real>, rate: real, maxPerturbation: real, g: Rng): (res: (seq<real>, Rng))
    requires g.Valid()
    ensures |res.0| == |c|
    ensures forall i :: 0 <= i < |c| ==> Abs(res.0[i] - c[i]) <= Abs(maxPerturbation)
    ensures res.1.Valid() && res.1.draw == g.draw && g.pos + |c| <= res.1.pos <= g.pos + 2 * |c|
    ensures rate <= 0.0 ==> res.0 == c && res.1.pos == g.pos + |c|
    decreases |c|
  {
    if |c| == 0 then ([], g)
    else
      var (gene, g1) := MutateGene(c[0], rate, maxPerturbation, g);
      var (rest, g2) := Mutate(c[1..], rate, maxPerturbation, g1);
      MutatedCons(c, gene, rest, Abs(maxPerturbation));
      ([gene] + rest, g2)
  }

  lemma MutatedCons(c: seq<real>, gene: real, rest: seq<real>, bound: real)
    requires |c| >= 1 && |rest| == |c| - 1 && Abs(gene - c[0]) <= bound
    requires forall i :: 0 <= i < |rest| ==> Abs(rest[i] - c[1..][i]) <= bound
    ensures forall i :: 0 <= i < |c| ==> Abs(([gene] + rest)[i] - c[i]) <= bound
    ensures gene == c[0] && rest == c[1..] ==> [gene] + rest == c
  {
    forall i | 1 <= i < |c|
      ensures Abs(([gene] + rest)[i] - c[i]) <= bound
    {
      assert ([gene] + rest)[i] == rest[i - 1] && c[i] == c[1..][i - 1];
    }
    assert c == [c[0]] + c[1..];
  }

  // ---------------------------------------------------------------------
  // Crossover
  // ---------------------------------------------------------------------

  /** Children of length `|mum|` that take the other parent's gene exactly at the positions in [lo, hi). */
  function Exchange(mum: seq<real>, dad: seq<real>, lo: int, hi: int): (babies: (seq<real>, seq<real>))
    requires |mum| <= |dad|
    ensures |babies.0| == |mum| && |babies.1| == |mum|
    ensures forall i :: 0 <= i < |mum| ==>
      if lo <= i < hi then babies.0[i] == dad[i] && babies.1[i] == mum[i]
      else babies.0[i] == mum[i] && babies.1[i] == dad[i]
  {
    (seq(|mum|, i requires 0 <= i < |mum| => if lo <= i < hi then dad[i] else mum[i]),
     seq(|mum|, i requires 0 <= i < |mum| => if lo <= i < hi then mum[i] else dad[i]))
  }

  /** At every position the two children hold the parents' two genes between them. */
  predicate Recombines(mum: seq<real>, dad: seq<real>, babies: (seq<real>, seq<real>)) {
    |mum| == |dad| && |babies.0| == |mum| && |babies.1| == |mum|
    && forall i :: 0 <= i < |mum| ==> multiset{babies.0[i], babies.1[i]} == multiset{mum[i], dad[i]}
  }

  lemma ExchangeRecombines(mum: seq<real>, dad: seq<real>, lo: int, hi: int)
    requires |mum| == |dad|
    ensures Recombines(mum, dad, Exchange(mum, dad, lo, hi))
  {
  }

  /** The parents themselves, when the rate draw or equal parents skip crossing. */
  predicate SkipsCrossover(mum: seq<real>, dad: seq<real>, rate: real, r: real)
    requires IsUnitDraw(r)
  {
    Random(1.0, r) > rate || mum == dad
  }

  /**
   * `Crossover`: unless skipped, the cut `cp = RandomInt(0, chromosomeLength - 1)`;
   * positions before it keep the parents' genes and the rest of `mum`'s
   * length is exchanged. A cut outside `mum` or a `dad` shorter than `mum`
   * raises (none).
   */
  function Crossover(mum: seq<real>, dad: seq<real>, rate: real, chromosomeLength: nat, g: Rng): (res: (Option<(seq<real>, seq<real>)>, Rng))
    requires g.Valid()
    ensures res.1.Valid() && res.1.draw == g.draw
    ensures SkipsCrossover(mum, dad, rate, g.draw(g.pos)) ==> res.0 == Some((mum, dad)) && res.1.pos == g.pos + 1
    ensures !SkipsCrossover(mum, dad, rate, g.draw(g.pos)) ==>
      (res.1.pos == g.pos + 2 &&
       var cp := RandomInt(0, chromosomeLength - 1, g.draw(g.pos + 1));
       (res.0.Some? <==> 0 <= cp <= |mum| <= |dad|)
       && (res.0.Some? ==> res.0.value == Exchange(mum, dad, cp, |mum|))
       && (chromosomeLength >= 2 ==> cp <= chromosomeLength - 2))
  {
    var (r, g1) := g.Next();
    if Random(1.0, r) > rate || mum == dad then (Some((mum, dad)), g1)
    else
      var (r2, g2) := g1.Next();
      var cp := RandomInt(0, chromosomeLength - 1, r2);
      if 0 <= cp <= |mum| <= |dad| then
        var babies := (mum[..cp] + dad[cp..|mum|], dad[..cp] + mum[cp..]);
        SinglePointIsExchange(mum, dad, cp);
        (Some(babies), g2)
      else (None, g2)
  }

  /** The cut-and-splice children are the children that exchange the genes from the cut on. */
  lemma SinglePointIsExchange(mum: seq<real>, dad: seq<real>, cp: nat)
    requires cp <= |mum| <= |dad|
    ensures (mum[..cp] + dad[cp..|mum|], dad[..cp] + mum[cp..]) == Exchange(mum, dad, cp, |mum|)
  {
    var e := Exchange(mum, dad, cp, |mum|);
    var b1 := mum[..cp] + dad[cp..|mum|];
    var b2 := dad[..cp] + mum[cp..];
    assert |b1| == |mum| && |b2| == |mum|;
    forall i | 0 <= i < |mum|
      ensures b1[i] == e.0[i] && b2[i] == e.1[i]
    {
      if i < cp {
        assert b1[i] == mum[i] && b2[i] == dad[i];
      } else {
        assert b1[i] == dad[cp..|mum|][i - cp] == dad[i];
        assert b2[i] == mum[cp..][i - cp] == mum[i];
      }
    }
    assert b1 == e.0 && b2 == e.1;
  }

  /** The two split-point indices: `RandomInt(0, |sp| - 2)`, then `RandomInt(i1, |sp| - 1)`. */
  function SplitChoice(count: nat, r1: real, r2: real): (ix: (int, int))
    requires IsUnitDraw(r1) && IsUnitDraw(r2)
    ensures count >= 2 ==> 0 <= ix.0 <= ix.1 <= count - 2
  {
    var i1 := RandomInt(0, count - 2, r1);
    (i1, RandomInt(i1, count - 1, r2))
  }

  /**
   * `CrossoverSplitPoints`: unless skipped, two split points chosen by index
   * and the positions from the first (inclusive) to the second (exclusive)
   * exchanged. An index outside the split points or a `dad` shorter than
   * `mum` raises (none).
   */
  function CrossoverSplitPoints(mum: seq<real>, dad: seq<real>, rate: real, sp: seq<int>, g: Rng): (res: (Option<(seq<real>, seq<real>)>, Rng))
    requires g.Valid()
    ensures res.1.Valid() && res.1.draw == g.draw
    ensures SkipsCrossover(mum, dad, rate, g.draw(g.pos)) ==> res.0 == Some((mum, dad)) && res.1.pos == g.pos + 1
    ensures !SkipsCrossover(mum, dad, rate, g.draw(g.pos)) ==>
      (res.1.pos == g.pos + 3 &&
       var ix := SplitChoice(|sp|, g.draw(g.pos + 1), g.draw(g.pos + 2));
       (res.0.Some? <==> 0 <= ix.0 < |sp| && 0 <= ix.1 < |sp| && |mum| <= |dad|)
       && (res.0.Some? ==> res.0.value == Exchange(mum, dad, sp[ix.0], sp[ix.1])))
  {
    var (r, g1) := g.Next();
    if Random(1.0, r) > rate || mum == dad then (Some((mum, dad)), g1)
    else
      var (r2, g2) := g1.Next();
      var (r3, g3) := g2.Next();
      var ix := SplitChoice(|sp|, r2, r3);
      if 0 <= ix.0 < |sp| && 0 <= ix.1 < |sp| && |mum| <= |dad| then
        (Some(Exchange(mum, dad, sp[ix.0], sp[ix.1])), g3)
      else (None, g3)
  }

  /** Single-point crossover of parents of equal length either returns the parents or recombines their genes. */
  lemma CrossoverRecombines(mum: seq<real>, dad: seq<real>, rate: real, chromosomeLength: nat, g: Rng)
    requires g.Valid() && |mum| == |dad|
    ensures var c := Crossover(mum, dad, rate, chromosomeLength, g).0; c.Some? ==> Recombines(mum, dad, c.value)
  {
    if !SkipsCrossover(mum, dad, rate, g.draw(g.pos)) {
      ExchangeRecombines(mum, dad, RandomInt(0, chromosomeLength - 1, g.draw(g.pos + 1)), |mum|);
    }
  }

  /** Split-point crossover of parents of equal length either returns the parents or recombines their genes. */
  lemma CrossoverSplitPointsRecombines(mum: seq<real>, dad: seq<real>, rate: real, sp: seq<int>, g: Rng)
    requires g.Valid() && |mum| == |dad|
    ensures var c := CrossoverSplitPoints(mum, dad, rate, sp, g).0; c.Some? ==> Recombines(mum, dad, c.value)
  {
    var ix := SplitChoice(|sp|, g.draw(g.pos + 1), g.draw(g.pos + 2));
    if !SkipsCrossover(mum, dad, rate, g.draw(g.pos)) && 0 <= ix.0 < |sp| && 0 <= ix.1 < |sp| {
      ExchangeRecombines(mum, dad, sp[ix.0], sp[ix.1]);
    }
  }

  /**
   * A single-point crossover of parents as long as the chromosome always
   * exchanges the last gene.
   */
  lemma CrossoverExchangesLastGene(mum: seq<real>, dad: seq<real>, rate: real, chromosomeLength: nat, g: Rng)
    requires g.Valid() && |mum| == |dad| == chromosomeLength >= 1
    requires !SkipsCrossover(mum, dad, rate, g.draw(g.pos))
    ensures var c := Crossover(mum, dad, rate, chromosomeLength, g).0;
      c.Some? && c.value.0[|mum| - 1] == dad[|mum| - 1] && c.value.1[|mum| - 1] == mum[|mum| - 1]
  {
  }

  /** With equally long parents whose length is the chromosome length (at least 1), single-point crossover never raises. */
  lemma CrossoverSucceeds(mum: seq<real>, dad: seq<real>, rate: real, chromosomeLength: nat, g: Rng)
    requires g.Valid() && |mum| == chromosomeLength && |dad| == chromosomeLength && chromosomeLength >= 1
    ensures Crossover(mum, dad, rate, chromosomeLength, g).0.Some?
  {
  }

  /** With at least two split points and `dad` as long as `mum`, split-point crossover never raises. */
  lemma CrossoverSplitPointsSucceeds(mum: seq<real>, dad: seq<real>, rate: real, sp: seq<int>, g: Rng)
    requires g.Valid() && |sp| >= 2 && |mum| <= |dad|
    ensures CrossoverSplitPoints(mum, dad, rate, sp, g).0.Some?
  {
  }

  // ---------------------------------------------------------------------
  // Breeding and Epoch
  // ---------------------------------------------------------------------

  /** The identifier of the `n`-th bred genome: the "AIObjMut " prefix, then the decimal digits of `n`. */
  function MutId(n: nat): (r: string)
    ensures "AIObjMut " < r
  {
    "AIObjMut " + NatToString(n)
  }

  /** The digits after the prefix read back as the number. */
  lemma MutIdDigits(n: nat)
    ensures |MutId(n)| >= 10 && AllDigits(MutId(n)[9..]) && DigitsValue(MutId(n)[9..]) == n
  {
    DigitsValueOfNatToString(n);
    assert MutId(n)[9..] == NatToString(n);
  }

  lemma MutIdInjective(a: nat, b: nat)
    ensures MutId(a) == MutId(b) <==> a == b
  {
    NatToStringInjective(a, b);
    if MutId(a) == MutId(b) {
      assert NatToString(a) == MutId(a)[9..];
      assert NatToString(b) == MutId(b)[9..];
    }
  }

  /** A fresh child: fitness 0 and the `n`-th bred identifier. */
  predicate IsChild(p: GenomePair, n: nat) {
    p.genome.fitness == 0.0 && p.id == MutId(n)
  }

  /**
   * From position `from` on, each pair repeats an earlier pair or is a fresh
   * child, and the fresh children, in order of position, carry the bred
   * identifiers numbered `lo + 1` up to `hi`.
   */
  predicate BredFrom(p: seq<GenomePair>, from: nat, lo: nat, hi: nat)
    decreases |p| - from
  {
    if from >= |p| then lo == hi
    else
      || (IsChild(p[from], lo + 1) && BredFrom(p, from + 1, lo + 1, hi))
      || (p[from] in p[..from] && BredFrom(p, from + 1, lo, hi))
  }

  /** The identifier counter only advances, by at most one per pair. */
  lemma {:induction false} BredFromCounts(p: seq<GenomePair>, from: nat, lo: nat, hi: nat)
    requires BredFrom(p, from, lo, hi)
    ensures lo <= hi && (from <= |p| ==> hi - lo <= |p| - from)
    decreases |p| - from
  {
    if from < |p| {
      if IsChild(p[from], lo + 1) && BredFrom(p, from + 1, lo + 1, hi) {
        BredFromCounts(p, from + 1, lo + 1, hi);
      } else {
        BredFromCounts(p, from + 1, lo, hi);
      }
    }
  }

  /** Breeding on from a bred population continues the numbering. */
  lemma {:induction false} BredFromExtend(p: seq<GenomePair>, q: seq<GenomePair>, from: nat, lo: nat, mid: nat, hi: nat)
    requires from <= |p| <= |q| && q[..|p|] == p
    requires BredFrom(p, from, lo, mid) && BredFrom(q, |p|, mid, hi)
    ensures BredFrom(q, from, lo, hi)
    decreases |p| - from
  {
    if from < |p| {
      assert q[from] == p[from] && q[..from] == p[..from];
      if IsChild(p[from], lo + 1) && BredFrom(p, from + 1, lo + 1, mid) {
        BredFromExtend(p, q, from + 1, lo + 1, mid, hi);
      } else {
        BredFromExtend(p, q, from + 1, lo, mid, hi);
      }
    }
  }

  /**
   * The positions of the fresh children: the `j`-th holds the child numbered
   * `lo + 1 + j`, and every other position repeats an earlier pair.
   */
  function ChildPositions(p: seq<GenomePair>, from: nat, lo: nat, hi: nat): (r: seq<nat>)
    requires BredFrom(p, from, lo, hi)
    ensures lo <= hi && |r| == hi - lo
    ensures forall j :: 0 <= j < |r| ==> from <= r[j] < |p| && IsChild(p[r[j]], lo + 1 + j)
    ensures forall j, k :: 0 <= j < k < |r| ==> r[j] < r[k]
    decreases |p| - from
  {
    if from >= |p| then []
    else if IsChild(p[from], lo + 1) && BredFrom(p, from + 1, lo + 1, hi) then
      var rest := ChildPositions(p, from + 1, lo + 1, hi);
      assert forall j :: 1 <= j <= |rest| ==> ([from] + rest)[j] == rest[j - 1];
      [from] + rest
    else ChildPositions(p, from + 1, lo, hi)
  }

  /** Every position after `from` that holds no fresh child repeats an earlier pair. */
  lemma {:induction false} OthersRepeat(p: seq<GenomePair>, from: nat, lo: nat, hi: nat)
    requires BredFrom(p, from, lo, hi)
    ensures forall k :: from <= k < |p| && k !in ChildPositions(p, from, lo, hi) ==> p[k] in p[..k]
    decreases |p| - from
  {
    if from < |p| {
      if IsChild(p[from], lo + 1) && BredFrom(p, from + 1, lo + 1, hi) {
        assert ChildPositions(p, from, lo, hi) == [from] + ChildPositions(p, from + 1, lo + 1, hi);
        OthersRepeat(p, from + 1, lo + 1, hi);
      } else {
        assert p[from] in p[..from] && ChildPositions(p, from, lo, hi) == ChildPositions(p, from + 1, lo, hi);
        OthersRepeat(p, from + 1, lo, hi);
      }
    }
  }

  /**
   * In a bred population the fresh children, in order of position, are
   * numbered from `lo + 1` up to `hi` without gaps, so their identifiers are
   * pairwise different; every other pair from `from` on repeats an earlier
   * one.
   */
  lemma FreshIdsDistinct(p: seq<GenomePair>, from: nat, lo: nat, hi: nat)
    requires BredFrom(p, from, lo, hi)
    ensures var pos := ChildPositions(p, from, lo, hi);
      && |pos| == hi - lo
      && (forall j :: 0 <= j < |pos| ==> IsChild(p[pos[j]], lo + 1 + j))
      && (forall j, k :: 0 <= j < k < |pos| ==> pos[j] < pos[k] && p[pos[j]].id != p[pos[k]].id)
      && (forall k :: from <= k < |p| && k !in pos ==> p[k] in p[..k])
  {
    var pos := ChildPositions(p, from, lo, hi);
    forall j, k | 0 <= j < k < |pos|
      ensures pos[j] < pos[k] && p[pos[j]].id != p[pos[k]].id
    {
      MutIdInjective(lo + 1 + j, lo + 1 + k);
    }
    OthersRepeat(p, from, lo, hi);
  }

  /** The new population so far, the identifier counter and the random stream. */
  datatype Brood = Brood(population: seq<GenomePair>, counter: nat, rng: Rng)

  /** `Crossover` or `CrossoverSplitPoints`, as configured. */
  function Cross(ga: GA, cfg: GAParams, mum: seq<real>, dad: seq<real>, g: Rng): (res: (Option<(seq<real>, seq<real>)>, Rng))
    requires g.Valid()
    ensures res.1.Valid() && res.1.draw == g.draw && res.1.pos > g.pos
  {
    if cfg.multiPointCrossover then CrossoverSplitPoints(mum, dad, ga.crossoverRate, ga.splitPoints, g)
    else Crossover(mum, dad, ga.crossoverRate, ga.chromosomeLength, g)
  }

  /**
   * One pass of `Epoch`'s `while` loop: two roulette selections (a failed
   * one falls back on `new_population[0]` for the mother and
   * `new_population[2]` for the father), crossover, mutation of both
   * children and two new pairs with fitness 0. When crossover raises, the
   * catch appends `new_population[0]` and then `new_population[2]`, the
   * latter read after the first append.
   */
  function Breed(ga: GA, cfg: GAParams, scaled: seq<GenomePair>, total: real, b: Brood): (r: Result<Brood, GAError>)
    requires b.rng.Valid()
    ensures r.Success? ==> |r.value.population| == |b.population| + 2 && Continues(b, r.value) && r.value.rng.Valid()
    ensures r.Failure? ==> r.error == IndexOutOfRange
  {
    var (r1, g1) := b.rng.Next();
    var (r2, g2) := g1.Next();
    var mumAt := Roulette(scaled, total, r1);
    var dadAt := Roulette(scaled, total, r2);
    var np := b.population;
    if (mumAt.None? && |np| < 1) || (dadAt.None? && |np| < 3) then Failure(IndexOutOfRange)
    else
      var mum := if mumAt.Some? then scaled[mumAt.value] else np[0];
      var dad := if dadAt.Some? then scaled[dadAt.value] else np[2];
      var (babies, g3) := Cross(ga, cfg, mum.genome.weights, dad.genome.weights, g2);
      match babies
      case None =>
        if |np| >= 3 then
          RepeatsContinue(b, np[0], np[2], g3);
          Success(Brood(np + [np[0], np[2]], b.counter, g3))
        else if |np| == 2 then
          RepeatsContinue(b, np[0], np[0], g3);
          Success(Brood(np + [np[0], np[0]], b.counter, g3))
        else Failure(IndexOutOfRange)
      case Some((b1, b2)) =>
        var (m1, g4) := Mutate(b1, ga.mutationRate, cfg.maxPerturbation, g3);
        var (m2, g5) := Mutate(b2, ga.mutationRate, cfg.maxPerturbation, g4);
        ChildrenContinue(b, m1, m2, g5);
        Success(Brood(np + [GenomePair(MutId(b.counter + 1), Genome(m1, 0.0)),
                            GenomePair(MutId(b.counter + 2), Genome(m2, 0.0))], b.counter + 2, g5))
  }

  /**
   * A successful pass appends either the catch's two repeats, `new_population[0]`
   * and then `new_population[2]` (or `[0]` again when only two pairs exist), with
   * the counter unchanged, or two fresh children numbered `counter + 1` and
   * `counter + 2`.
   */
  lemma BreedAppends(ga: GA, cfg: GAParams, scaled: seq<GenomePair>, total: real, b: Brood)
    requires b.rng.Valid() && Breed(ga, cfg, scaled, total, b).Success?
    ensures var r := Breed(ga, cfg, scaled, total, b).value; var p := r.population; var n := |b.population|;
      || (r.counter == b.counter && n >= 2 && p[n] == b.population[0]
          && p[n + 1] == b.population[if n >= 3 then 2 else 0])
      || (r.counter == b.counter + 2 && IsChild(p[n], b.counter + 1) && IsChild(p[n + 1], b.counter + 2))
  {
  }

  /** Two repeats of earlier pairs continue the brood. */
  lemma RepeatsContinue(b: Brood, x: GenomePair, y: GenomePair, g: Rng)
    requires x in b.population && y in b.population && g.draw == b.rng.draw
    ensures Continues(b, Brood(b.population + [x, y], b.counter, g))
  {
    var np := b.population;
    var p := np + [x, y];
    assert p[..|np|] == np;
    assert p[..|np| + 1] == np + [x];
    assert BredFrom(p, |np| + 2, b.counter, b.counter);
    assert BredFrom(p, |np| + 1, b.counter, b.counter);
  }

  /** Two fresh children, numbered after the counter, continue the brood. */
  lemma ChildrenContinue(b: Brood, m1: seq<real>, m2: seq<real>, g: Rng)
    requires g.draw == b.rng.draw
    ensures Continues(b, Brood(b.population + [GenomePair(MutId(b.counter + 1), Genome(m1, 0.0)),
                                               GenomePair(MutId(b.counter + 2), Genome(m2, 0.0))], b.counter + 2, g))
  {
    var c1 := GenomePair(MutId(b.counter + 1), Genome(m1, 0.0));
    var c2 := GenomePair(MutId(b.counter + 2), Genome(m2, 0.0));
    var p := b.population + [c1, c2];
    assert p[..|b.population|] == b.population;
    assert BredFrom(p, |b.population| + 2, b.counter + 2, b.counter + 2);
    assert BredFrom(p, |b.population| + 1, b.counter + 1, b.counter + 2);
  }

  /** `r` extends `b`'s population with fresh children and repeats, on the same random stream. */
  ghost predicate Continues(b: Brood, r: Brood) {
    |b.population| <= |r.population| && r.population[..|b.population|] == b.population
    && r.rng.draw == b.rng.draw && r.counter >= b.counter
    && BredFrom(r.population, |b.population|, b.counter, r.counter)
  }

  lemma ContinuesTrans(a: Brood, b: Brood, c: Brood)
    requires Continues(a, b) && Continues(b, c)
    ensures Continues(a, c)
  {
    assert c.population[..|a.population|] == a.population by {
      assert c.population[..|b.population|][..|a.population|] == b.population[..|a.population|];
    }
    BredFromExtend(b.population, c.population, |a.population|, a.counter, b.counter, c.counter);
  }

  /** `Epoch`'s `while (new_population.Count < _populationSize)` loop. */
  function Fill(ga: GA, cfg: GAParams, scaled: seq<GenomePair>, total: real, b: Brood): (r: Result<Brood, GAError>)
    requires b.rng.Valid()
    ensures r.Success? && |b.population| >= ga.populationSize ==> r.value == b
    ensures r.Success? && |b.population| < ga.populationSize ==>
      ga.populationSize <= |r.value.population| <= ga.populationSize + 1
      && (|r.value.population| - |b.population|) % 2 == 0
    ensures r.Success? ==> Continues(b, r.value) && r.value.rng.Valid()
    decreases ga.populationSize - |b.population|
  {
    if |b.population| >= ga.populationSize then
      ContinuesRefl(b);
      Success(b)
    else
      match Breed(ga, cfg, scaled, total, b)
      case Failure(e) => Failure(e)
      case Success(b') =>
        var r := Fill(ga, cfg, scaled, total, b');
        FillStep(ga.populationSize, b, b', r);
        r
  }

  /** One more pass of the loop keeps the facts `Fill` states. */
  lemma FillStep(size: int, b: Brood, b': Brood, r: Result<Brood, GAError>)
    requires Continues(b, b') && |b'.population| == |b.population| + 2 && |b.population| < size
    requires r.Success? && |b'.population| >= size ==> r.value == b'
    requires r.Success? && |b'.population| < size ==>
      size <= |r.value.population| <= size + 1 && (|r.value.population| - |b'.population|) % 2 == 0
    requires r.Success? ==> Continues(b', r.value)
    ensures r.Success? ==> Continues(b, r.value)
    ensures r.Success? ==> size <= |r.value.population| <= size + 1 && (|r.value.population| - |b.population|) % 2 == 0
  {
    if r.Success? {
      ContinuesTrans(b, b', r.value);
      EvenStep(|r.value.population|, |b.population|);
    }
  }

  lemma ContinuesRefl(b: Brood)
    ensures Continues(b, b)
  {
    assert b.population[..|b.population|] == b.population;
  }

  lemma EvenStep(x: int, a: int)
    requires (x - (a + 2)) % 2 == 0
    ensures (x - a) % 2 == 0
  {
    assert x - a == (x - (a + 2)) + 2;
  }

  /** What `Epoch` produces besides the new state: the sorted, scaled old population and the random stream. */
  datatype EpochOutcome = EpochOutcome(ga: GA, scaled: seq<GenomePair>, rng: Rng)

  function ScalingFailure(e: ScalingError): GAError {
    NonFinite
  }

  /**
   * The new population of `Epoch`: the elite block (only when
   * `NumCopiesElite * NumElite` is even) and then breeding from the scaled
   * population until the population size is reached.
   */
  function NextPopulation(ga: GA, cfg: GAParams, scaled: seq<GenomePair>, total: real, g: Rng): (r: Result<Brood, GAError>)
    requires g.Valid()
    ensures r.Success? ==> var e := EliteCount(cfg); var n := ga.populationSize;
      |r.value.population| == if e >= n then e else n + n % 2
    ensures r.Success? ==> var e := EliteCount(cfg);
      e <= |r.value.population| && r.value.counter >= ga.populationCounter
      && BredFrom(r.value.population, e, ga.populationCounter, r.value.counter)
    ensures r.Success? && EliteCount(cfg) > 0 ==> var n := ga.populationSize;
      cfg.numElite < n && n - 1 <= |scaled|
      && r.value.population[..EliteCount(cfg)] == Repeat(scaled[n - 1 - cfg.numElite .. n - 1], cfg.numCopiesElite)
    ensures r.Success? ==> r.value.rng.Valid() && r.value.rng.draw == g.draw
  {
    match Elitism(scaled, ga.populationSize, cfg)
    case Failure(e) => Failure(e)
    case Success(elites) =>
      match Fill(ga, cfg, scaled, total, Brood(elites, ga.populationCounter, g))
      case Failure(e) => Failure(e)
      case Success(brood) =>
        PopulatedLength(ga, cfg, scaled, total, g, elites, brood);
        PopulatedElites(ga, cfg, scaled, total, g, elites, brood);
        Success(brood)
  }

  /** The length, counter and numbering `NextPopulation` states, from the facts `Fill` states. */
  lemma PopulatedLength(ga: GA, cfg: GAParams, scaled: seq<GenomePair>, total: real, g: Rng, elites: seq<GenomePair>, brood: Brood)
    requires g.Valid() && |elites| % 2 == 0
    requires Fill(ga, cfg, scaled, total, Brood(elites, ga.populationCounter, g)) == Success(brood)
    ensures var e := |elites|; var n := ga.populationSize;
      |brood.population| == (if e >= n then e else n + n % 2)
      && e <= |brood.population| && brood.counter >= ga.populationCounter
      && BredFrom(brood.population, e, ga.populationCounter, brood.counter)
    ensures brood.rng.Valid() && brood.rng.draw == g.draw
  {
    var start := Brood(elites, ga.populationCounter, g);
    var n := ga.populationSize;
    assert start.rng.Valid() && Continues(start, brood);
    if |elites| >= n {
      assert brood == start;
    } else {
      assert n <= |brood.population| <= n + 1 && (|brood.population| - |elites|) % 2 == 0;
    }
    FillResult(start, brood, n);
  }

  /** The elites `NextPopulation` puts in front, from the facts `Elitism` and `Fill` state. */
  lemma PopulatedElites(ga: GA, cfg: GAParams, scaled: seq<GenomePair>, total: real, g: Rng, elites: seq<GenomePair>, brood: Brood)
    requires g.Valid() && Elitism(scaled, ga.populationSize, cfg) == Success(elites)
    requires Fill(ga, cfg, scaled, total, Brood(elites, ga.populationCounter, g)) == Success(brood)
    ensures EliteCount(cfg) > 0 ==> var n := ga.populationSize;
      cfg.numElite < n && n - 1 <= |scaled|
      && brood.population[..EliteCount(cfg)] == Repeat(scaled[n - 1 - cfg.numElite .. n - 1], cfg.numCopiesElite)
  {
    KeepsStart(Brood(elites, ga.populationCounter, g), brood);
    ElitesLead(scaled, ga.populationSize, cfg, elites, brood.population);
  }

  /** What a successful `Fill` from an even-sized start leaves: its length, and the start kept in front. */
  lemma FillResult(start: Brood, brood: Brood, n: nat)
    requires Continues(start, brood) && |start.population| % 2 == 0
    requires |start.population| >= n ==> brood == start
    requires |start.population| < n ==>
      n <= |brood.population| <= n + 1 && (|brood.population| - |start.population|) % 2 == 0
    ensures var e := |start.population|;
      |brood.population| == (if e >= n then e else n + n % 2)
      && e <= |brood.population| && brood.population[..e] == start.population
      && brood.counter >= start.counter && brood.rng.draw == start.rng.draw
      && BredFrom(brood.population, e, start.counter, brood.counter)
  {
    KeepsStart(start, brood);
    FilledLength(n, |start.population|, |brood.population|);
  }

  /** The state after an epoch: the new population, the statistics of the old one and the scaling state. */
  function Advanced(ga: GA, st: Stats, sc: Scaled, brood: Brood): (ga': GA)
    ensures ga'.population == brood.population && ga'.populationCounter == brood.counter
    ensures ga'.generation == ga.generation + 1 && ga'.bestFitness == st.best && ga'.rouletteTotal == sc.rouletteTotal
    ensures ga'.populationSize == ga.populationSize && ga'.splitPoints == ga.splitPoints
      && ga'.mutationRate == ga.mutationRate && ga'.crossoverRate == ga.crossoverRate
      && ga'.chromosomeLength == ga.chromosomeLength
  {
    ga.(population := brood.population, populationCounter := brood.counter,
        totalFitness := st.total, rouletteTotal := sc.rouletteTotal, bestFitness := st.best,
        averageFitness := st.average, worstFitness := st.worst, sigma := sc.sigma,
        generation := ga.generation + 1, temperature := sc.temperature)
  }

  /** `Epoch` once the old population is sorted: statistics, scaling and the next population. */
  function EpochSorted(ga: GA, cfg: GAParams, sorted: seq<GenomePair>, sqrt: real -> real, g: Rng): (r: Result<EpochOutcome, GAError>)
    requires ga.populationSize >= 1 && IsSqrt(sqrt) && g.Valid() && SortedByFitness(sorted)
    ensures r.Success? ==> var ga' := r.value.ga; var e := EliteCount(cfg);
      |ga'.population| == if e >= ga.populationSize then e else ga.populationSize + ga.populationSize % 2
    ensures r.Success? ==> var ga' := r.value.ga; var e := EliteCount(cfg);
      e <= |ga'.population| && BredFrom(ga'.population, e, ga.populationCounter, ga'.populationCounter)
      && (e > 0 ==>
            (cfg.numElite < ga.populationSize && ga.populationSize - 1 <= |r.value.scaled|
             && ga'.population[..e] == Repeat(r.value.scaled[ga.populationSize - 1 - cfg.numElite .. ga.populationSize - 1], cfg.numCopiesElite)))
    ensures r.Success? ==> var ga' := r.value.ga;
      ga'.generation == ga.generation + 1 && ga'.populationCounter >= ga.populationCounter
      && ga'.populationSize == ga.populationSize && ga'.splitPoints == ga.splitPoints
      && ga'.mutationRate == ga.mutationRate && ga'.crossoverRate == ga.crossoverRate
      && ga'.chromosomeLength == ga.chromosomeLength && ga'.bestFitness >= 0.0
    ensures r.Success? ==>
      (SameGenes(r.value.scaled, sorted) && SortedByFitness(r.value.scaled)
       && NonNegativeFitness(r.value.scaled) && r.value.ga.rouletteTotal == SumFitness(r.value.scaled))
    ensures r.Success? ==> r.value.rng.Valid() && r.value.rng.draw == g.draw
  {
    var st := CalculateFitnesses(sorted, ga.populationSize);
    match ScaleFitnesses(sorted, st, cfg.scaling, ga.temperature, cfg.boltzmannTemperatureStep,
                         cfg.boltzmannMinTemperature, ga.sigma, ga.populationSize, sqrt)
    case Failure(e) => Failure(ScalingFailure(e))
    case Success(sc) =>
      match NextPopulation(ga, cfg, sc.population, sc.rouletteTotal, g)
      case Failure(e) => Failure(e)
      case Success(brood) =>
        ScaledForEpoch(ga, cfg, sorted, sqrt, sc);
        PopulationForEpoch(ga, cfg, st, sc, g, brood);
        Success(EpochOutcome(Advanced(ga, st, sc, brood), sc.population, brood.rng))
  }

  /** The scaling facts `EpochSorted` states. */
  lemma ScaledForEpoch(ga: GA, cfg: GAParams, sorted: seq<GenomePair>, sqrt: real -> real, sc: Scaled)
    requires ga.populationSize >= 1 && IsSqrt(sqrt) && SortedByFitness(sorted)
    requires ScaleFitnesses(sorted, CalculateFitnesses(sorted, ga.populationSize), cfg.scaling, ga.temperature,
                            cfg.boltzmannTemperatureStep, cfg.boltzmannMinTemperature, ga.sigma, ga.populationSize, sqrt)
             == Success(sc)
    ensures SameGenes(sc.population, sorted) && SortedByFitness(sc.population)
      && NonNegativeFitness(sc.population) && sc.rouletteTotal == SumFitness(sc.population)
  {
    ScalingReady(sorted, cfg.scaling, ga.temperature, cfg.boltzmannTemperatureStep, cfg.boltzmannMinTemperature,
                 ga.sigma, ga.populationSize, sqrt);
  }

  /** The population facts `EpochSorted` states, about the advanced state. */
  lemma PopulationForEpoch(ga: GA, cfg: GAParams, st: Stats, sc: Scaled, g: Rng, brood: Brood)
    requires g.Valid() && NextPopulation(ga, cfg, sc.population, sc.rouletteTotal, g) == Success(brood)
    ensures var ga' := Advanced(ga, st, sc, brood); var e := EliteCount(cfg);
      |ga'.population| == (if e >= ga.populationSize then e else ga.populationSize + ga.populationSize % 2)
      && e <= |ga'.population| && BredFrom(ga'.population, e, ga.populationCounter, ga'.populationCounter)
      && ga'.populationCounter >= ga.populationCounter
      && (e > 0 ==>
            (cfg.numElite < ga.populationSize && ga.populationSize - 1 <= |sc.population|
             && ga'.population[..e] == Repeat(sc.population[ga.populationSize - 1 - cfg.numElite .. ga.populationSize - 1], cfg.numCopiesElite)))
  {
  }

  /**
   * `Epoch`: the previous population sorted ascending by fitness, then
   * `EpochSorted`. `List.Sort` is not stable, so the order among equal
   * fitnesses is not fixed: `sorted` is any ascending rearrangement of
   * `previous`.
   */
  function Epoch(ga: GA, cfg: GAParams, previous: seq<GenomePair>, sorted: seq<GenomePair>, sqrt: real -> real, g: Rng): (r: Result<EpochOutcome, GAError>)
    requires ga.populationSize >= 1 && IsSqrt(sqrt) && g.Valid()
    requires SortedByFitness(sorted) && multiset(sorted) == multiset(previous)
    ensures r.Success? ==> |r.value.scaled| == |previous| && SortedByFitness(r.value.scaled)
    ensures r.Success? ==> SameGenes(r.value.scaled, sorted)
    ensures r.Success? ==> var ga' := r.value.ga; var e := EliteCount(cfg); var n := ga.populationSize;
      && |ga'.population| == (if e >= n then e else n + n % 2)
      && e <= |ga'.population| && ga'.populationCounter >= ga.populationCounter
      && BredFrom(ga'.population, e, ga.populationCounter, ga'.populationCounter)
  {
    SameLength(previous, sorted);
    EpochSorted(ga, cfg, sorted, sqrt, g)
  }

  lemma SameLength(previous: seq<GenomePair>, sorted: seq<GenomePair>)
    requires multiset(sorted) == multiset(previous)
    ensures |sorted| == |previous|
  {
    assert |sorted| == |multiset(sorted)| == |multiset(previous)| == |previous|;
  }

  /** Some pair of `previous` has `p`'s identifier and weights. */
  predicate GenesIn(p: GenomePair, previous: seq<GenomePair>) {
    exists j :: 0 <= j < |previous| && previous[j].id == p.id && previous[j].genome.weights == p.genome.weights
  }

  /**
   * Whatever order the sort leaves equal fitnesses in, a list with the genes
   * of a rearrangement of `previous` (as `Epoch` returns) carries, at every
   * position, the identifier and weights of a pair of `previous`.
   */
  lemma ScaledFromPrevious(previous: seq<GenomePair>, sorted: seq<GenomePair>, scaled: seq<GenomePair>)
    requires multiset(sorted) == multiset(previous) && SameGenes(scaled, sorted)
    ensures |scaled| == |previous|
    ensures forall i :: 0 <= i < |scaled| ==> GenesIn(scaled[i], previous)
  {
    SameLength(previous, sorted);
    DrawnFrom(previous, sorted);
    forall i | 0 <= i < |scaled|
      ensures GenesIn(scaled[i], previous)
    {
      assert sorted[i] in previous;
      var j :| 0 <= j < |previous| && previous[j] == sorted[i];
      assert previous[j].id == scaled[i].id && previous[j].genome.weights == scaled[i].genome.weights;
    }
  }

  /** Every pair of a rearrangement occurs in the original. */
  lemma DrawnFrom(previous: seq<GenomePair>, sorted: seq<GenomePair>)
    requires multiset(sorted) == multiset(previous)
    ensures forall i :: 0 <= i < |sorted| ==> sorted[i] in previous
  {
    forall i | 0 <= i < |sorted|
      ensures sorted[i] in previous
    {
      assert sorted[i] in multiset(sorted);
    }
  }
}
