/**
 * The container that bridges the agents and the genetic algorithm: unique
 * identifiers, the genome lookup by identifier, the per-frame fitness of
 * live agents, the two frame timers, and the epoch that breeds a new
 * population, dumps the old one and rebinds the genomes to the agents.
 */
module AIContainers {
  import opened Wrappers
  import opened Text
  import opened AIUtils
  import opened Genomes
  import opened GAFitness
  import opened GeneticAlgorithm
  import opened NeuralNet
  import opened AIObjects
  import Checkpoint

  // ---------------------------------------------------------------------
  // Identifiers
  // ---------------------------------------------------------------------

  const NamePrefix := "AIObject "

  /** The identifier `GetUniqueIdentifier` tries for the number `n`. */
  function ObjectName(n: nat): string {
    NamePrefix + NatToString(n)
  }

  lemma ObjectNameInjective(a: nat, b: nat)
    ensures ObjectName(a) == ObjectName(b) <==> a == b
  {
    if ObjectName(a) == ObjectName(b) {
      assert ObjectName(a)[|NamePrefix|..] == NatToString(a);
      assert ObjectName(b)[|NamePrefix|..] == NatToString(b);
      NatToStringInjective(a, b);
    }
  }

  /** The names of the numbers 1 to `m`. */
  function NamesUpTo(m: nat): set<string>
    decreases m
  {
    if m == 0 then {} else NamesUpTo(m - 1) + {ObjectName(m)}
  }

  lemma {:induction false} NamesUpToLacks(m: nat, j: nat)
    requires j > m
    ensures ObjectName(j) !in NamesUpTo(m)
    decreases m
  {
    if m > 0 {
      NamesUpToLacks(m - 1, j);
      ObjectNameInjective(m, j);
    }
  }

  lemma {:induction false} NamesUpToCount(m: nat)
    ensures |NamesUpTo(m)| == m
    decreases m
  {
    if m > 0 {
      NamesUpToCount(m - 1);
      NamesUpToLacks(m - 1, m);
    }
  }

  lemma {:induction false} SetOfSeqBound(ids: seq<string>)
    ensures |set i | 0 <= i < |ids| :: ids[i]| <= |ids|
    decreases |ids|
  {
    if |ids| > 0 {
      var init := ids[..|ids| - 1];
      SetOfSeqBound(init);
      assert (set i | 0 <= i < |ids| :: ids[i]) == (set i | 0 <= i < |init| :: init[i]) + {ids[|ids| - 1]} by {
        forall i | 0 <= i < |init|
          ensures init[i] == ids[i]
        {
        }
      }
    }
  }

  lemma SubsetBound<T>(a: set<T>, b: set<T>)
    requires a <= b
    ensures |a| <= |b|
  {
    assert b == a + (b - a);
  }

  /** `m` distinct names cannot all be among fewer than `m` identifiers. */
  lemma Pigeonhole(ids: seq<string>, m: nat)
    requires forall j :: 1 <= j <= m ==> ObjectName(j) in ids
    ensures m <= |ids|
  {
    var taken := set i | 0 <= i < |ids| :: ids[i];
    forall s | s in NamesUpTo(m)
      ensures s in taken
    {
      NamesUpToMember(m, s);
    }
    NamesUpToCount(m);
    SubsetBound(NamesUpTo(m), taken);
    SetOfSeqBound(ids);
  }

  lemma {:induction false} NamesUpToMember(m: nat, s: string)
    requires s in NamesUpTo(m)
    ensures exists j :: 1 <= j <= m && s == ObjectName(j)
    decreases m
  {
    if s != ObjectName(m) {
      NamesUpToMember(m - 1, s);
    }
  }

  /** The search loop: the first number from `n` on whose name is free. */
  function FirstFree(ids: seq<string>, n: nat): (k: nat)
    requires n >= 1
    requires forall j :: 1 <= j < n ==> ObjectName(j) in ids
    ensures n <= k <= |ids| + 1
    ensures ObjectName(k) !in ids
    ensures forall j :: 1 <= j < k ==> ObjectName(j) in ids
    decreases |ids| + 1 - n
  {
    Pigeonhole(ids, n - 1);
    if ObjectName(n) !in ids then n
    else
      Pigeonhole(ids, n);
      FirstFree(ids, n + 1)
  }

  /**
   * `GetUniqueIdentifier()` over the identifiers of the existing objects:
   * "AIObject n" for the smallest `n >= 1` no object carries.
   */
  function GetUniqueIdentifier(ids: seq<string>): (r: string)
    ensures r !in ids
    ensures exists n :: 1 <= n <= |ids| + 1 && r == ObjectName(n)
                        && forall j :: 1 <= j < n ==> ObjectName(j) in ids
  {
    if |ids| == 0 then ObjectName(1) else ObjectName(FirstFree(ids, 1))
  }

  /** `GetGenomePairById`: the first pair with the identifier, or null. */
  function GetGenomePairById(list: seq<GenomePair>, id: string): (r: Option<GenomePair>)
    ensures r.None? <==> forall i :: 0 <= i < |list| ==> list[i].id != id
    ensures r.Some? ==> exists i :: 0 <= i < |list| && list[i] == r.value && r.value.id == id
                                    && forall j :: 0 <= j < i ==> list[j].id != id
    decreases |list|
  {
    if |list| == 0 then None
    else if list[0].id == id then Some(list[0])
    else
      var r := GetGenomePairById(list[1..], id);
      assert forall i :: 1 <= i < |list| ==> list[i] == list[1..][i - 1];
      r
  }

  // ---------------------------------------------------------------------
  // The container state
  // ---------------------------------------------------------------------

  /** An agent and its brain. */
  datatype Bot = Bot(agent: Agent, brain: Net)

  predicate BrainsValid(bots: seq<Bot>) {
    forall i :: 0 <= i < |bots| ==> bots[i].brain.Valid()
  }

  /** The settings the frame update reads. */
  datatype Timing = Timing(
    evolutionEnabled: bool,   // UPDATE_EVOLUTION_ENABLED
    evolutionPeriod: int,     // UPDATE_EVOLUTION_TIME_PERIOD_FRAMES
    fitnessPeriod: int,       // FITNESS_INCREASE_WITH_TIME_PERIOD_FRAMES
    fitnessIncrease: real,    // FITNESS_INCREASE_WITH_TIME
    experienceFactor: real)   // FITNESS_EXPERIENCE_MULTIPLICATION_FACTOR

  /**
   * The fields of `AIContainer` the frame update works on. The flag
   * `fitnessWithTimeEnabled` is the setting FITNESS_INCREASE_WITH_TIME_ENABLE,
   * which the frame update switches off and on.
   */
  datatype Container = Container(
    generation: int,
    framesForEvolution: int,
    framesForFitness: int,
    stillAlive: int,
    updateEvolution: bool,
    updateFitnessWithTime: bool,
    fitnessWithTimeEnabled: bool,
    ga: GA,
    gaPopulation: seq<GenomePair>,
    bots: seq<Bot>)

  /** The exceptions a frame update can raise. */
  datatype ContainerError =
    | PopulationTooShort        // a population index at or past its end
    | WeightsTooShort           // `PutWeights` given fewer weights than the brain holds
    | EpochFailed(e: GAError)

  // ---------------------------------------------------------------------
  // Fitness of live agents
  // ---------------------------------------------------------------------

  /**
   * The fitness a live agent shows on a frame: the frames of the current
   * evolution period less its idle penalty, plus its experience scaled by
   * the factor, plus its custom component. A dead agent keeps the fitness
   * computed at its death.
   */
  function LiveFitness(a: Agent, frames: int, factor: real): (b: Agent)
    ensures a.dead ==> b == a
    ensures !a.dead ==> b == a.(fitness := b.fitness)
    ensures !a.dead ==> b.fitness == a.fitness.(life := b.fitness.life, experience := b.fitness.experience,
                                                 total := b.fitness.total)
    ensures !a.dead ==> b.fitness.total == (frames as real - a.fitness.penaltyCounter) + a.experience * factor + a.fitness.custom
  {
    if a.dead then a
    else
      var life := frames as real - a.fitness.penaltyCounter;
      var exp := a.experience * factor;
      a.(fitness := a.fitness.(life := life, experience := exp, total := life + exp + a.fitness.custom))
  }

  /**
   * In a first life the fitness shown on the frame of death is the one
   * computed at death: the one life sample is the frames lived less the
   * idle penalty.
   */
  lemma LiveFitnessAgreesAtFirstDeath(a: Agent, frames: int, factor: real)
    requires !a.dead && a.fitness.lifeHistory == [] && a.fitness.expHistory == [] && a.fitness.penaltyHistory == []
    ensures CalculateActualFitness(a.fitness, frames as real, a.experience, factor).total
            == LiveFitness(a, frames, factor).fitness.total
  {
    var pc := a.fitness.penaltyCounter;
    var g := CalculateActualFitness(a.fitness, frames as real, a.experience, factor);
    assert g.lifeHistory == [frames as real] && g.expHistory == [a.experience];
    assert g.penaltyHistory[..|g.lifeHistory|] == [pc];
    SingleSample(frames as real - pc);
    SingleSample(a.experience);
    assert g.life == frames as real - pc;
    assert g.experience == a.experience * factor;
  }

  /** One agent on an ordinary frame, after its own update `a`: its live fitness, and the time bonus when due. */
  function LiveAgent(a: Agent, c: Container, t: Timing): (b: Agent)
    ensures var u := LiveFitness(a, c.framesForEvolution, t.experienceFactor);
            b == if c.updateFitnessWithTime && !u.dead then u.(fitness := UpdateFitness(u.fitness, t.fitnessIncrease)) else u
  {
    var u := LiveFitness(a, c.framesForEvolution, t.experienceFactor);
    if c.updateFitnessWithTime && !u.dead then u.(fitness := UpdateFitness(u.fitness, t.fitnessIncrease)) else u
  }

  /** The positions of the agents still alive. */
  function AliveIndices(bots: seq<Bot>): set<int> {
    set i | 0 <= i < |bots| && !bots[i].agent.dead
  }

  /** `_numberAIObjStillAlive`'s increments on one frame: the agents alive. */
  function AliveCount(bots: seq<Bot>): (n: nat)
    ensures n == |AliveIndices(bots)|
    decreases |bots|
  {
    if |bots| == 0 then 0
    else
      var k := |bots| - 1;
      assert AliveIndices(bots) == AliveIndices(bots[..k]) + (if bots[k].agent.dead then {} else {k});
      AliveCount(bots[..k]) + if bots[k].agent.dead then 0 else 1
  }

  /**
   * The agents on an ordinary frame. `step` stands for `AIObject.Update`:
   * it moves, senses and decides for the agent, and the decision runs a
   * forward pass of the brain, which the brain records; the brain's weights
   * and shape are not touched.
   */
  function LiveBots(bots: seq<Bot>, c: Container, t: Timing, step: Bot -> Bot): (r: seq<Bot>)
    ensures |r| == |bots|
    ensures forall i :: 0 <= i < |bots| ==>
      r[i].agent == LiveAgent(step(bots[i]).agent, c, t) && r[i].brain == Recorded(bots[i].brain, step(bots[i]).brain)
  {
    seq(|bots|, i requires 0 <= i < |bots| =>
          Bot(LiveAgent(step(bots[i]).agent, c, t), Recorded(bots[i].brain, step(bots[i]).brain)))
  }

  /** On an ordinary frame every brain keeps its weights: the next recording reads the genome it was bound to. */
  lemma LiveKeepsWeights(bots: seq<Bot>, c: Container, t: Timing, step: Bot -> Bot)
    requires BrainsValid(bots)
    ensures var r := LiveBots(bots, c, t, step);
      BrainsValid(r) && forall i :: 0 <= i < |bots| ==> GetWeights(r[i].brain) == GetWeights(bots[i].brain)
  {
  }

  /**
   * An ordinary frame: every agent updates itself, live agents refresh
   * their fitness, and when the time bonus is due every live agent gets
   * it and is counted.
   */
  function LiveFrame(c: Container, t: Timing, step: Bot -> Bot): (d: Container)
    ensures d.bots == LiveBots(c.bots, c, t, step)
    ensures d.stillAlive == c.stillAlive + (if c.updateFitnessWithTime then AliveCount(d.bots) else 0)
    ensures d == c.(bots := d.bots, stillAlive := d.stillAlive)
  {
    var bots := LiveBots(c.bots, c, t, step);
    c.(bots := bots, stillAlive := c.stillAlive + (if c.updateFitnessWithTime then AliveCount(bots) else 0))
  }

  // ---------------------------------------------------------------------
  // The frame timers
  // ---------------------------------------------------------------------

  /** The genome the timer records for each agent: its identifier, its brain's weights and its fitness. */
  function Collected(population: seq<GenomePair>, bots: seq<Bot>): (r: seq<GenomePair>)
    requires BrainsValid(bots) && |bots| <= |population|
    ensures |r| == |population|
    ensures forall g :: 0 <= g < |bots| ==>
              r[g] == GenomePair(bots[g].agent.id, Genome(GetWeights(bots[g].brain), bots[g].agent.fitness.total))
    ensures r[|bots|..] == population[|bots|..]
  {
    seq(|population|, g requires 0 <= g < |population| =>
          if g < |bots| then GenomePair(bots[g].agent.id, Genome(GetWeights(bots[g].brain), bots[g].agent.fitness.total))
          else population[g])
  }

  /**
   * One frame of a frame counter: it goes up by one, and once that takes it
   * past the period it fires and restarts from 0.
   */
  function Tick(frames: int, period: int): (r: (int, bool))
    ensures r.1 <==> frames >= period
    ensures r.1 ==> r.0 == 0
    ensures !r.1 ==> r.0 == frames + 1
  {
    if frames + 1 > period then (0, true) else (frames + 1, false)
  }

  /** The counter after `k` frames, and how many times it fired: at most once a frame. */
  function Ticks(frames: int, period: int, k: nat): (r: (int, nat))
    ensures r.1 <= k
    decreases k
  {
    if k == 0 then (frames, 0)
    else
      var (n, fired) := Tick(frames, period);
      var (m, count) := Ticks(n, period, k - 1);
      (m, count + if fired then 1 else 0)
  }

  /** Frames run one after the other: `a + b` frames are `a` frames then `b` more. */
  lemma {:induction false} TicksSplit(frames: int, period: int, a: nat, b: nat)
    ensures var (m, c) := Ticks(frames, period, a);
            Ticks(frames, period, a + b) == (Ticks(m, period, b).0, c + Ticks(m, period, b).1)
    decreases a
  {
    if a > 0 {
      var (n, _) := Tick(frames, period);
      TicksSplit(n, period, a - 1, b);
      assert a + b - 1 == (a - 1) + b;
    }
  }

  /** Up to the period the counter only counts. */
  lemma {:induction false} TicksCount(frames: int, period: int, j: nat)
    requires 0 <= frames && frames + j <= period
    ensures Ticks(frames, period, j) == (frames + j, 0)
    decreases j
  {
    if j > 0 {
      TicksCount(frames + 1, period, j - 1);
    }
  }

  /**
   * From 0 a counter with a non-negative period fires exactly once every
   * `period + 1` frames: the period's frames plus the one that fires.
   */
  lemma {:induction false} TicksPeriodic(period: int, k: nat)
    requires period >= 0
    ensures Ticks(0, period, k * (period + 1)) == (0, k)
    ensures forall j: nat :: j <= period ==> Ticks(0, period, k * (period + 1) + j) == (j, k)
    decreases k
  {
    var m := k * (period + 1);
    if k > 0 {
      var m0 := (k - 1) * (period + 1);
      assert m0 + (period + 1) == m;
      TicksPeriodic(period, k - 1);
      assert Ticks(0, period, m0) == (0, k - 1);
      assert Ticks(0, period, period + 1) == (0, 1) by {
        TicksCount(0, period, period);
        TicksSplit(0, period, period, 1);
      }
      TicksSplit(0, period, m0, period + 1);
    }
    assert Ticks(0, period, m) == (0, k);
    forall j: nat | j <= period
      ensures Ticks(0, period, m + j) == (j, k)
    {
      TicksSplit(0, period, m, j);
      TicksCount(0, period, j);
    }
  }

  /** The evolution timer fires on the frame that takes its counter past the period. */
  predicate EvolutionDue(c: Container, t: Timing) {
    Tick(c.framesForEvolution, t.evolutionPeriod).1
  }

  /**
   * The evolution timer: the counter goes up by one; past the period it
   * restarts from 0, the epoch is flagged for the next frame and every
   * agent's genome is recorded in its population slot.
   */
  function EvolutionTimer(c: Container, t: Timing): (r: Result<Container, ContainerError>)
    requires BrainsValid(c.bots)
    ensures !t.evolutionEnabled ==> r == Success(c)
    ensures t.evolutionEnabled ==> (r.Failure? <==> EvolutionDue(c, t) && |c.gaPopulation| < |c.bots|)
    ensures t.evolutionEnabled && r.Success? ==> r.value.framesForEvolution == Tick(c.framesForEvolution, t.evolutionPeriod).0
    ensures t.evolutionEnabled && !EvolutionDue(c, t) ==> r == Success(c.(framesForEvolution := c.framesForEvolution + 1))
    ensures t.evolutionEnabled && r.Success? && EvolutionDue(c, t) ==>
              r.value == c.(framesForEvolution := 0, updateEvolution := true,
                            gaPopulation := Collected(c.gaPopulation, c.bots))
  {
    if !t.evolutionEnabled then Success(c)
    else
      var (frames, due) := Tick(c.framesForEvolution, t.evolutionPeriod);
      if !due then Success(c.(framesForEvolution := frames))
      else if |c.gaPopulation| < |c.bots| then Failure(PopulationTooShort)
      else Success(c.(framesForEvolution := frames, updateEvolution := true, gaPopulation := Collected(c.gaPopulation, c.bots)))
  }

  /**
   * The time-bonus timer, run while the bonus is enabled: past its period
   * it flags the bonus for the next frame, disables itself until the next
   * epoch and restarts the counter and the count of survivors.
   */
  function FitnessTimer(c: Container, t: Timing): (d: Container)
    ensures !(c.fitnessWithTimeEnabled && t.evolutionEnabled) ==> d == c
    ensures c.fitnessWithTimeEnabled && t.evolutionEnabled ==>
              d.framesForFitness == Tick(c.framesForFitness, t.fitnessPeriod).0
    ensures c.fitnessWithTimeEnabled && t.evolutionEnabled && c.framesForFitness < t.fitnessPeriod ==>
              d == c.(framesForFitness := c.framesForFitness + 1)
    ensures c.fitnessWithTimeEnabled && t.evolutionEnabled && c.framesForFitness >= t.fitnessPeriod ==>
              d == c.(framesForFitness := 0, updateFitnessWithTime := true, fitnessWithTimeEnabled := false, stillAlive := 0)
  {
    if !(c.fitnessWithTimeEnabled && t.evolutionEnabled) then c
    else
      var (frames, due) := Tick(c.framesForFitness, t.fitnessPeriod);
      if due then c.(framesForFitness := frames, updateFitnessWithTime := true, fitnessWithTimeEnabled := false, stillAlive := 0)
      else c.(framesForFitness := frames)
  }

  // ---------------------------------------------------------------------
  // The epoch frame
  // ---------------------------------------------------------------------

  /** `_generation++` on a 32-bit counter. */
  function NextGeneration(generation: int): (n: int)
    ensures Int32Min <= generation < Int32Max ==> n == generation + 1
    ensures generation == Int32Max ==> n == Int32Min
    ensures Int32Min <= generation <= Int32Max ==> Int32Min <= n <= Int32Max
  {
    if generation == Int32Max then Int32Min else generation + 1
  }

  /** Every agent has a genome in `population` long enough for its brain. */
  predicate Fits(bots: seq<Bot>, population: seq<GenomePair>)
    requires BrainsValid(bots)
  {
    |bots| <= |population|
    && forall i :: 0 <= i < |bots| ==> NumberOfWeights(bots[i].brain) <= |population[i].genome.weights|
  }

  /** A bot whose brain holds a genome's weights, the rest of the bot as before. */
  predicate Loaded(b: Bot, old_: Bot, p: GenomePair)
    requires old_.brain.Valid()
  {
    && NumberOfWeights(old_.brain) <= |p.genome.weights|
    && b.agent == old_.agent
    && b.brain.Valid()
    && b.brain == old_.brain.(layers := b.brain.layers)
    && GetWeights(b.brain) == p.genome.weights[..NumberOfWeights(old_.brain)]
  }

  /**
   * Brain `i` takes the weights of genome `i` (`PutWeights`), agent by
   * agent. A population shorter than the list of agents, or a genome with
   * too few weights, raises an exception at the first agent it affects;
   * the population index comes first.
   */
  function LoadBrains(bots: seq<Bot>, population: seq<GenomePair>): (r: Result<seq<Bot>, ContainerError>)
    requires BrainsValid(bots)
    ensures r.Success? <==> Fits(bots, population)
    ensures r.Success? ==> |r.value| == |bots| && BrainsValid(r.value)
    ensures r.Success? ==> forall i :: 0 <= i < |bots| ==> Loaded(r.value[i], bots[i], population[i])
    ensures r.Failure? && |population| >= |bots| ==> r.error == WeightsTooShort
    ensures r.Failure? && (forall i :: 0 <= i < |bots| && i < |population| ==>
                             NumberOfWeights(bots[i].brain) <= |population[i].genome.weights|)
            ==> r.error == PopulationTooShort
    decreases |bots|
  {
    if |bots| == 0 then Success([])
    else if |population| == 0 then Failure(PopulationTooShort)
    else
      match PutWeights(bots[0].brain, population[0].genome.weights)
      case None => Failure(WeightsTooShort)
      case Some(brain) =>
        match LoadBrains(bots[1..], population[1..])
        case Failure(e) => Failure(e)
        case Success(rest) =>
          var head := Bot(bots[0].agent, brain);
          LoadedCons(bots, population, head, rest);
          Success([head] + rest)
  }

  /** Loading the first brain and then the rest loads them all. */
  lemma LoadedCons(bots: seq<Bot>, population: seq<GenomePair>, head: Bot, rest: seq<Bot>)
    requires BrainsValid(bots) && 0 < |bots| <= |population| && |rest| == |bots| - 1
    requires Loaded(head, bots[0], population[0])
    requires forall i :: 0 <= i < |rest| ==> Loaded(rest[i], bots[1..][i], population[1..][i])
    ensures BrainsValid([head] + rest)
    ensures forall i :: 0 <= i < |bots| ==> Loaded(([head] + rest)[i], bots[i], population[i])
  {
    forall i | 1 <= i < |bots|
      ensures Loaded(([head] + rest)[i], bots[i], population[i])
    {
      assert ([head] + rest)[i] == rest[i - 1] && bots[1..][i - 1] == bots[i] && population[1..][i - 1] == population[i];
    }
  }

  /** A bot bound to a genome: its identifier and weights, and a fresh start. */
  predicate BoundTo(b: Bot, old_: Bot, p: GenomePair)
    requires old_.brain.Valid()
  {
    && NumberOfWeights(old_.brain) <= |p.genome.weights|
    && b.agent == Reset(old_.agent.(id := p.id))
    && b.brain.Valid()
    && b.brain == old_.brain.(layers := b.brain.layers)
    && GetWeights(b.brain) == p.genome.weights[..NumberOfWeights(old_.brain)]
  }

  /**
   * The loop over the agents on an epoch frame: agent `i` takes the
   * identifier and weights of genome `i` of the new population and is
   * reset. A population shorter than the list of agents, or a genome with
   * too few weights, raises an exception at the first agent it affects.
   */
  function Rebind(bots: seq<Bot>, population: seq<GenomePair>): (r: Result<seq<Bot>, ContainerError>)
    requires BrainsValid(bots)
    ensures r.Success? <==> Fits(bots, population)
    ensures r.Success? ==> |r.value| == |bots| && BrainsValid(r.value)
    ensures r.Success? ==> forall i :: 0 <= i < |bots| ==> BoundTo(r.value[i], bots[i], population[i])
    ensures r.Failure? && |population| >= |bots| ==> r.error == WeightsTooShort
    ensures r.Failure? && (forall i :: 0 <= i < |bots| && i < |population| ==>
                             NumberOfWeights(bots[i].brain) <= |population[i].genome.weights|)
            ==> r.error == PopulationTooShort
  {
    match LoadBrains(bots, population)
    case Failure(e) => Failure(e)
    case Success(loaded) =>
      Success(seq(|bots|, i requires 0 <= i < |bots| => Bot(Reset(loaded[i].agent.(id := population[i].id)), loaded[i].brain)))
  }

  /** What `InitializeAI` ends with: the algorithm's population, the recorded population and the agents. */
  datatype Binding = Binding(all: seq<GenomePair>, recorded: seq<GenomePair>, bots: seq<Bot>)

  /**
   * The binding loop at the end of `InitializeAI`: genome `j` of the
   * algorithm's population gets fitness 0 (in the algorithm's list too, as
   * the two lists share the genome objects), agent `j`'s brain takes its
   * weights, and the genome is recorded. Agents keep their identifiers and
   * state. A population shorter than the list of agents, or a genome with
   * too few weights, raises at the first agent it affects.
   */
  function Bind(bots: seq<Bot>, population: seq<GenomePair>): (r: Result<Binding, ContainerError>)
    requires BrainsValid(bots)
    ensures r.Success? <==> Fits(bots, population)
    ensures r.Failure? && |population| >= |bots| ==> r.error == WeightsTooShort
    ensures r.Failure? && (forall i :: 0 <= i < |bots| && i < |population| ==>
                             NumberOfWeights(bots[i].brain) <= |population[i].genome.weights|)
            ==> r.error == PopulationTooShort
    ensures r.Success? ==> |r.value.all| == |population| && r.value.recorded == r.value.all[..|bots|]
    ensures r.Success? ==>
      && r.value.all[|bots|..] == population[|bots|..]
      && forall j :: 0 <= j < |bots| ==>
           r.value.all[j].id == population[j].id && r.value.all[j].genome.weights == population[j].genome.weights
           && r.value.all[j].genome.fitness == 0.0
    ensures r.Success? ==>
      && |r.value.bots| == |bots| && BrainsValid(r.value.bots)
      && forall j :: 0 <= j < |bots| ==> Loaded(r.value.bots[j], bots[j], population[j])
  {
    match LoadBrains(bots, population)
    case Failure(e) => Failure(e)
    case Success(loaded) =>
      var all := Unscored(population, |bots|);
      assert all[|bots|..] == population[|bots|..];
      Success(Binding(all, all[..|bots|], loaded))
  }

  /**
   * Binding at start-up and rebinding at an epoch load the same brains and
   * fail alike; rebinding in addition names and resets the agents.
   */
  lemma BindAgreesWithRebind(bots: seq<Bot>, population: seq<GenomePair>)
    requires BrainsValid(bots)
    ensures Bind(bots, population).Success? <==> Rebind(bots, population).Success?
    ensures Bind(bots, population).Failure? ==> Bind(bots, population).error == Rebind(bots, population).error
    ensures Bind(bots, population).Success? ==>
      forall j :: 0 <= j < |bots| ==>
        Bind(bots, population).value.bots[j].brain == Rebind(bots, population).value[j].brain
        && Rebind(bots, population).value[j].agent == Reset(Bind(bots, population).value.bots[j].agent.(id := population[j].id))
  {
  }

  /**
   * After binding, the next recording by the evolution timer holds, for
   * each agent, the weights of its genome (when the genome is exactly as
   * long as the brain needs).
   */
  lemma BindThenCollect(bots: seq<Bot>, population: seq<GenomePair>)
    requires BrainsValid(bots) && Fits(bots, population)
    requires forall i :: 0 <= i < |bots| ==> |population[i].genome.weights| == NumberOfWeights(bots[i].brain)
    ensures var b := Bind(bots, population).value;
      forall j :: 0 <= j < |bots| ==> Collected(b.all, b.bots)[j].genome.weights == b.all[j].genome.weights
  {
    var b := Bind(bots, population).value;
    forall j | 0 <= j < |bots|
      ensures Collected(b.all, b.bots)[j].genome.weights == b.all[j].genome.weights
    {
      assert Loaded(b.bots[j], bots[j], population[j]);
      assert population[j].genome.weights[..NumberOfWeights(bots[j].brain)] == population[j].genome.weights;
    }
  }

  /**
   * Rebinding and collecting are inverse: when the timer next records the
   * agents, it records the identifiers and the weights it was given, with
   * the fitness reset to 0.
   */
  lemma RebindThenCollect(bots: seq<Bot>, population: seq<GenomePair>)
    requires BrainsValid(bots) && Fits(bots, population)
    requires forall i :: 0 <= i < |bots| ==> |population[i].genome.weights| == NumberOfWeights(bots[i].brain)
    ensures var r := Rebind(bots, population).value;
            Collected(population, r) == Unscored(population, |bots|)
  {
    var r := Rebind(bots, population).value;
    var c := Collected(population, r);
    forall i | 0 <= i < |population|
      ensures c[i] == Unscored(population, |bots|)[i]
    {
      if i < |bots| {
        assert BoundTo(r[i], bots[i], population[i]);
        assert population[i].genome.weights[..NumberOfWeights(bots[i].brain)] == population[i].genome.weights;
      } else {
        assert c[|bots|..][i - |bots|] == population[|bots|..][i - |bots|];
      }
    }
  }

  /** The population with the fitness of its first `n` genomes set to 0. */
  function Unscored(population: seq<GenomePair>, n: nat): (r: seq<GenomePair>)
    ensures |r| == |population|
    ensures forall i :: 0 <= i < |r| ==> r[i].id == population[i].id && r[i].genome.weights == population[i].genome.weights
    ensures forall i :: 0 <= i < |r| ==> r[i].genome.fitness == if i < n then 0.0 else population[i].genome.fitness
  {
    seq(|population|, i requires 0 <= i < |population| =>
          if i < n then GenomePair(population[i].id, Genome(population[i].genome.weights, 0.0)) else population[i])
  }

  /**
   * The outcome of a frame. On an epoch frame `dumped` is the scored
   * population the last-population file receives and `dump` that file's
   * text; on any other frame both are empty.
   */
  datatype Frame = Frame(container: Container, dumped: seq<GenomePair>, dump: Option<string>, rng: Rng)

  /**
   * The epoch half of `UpdateAll`: the generation counter advances, the
   * genetic algorithm breeds the next population from the recorded one,
   * the scored population is dumped, and every agent is bound to a genome
   * of the new population and reset.
   */
  function EpochFrame(c: Container, cfg: GAParams, sorted: seq<GenomePair>, sqrt: real -> real, g: Rng,
                      show: real -> string, nl: string): (r: Result<Frame, ContainerError>)
    requires c.ga.populationSize >= 1 && IsSqrt(sqrt) && g.Valid() && BrainsValid(c.bots)
    requires SortedByFitness(sorted) && multiset(sorted) == multiset(c.gaPopulation)
    ensures r.Success? ==> var d := r.value.container;
      && d.generation == NextGeneration(c.generation)
      && |r.value.dumped| == |c.gaPopulation| && SortedByFitness(r.value.dumped)
      && SameGenes(r.value.dumped, sorted)
      && r.value.dump == Some(Checkpoint.DumpText(d.generation, d.ga.bestFitness, d.ga.averageFitness,
                                                  r.value.dumped, show, nl))
    ensures r.Success? ==> var d := r.value.container;
      && |c.bots| <= |d.ga.population| && d.gaPopulation == d.ga.population[..|c.bots|]
      && |d.bots| == |c.bots| && BrainsValid(d.bots)
      && (forall i :: 0 <= i < |c.bots| ==> BoundTo(d.bots[i], c.bots[i], d.gaPopulation[i]))
      && !d.updateEvolution && !d.updateFitnessWithTime && d.fitnessWithTimeEnabled
      && d.framesForEvolution == c.framesForEvolution && d.framesForFitness == c.framesForFitness
      && d.stillAlive == c.stillAlive
  {
    var generation := NextGeneration(c.generation);
    match Epoch(c.ga, cfg, c.gaPopulation, sorted, sqrt, g)
    case Failure(e) => Failure(EpochFailed(e))
    case Success(out) =>
      match Rebind(c.bots, out.ga.population)
      case Failure(e) => Failure(e)
      case Success(bots) =>
        var d := c.(generation := generation, ga := out.ga, gaPopulation := out.ga.population[..|c.bots|],
                    bots := bots, updateEvolution := false, updateFitnessWithTime := false,
                    fitnessWithTimeEnabled := true);
        Success(Frame(d, out.scaled, Some(Checkpoint.DumpText(generation, out.ga.bestFitness,
                                                              out.ga.averageFitness, out.scaled, show, nl)), out.rng))
  }

  /**
   * The population an epoch frame leaves in the algorithm is the next
   * population: its length, its elite block and the numbering of its fresh
   * children are those `NextPopulation` states.
   */
  lemma EpochFrameBreeds(c: Container, cfg: GAParams, sorted: seq<GenomePair>, sqrt: real -> real, g: Rng,
                         show: real -> string, nl: string)
    requires c.ga.populationSize >= 1 && IsSqrt(sqrt) && g.Valid() && BrainsValid(c.bots)
    requires SortedByFitness(sorted) && multiset(sorted) == multiset(c.gaPopulation)
    ensures var r := EpochFrame(c, cfg, sorted, sqrt, g, show, nl);
      r.Success? ==> var d := r.value.container; var e := EliteCount(cfg); var n := c.ga.populationSize;
      && |d.ga.population| == (if e >= n then e else n + n % 2)
      && e <= |d.ga.population| && d.ga.populationCounter >= c.ga.populationCounter
      && BredFrom(d.ga.population, e, c.ga.populationCounter, d.ga.populationCounter)
  {
    var r := EpochFrame(c, cfg, sorted, sqrt, g, show, nl);
    if r.Success? {
      var out := Epoch(c.ga, cfg, c.gaPopulation, sorted, sqrt, g);
      assert out.Success? && r.value.container.ga == out.value.ga;
    }
  }

  /** Sorting and scaling keep every genome's weights. */
  lemma SortedKeepsWeights(scaled: seq<GenomePair>, population: seq<GenomePair>, sorted: seq<GenomePair>)
    requires SameGenes(scaled, sorted) && multiset(sorted) == multiset(population) && Checkpoint.HasWeights(population)
    ensures Checkpoint.HasWeights(scaled)
  {
    DrawnFrom(population, sorted);
    forall i | 0 <= i < |scaled|
      ensures |scaled[i].genome.weights| > 0
    {
      assert sorted[i] in population;
      var j :| 0 <= j < |population| && population[j] == sorted[i];
    }
  }

  /** The dump of an epoch frame, when its numbers read back, loads as the generation it names and its population, unnamed. */
  lemma EpochDumpReadsBack(c: Container, cfg: GAParams, sorted: seq<GenomePair>, sqrt: real -> real, g: Rng,
                           show: real -> string, parse: string -> Option<real>, nl: string, st: Checkpoint.LoadState)
    requires c.ga.populationSize >= 1 && IsSqrt(sqrt) && g.Valid() && BrainsValid(c.bots)
    requires SortedByFitness(sorted) && multiset(sorted) == multiset(c.gaPopulation)
    requires Checkpoint.ShowsNumbers(show) && IsNewLine(nl) && Int32Min <= c.generation <= Int32Max
    requires Checkpoint.HasWeights(c.gaPopulation)
    ensures var r := EpochFrame(c, cfg, sorted, sqrt, g, show, nl);
            r.Success?
            && Checkpoint.ReadsBack(show, parse, Checkpoint.Written(r.value.container.ga.bestFitness,
                                                                    r.value.container.ga.averageFitness, r.value.dumped))
            ==>
              var loaded := Checkpoint.Load(ReadLines(r.value.dump.value), st.(population := []), parse);
              && loaded.error == None
              && loaded.state.generation == r.value.container.generation
              && loaded.state.population == Checkpoint.Stripped(r.value.dumped)
  {
    var r := EpochFrame(c, cfg, sorted, sqrt, g, show, nl);
    if r.Success? && Checkpoint.ReadsBack(show, parse, Checkpoint.Written(r.value.container.ga.bestFitness,
                                                                           r.value.container.ga.averageFitness, r.value.dumped)) {
      var f := r.value;
      var d := f.container;
      assert Checkpoint.HasWeights(f.dumped) by {
        SortedKeepsWeights(f.dumped, c.gaPopulation, sorted);
      }
      DumpedReadsBack(f.dump.value, d.generation, d.ga.bestFitness, d.ga.averageFitness, f.dumped,
                      st.(population := []), show, parse, nl);
    }
  }

  /** A dump text loads back, onto an empty population, as its generation and its pairs unnamed. */
  lemma DumpedReadsBack(text: string, generation: int, best: real, average: real, dumped: seq<GenomePair>,
                        st: Checkpoint.LoadState, show: real -> string, parse: string -> Option<real>, nl: string)
    requires text == Checkpoint.DumpText(generation, best, average, dumped, show, nl) && st.population == []
    requires Checkpoint.ShowsNumbers(show) && IsNewLine(nl) && Int32Min <= generation <= Int32Max
    requires Checkpoint.HasWeights(dumped) && Checkpoint.ReadsBack(show, parse, Checkpoint.Written(best, average, dumped))
    ensures var loaded := Checkpoint.Load(ReadLines(text), st, parse);
            loaded.error == None && loaded.state.generation == generation
            && loaded.state.population == Checkpoint.Stripped(dumped)
  {
    Checkpoint.DumpRoundTrip(generation, best, average, dumped, st, show, parse, nl);
    assert st.population + Checkpoint.Stripped(dumped) == Checkpoint.Stripped(dumped);
  }

  // ---------------------------------------------------------------------
  // A whole frame
  // ---------------------------------------------------------------------

  /** An epoch is run on the frame after the evolution timer fired. */
  predicate EpochPending(c: Container, t: Timing) {
    c.updateEvolution && t.evolutionEnabled
  }

  /**
   * The first half of `UpdateAll`: an epoch frame when one is pending,
   * otherwise an ordinary frame; either way the time bonus flag drops.
   */
  function AgentsPass(c: Container, t: Timing, cfg: GAParams, sorted: seq<GenomePair>, sqrt: real -> real, g: Rng,
                      show: real -> string, nl: string, step: Bot -> Bot): (r: Result<Frame, ContainerError>)
    requires c.ga.populationSize >= 1 && IsSqrt(sqrt) && g.Valid() && BrainsValid(c.bots)
    requires SortedByFitness(sorted) && multiset(sorted) == multiset(c.gaPopulation)
    ensures r.Success? ==> BrainsValid(r.value.container.bots) && |r.value.container.bots| == |c.bots|
    ensures r.Success? ==> !r.value.container.updateFitnessWithTime
    ensures r.Success? ==> (r.value.dump.Some? <==> EpochPending(c, t))
    ensures !EpochPending(c, t) ==> r.Success? && r.value.dumped == []
    ensures r.Success? && !EpochPending(c, t) ==>
              && r.value.container.generation == c.generation && r.value.container.ga == c.ga
              && r.value.container.updateEvolution == c.updateEvolution
              && r.value.container.framesForEvolution == c.framesForEvolution
              && r.value.container.fitnessWithTimeEnabled == c.fitnessWithTimeEnabled
              && (forall i :: 0 <= i < |c.bots| ==> r.value.container.bots[i].agent == LiveAgent(step(c.bots[i]).agent, c, t))
    ensures r.Success? && EpochPending(c, t) ==>
              && r.value.container.generation == NextGeneration(c.generation)
              && !r.value.container.updateEvolution && r.value.container.fitnessWithTimeEnabled
              && r.value.container.framesForEvolution == c.framesForEvolution
              && (forall i :: 0 <= i < |c.bots| ==> !r.value.container.bots[i].agent.dead)
  {
    if EpochPending(c, t) then
      var r := EpochFrame(c, cfg, sorted, sqrt, g, show, nl);
      if r.Success? then
        assert forall i :: 0 <= i < |c.bots| ==> BoundTo(r.value.container.bots[i], c.bots[i], r.value.container.gaPopulation[i]);
        r
      else r
    else Success(Frame(LiveFrame(c, t, step).(updateFitnessWithTime := false), [], None, g))
  }

  /** The second half of `UpdateAll`: the evolution timer, then the time-bonus timer. */
  function Timers(c: Container, t: Timing): (r: Result<Container, ContainerError>)
    requires BrainsValid(c.bots) && !c.updateFitnessWithTime
    ensures r.Success? ==> r.value.bots == c.bots && r.value.generation == c.generation && r.value.ga == c.ga
    ensures r.Success? && t.evolutionEnabled ==>
              r.value.updateEvolution == (c.updateEvolution || Tick(c.framesForEvolution, t.evolutionPeriod).1)
    ensures r.Success? && !t.evolutionEnabled ==> r.value == c
    ensures r.Success? ==> (r.value.updateFitnessWithTime <==>
              t.evolutionEnabled && c.fitnessWithTimeEnabled && Tick(c.framesForFitness, t.fitnessPeriod).1)
  {
    match EvolutionTimer(c, t)
    case Failure(e) => Failure(e)
    case Success(d) => Success(FitnessTimer(d, t))
  }

  /**
   * `UpdateAll`: the agents' pass, then the frame timers. `step` stands
   * for each agent's own `Update`, and `g` for the random source an epoch
   * draws from.
   */
  function UpdateAll(c: Container, t: Timing, cfg: GAParams, sorted: seq<GenomePair>, sqrt: real -> real, g: Rng,
                     show: real -> string, nl: string, step: Bot -> Bot): (r: Result<Frame, ContainerError>)
    requires c.ga.populationSize >= 1 && IsSqrt(sqrt) && g.Valid() && BrainsValid(c.bots)
    requires SortedByFitness(sorted) && multiset(sorted) == multiset(c.gaPopulation)
    ensures r.Success? ==> BrainsValid(r.value.container.bots) && |r.value.container.bots| == |c.bots|
    ensures r.Success? ==> (r.value.dump.Some? <==> EpochPending(c, t))
    ensures r.Success? && !EpochPending(c, t) ==>
              && r.value.container.generation == c.generation && r.value.container.ga == c.ga
              && (forall i :: 0 <= i < |c.bots| ==> r.value.container.bots[i].agent == LiveAgent(step(c.bots[i]).agent, c, t))
    ensures r.Success? && EpochPending(c, t) ==>
              && r.value.container.generation == NextGeneration(c.generation)
              && (forall i :: 0 <= i < |c.bots| ==> !r.value.container.bots[i].agent.dead)
    ensures r.Success? && t.evolutionEnabled ==>
              (r.value.container.updateEvolution <==> Tick(c.framesForEvolution, t.evolutionPeriod).1)
    ensures r.Success? ==> (r.value.container.updateFitnessWithTime ==> t.evolutionEnabled)
  {
    match AgentsPass(c, t, cfg, sorted, sqrt, g, show, nl, step)
    case Failure(e) => Failure(e)
    case Success(f) =>
      match Timers(f.container, t)
      case Failure(e) => Failure(e)
      case Success(d) => Success(f.(container := d))
  }

  /**
   * The time bonus goes to the custom component, so it shows in the total
   * from the next frame on, however the agent's life and experience change.
   */
  lemma BonusCarriesIntoTotal(a: Agent, bonus: real, frames: int, factor: real)
    requires !a.dead
    ensures LiveFitness(a.(fitness := UpdateFitness(a.fitness, bonus)), frames, factor).fitness.total
            == LiveFitness(a, frames, factor).fitness.total + bonus
  {
  }

  /**
   * On a frame that pays the time bonus every agent alive after its own
   * update gets the bonus and is counted, and the dead are left as they are.
   */
  lemma BonusFrame(c: Container, t: Timing, step: Bot -> Bot)
    requires c.updateFitnessWithTime
    ensures var d := LiveFrame(c, t, step);
      && d.stillAlive - c.stillAlive == |set i | 0 <= i < |c.bots| && !step(c.bots[i]).agent.dead|
      && forall i :: 0 <= i < |c.bots| ==>
           var u := step(c.bots[i]).agent;
           (u.dead ==> d.bots[i].agent == u)
           && (!u.dead ==> d.bots[i].agent.fitness.custom == u.fitness.custom + t.fitnessIncrease)
  {
    var d := LiveFrame(c, t, step);
    assert AliveIndices(d.bots) == set i | 0 <= i < |c.bots| && !step(c.bots[i]).agent.dead;
  }
}
