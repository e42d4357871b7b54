/**
 * The learning side of one agent: its fitness bookkeeping (the samples taken
 * at every death, the time-averaged fitness, the idle-penalty counter), the
 * decoding of the network's first output into an action, and the clamps on
 * experience and life. Sensing, movement and combat are not modelled: the
 * parts of their outcome the decision needs (is there a target, what taking
 * cover found) are parameters.
 */
module AIObjects {
  import opened Wrappers
  import opened AIUtils

  datatype Action = Attack | PUMed | PUBonus | TakeCover | Wander | Free

  datatype Movement = Walk | Run | Crawl | Cover

  // ---------------------------------------------------------------------
  // Fitness accounting
  // ---------------------------------------------------------------------

  /**
   * The fitness fields of an agent: the total and its three components, the
   * samples taken at each death (frames lived, experience, idle penalty) and
   * the idle-penalty counter of the current life.
   */
  datatype Fitness = Fitness(
    total: real, custom: real, life: real, experience: real,
    lifeHistory: seq<real>, expHistory: seq<real>, penaltyHistory: seq<real>,
    penaltyCounter: real)

  /**
   * The histories every reachable state keeps: one experience sample per
   * life sample, and at least as many penalty samples (the penalty history
   * survives a reset, the other two do not).
   */
  predicate Consistent(f: Fitness) {
    |f.expHistory| == |f.lifeHistory| <= |f.penaltyHistory|
  }

  /** The fitness fields of a newly built agent. */
  function NewFitness(): (f: Fitness)
    ensures Consistent(f) && f.lifeHistory == [] && f.penaltyHistory == []
    ensures f.total == 0.0 && f.penaltyCounter == 0.0
  {
    Fitness(0.0, 0.0, 0.0, 0.0, [], [], [], 0.0)
  }

  function Sum(s: seq<real>): real
    decreases |s|
  {
    if |s| == 0 then 0.0 else Sum(s[..|s| - 1]) + s[|s| - 1]
  }

  /** The life sample before position `i`, 0 before the first. */
  function Previous(lifes: seq<real>, i: nat): real
    requires i <= |lifes|
  {
    if i == 0 then 0.0 else lifes[i - 1]
  }

  /**
   * The per-life gains the averaging loop adds up: frames lived since the
   * previous sample, less the penalty recorded at the same position.
   */
  function Gains(lifes: seq<real>, penalties: seq<real>): (g: seq<real>)
    requires |lifes| <= |penalties|
    ensures |g| == |lifes|
    ensures forall i :: 0 <= i < |g| ==> g[i] == lifes[i] - Previous(lifes, i) - penalties[i]
    decreases |lifes|
  {
    if |lifes| == 0 then []
    else
      var n := |lifes| - 1;
      var front := Gains(lifes[..n], penalties);
      assert forall i :: 0 <= i < n ==> Previous(lifes[..n], i) == Previous(lifes, i);
      front + [lifes[n] - Previous(lifes, n) - penalties[n]]
  }

  /** The gains telescope: their sum is the last life sample less the penalties at the same positions. */
  lemma {:induction false} GainsTelescope(lifes: seq<real>, penalties: seq<real>)
    requires |lifes| <= |penalties|
    ensures Sum(Gains(lifes, penalties)) == Previous(lifes, |lifes|) - Sum(penalties[..|lifes|])
    decreases |lifes|
  {
    var n := |lifes|;
    if n > 0 {
      var front := lifes[..n - 1];
      var last := lifes[n - 1] - Previous(lifes, n - 1) - penalties[n - 1];
      GainsTelescope(front, penalties);
      assert Previous(front, n - 1) == Previous(lifes, n - 1);
      GainsSnoc(lifes, penalties);
      SumSnoc(Gains(front, penalties), last);
      SumPrefixStep(penalties, n);
    } else {
      assert Gains(lifes, penalties) == [] && penalties[..0] == [];
    }
  }

  /** The gains of all samples are those of all but the last, then the last sample's gain. */
  lemma GainsSnoc(lifes: seq<real>, penalties: seq<real>)
    requires 0 < |lifes| <= |penalties|
    ensures var n := |lifes| - 1;
            Gains(lifes, penalties) == Gains(lifes[..n], penalties) + [lifes[n] - Previous(lifes, n) - penalties[n]]
  {
  }

  /** The sum of the first `n` entries is that of the first `n - 1` plus entry `n - 1`. */
  lemma SumPrefixStep(s: seq<real>, n: nat)
    requires 0 < n <= |s|
    ensures Sum(s[..n]) == Sum(s[..n - 1]) + s[n - 1]
  {
    assert s[..n][..n - 1] == s[..n - 1];
  }

  /** Appending one sample adds it to the sum. */
  lemma SumSnoc(s: seq<real>, x: real)
    ensures Sum(s + [x]) == Sum(s) + x
  {
    assert (s + [x])[..|s|] == s;
  }

  /**
   * The loop of `CalculateActualFitness` as written: a running previous
   * sample, the life total and the experience total.
   */
  method FitnessTotals(lifes: seq<real>, exps: seq<real>, penalties: seq<real>) returns (lifeTotal: real, expTotal: real)
    requires |exps| == |lifes| <= |penalties|
    ensures lifeTotal == Sum(Gains(lifes, penalties))
    ensures lifeTotal == Previous(lifes, |lifes|) - Sum(penalties[..|lifes|])
    ensures expTotal == Sum(exps)
  {
    var prevTime := 0.0;
    lifeTotal := 0.0;
    expTotal := 0.0;
    var i := 0;
    while i < |lifes|
      invariant 0 <= i <= |lifes|
      invariant prevTime == Previous(lifes, i)
      invariant lifeTotal == prevTime - Sum(penalties[..i])
      invariant expTotal == Sum(exps[..i])
    {
      var lifeFitness := lifes[i] - prevTime;
      lifeTotal := lifeTotal + lifeFitness - penalties[i];
      prevTime := lifes[i];
      expTotal := expTotal + exps[i];
      assert penalties[..i + 1][..i] == penalties[..i];
      assert exps[..i + 1][..i] == exps[..i];
      i := i + 1;
    }
    assert exps[..i] == exps;
    GainsTelescope(lifes, penalties);
  }

  /** A total shared out over `n` samples. */
  function PerSample(total: real, n: nat): real
    requires n > 0
  {
    total / n as real
  }

  function Mean(s: seq<real>): real
    requires |s| > 0
  {
    PerSample(Sum(s), |s|)
  }

  /** One sample is its own sum and its own mean. */
  lemma SingleSample(x: real)
    ensures Sum([x]) == x && PerSample(x, 1) == x && Mean([x]) == x
  {
    assert [x][..0] == [];
  }

  /** The samples of one death appended: frames lived, experience and the penalty counter. */
  function TakeSample(f: Fitness, frames: real, exp: real): (h: Fitness)
    requires Consistent(f)
    ensures Consistent(h) && |h.lifeHistory| == |f.lifeHistory| + 1
    ensures h.lifeHistory == f.lifeHistory + [frames] && h.expHistory == f.expHistory + [exp]
    ensures h.penaltyHistory == f.penaltyHistory + [f.penaltyCounter]
    ensures h.custom == f.custom
  {
    f.(lifeHistory := f.lifeHistory + [frames], expHistory := f.expHistory + [exp],
       penaltyHistory := f.penaltyHistory + [f.penaltyCounter])
  }

  /** The components recomputed from the histories, and the penalty counter restarted. */
  function Averaged(h: Fitness, factor: real): (g: Fitness)
    requires Consistent(h) && |h.lifeHistory| > 0
    ensures Consistent(g) && g.lifeHistory == h.lifeHistory && g.expHistory == h.expHistory
    ensures g.penaltyHistory == h.penaltyHistory
    ensures g.life == PerSample(h.lifeHistory[|h.lifeHistory| - 1] - Sum(h.penaltyHistory[..|h.lifeHistory|]), |h.lifeHistory|)
    ensures g.experience == Mean(h.expHistory) * factor
    ensures g.total == g.life + g.experience + g.custom && g.custom == h.custom
    ensures g.penaltyCounter == 0.0
  {
    var lifeFitness := MeanGain(h.lifeHistory, h.penaltyHistory);
    var expFitness := Mean(h.expHistory) * factor;
    h.(total := lifeFitness + expFitness + h.custom, life := lifeFitness, experience := expFitness, penaltyCounter := 0.0)
  }

  /**
   * `CalculateActualFitness(framesCounter, exp)`: a sample of each history
   * is taken, the life component is the mean gain, the experience component
   * the mean experience times the factor, and the penalty counter restarts.
   */
  function CalculateActualFitness(f: Fitness, frames: real, exp: real, factor: real): (g: Fitness)
    requires Consistent(f)
    ensures Consistent(g)
    ensures g.lifeHistory == f.lifeHistory + [frames] && g.expHistory == f.expHistory + [exp]
    ensures g.penaltyHistory == f.penaltyHistory + [f.penaltyCounter]
    ensures g.life == PerSample(frames - Sum(g.penaltyHistory[..|g.lifeHistory|]), |g.lifeHistory|)
    ensures g.experience == Mean(g.expHistory) * factor
    ensures g.total == g.life + g.experience + g.custom && g.custom == f.custom
    ensures g.penaltyCounter == 0.0
  {
    var h := TakeSample(f, frames, exp);
    var g := Averaged(h, factor);
    var n := |h.lifeHistory|;
    assert h.lifeHistory[n - 1] == frames;
    assert |g.lifeHistory| == n && g.penaltyHistory == h.penaltyHistory && g.expHistory == h.expHistory;
    assert g.life == PerSample(frames - Sum(h.penaltyHistory[..n]), n);
    assert Mean(g.expHistory) == Mean(h.expHistory);
    g
  }

  /** The mean of the gains: the last life sample, less the penalties at the same positions, per sample. */
  function MeanGain(lifes: seq<real>, penalties: seq<real>): (m: real)
    requires 0 < |lifes| <= |penalties|
    ensures m == PerSample(lifes[|lifes| - 1] - Sum(penalties[..|lifes|]), |lifes|)
  {
    var g := Gains(lifes, penalties);
    GainsTelescope(lifes, penalties);
    var total := lifes[|lifes| - 1] - Sum(penalties[..|lifes|]);
    assert Sum(g) == total;
    Mean(g)
  }

  /** The fitness part of `Reset`: components zeroed, life and experience histories cleared. */
  function ResetFitness(f: Fitness): (g: Fitness)
    ensures Consistent(g)
    ensures g.total == 0.0 && g.custom == 0.0 && g.life == 0.0 && g.experience == 0.0
    ensures g.lifeHistory == [] && g.expHistory == []
    ensures g.penaltyHistory == f.penaltyHistory && g.penaltyCounter == f.penaltyCounter
  {
    f.(total := 0.0, custom := 0.0, life := 0.0, experience := 0.0, lifeHistory := [], expHistory := [])
  }

  /**
   * Since the penalty history outlives a reset, the first death after it
   * reads the penalty of the first life ever sampled, not the one just
   * recorded.
   */
  lemma FirstDeathAfterResetReadsOldPenalty(f: Fitness, frames: real, exp: real, factor: real)
    requires Consistent(f) && |f.penaltyHistory| > 0
    ensures CalculateActualFitness(ResetFitness(f), frames, exp, factor).life == frames - f.penaltyHistory[0]
  {
    var g := CalculateActualFitness(ResetFitness(f), frames, exp, factor);
    assert g.penaltyHistory[..1] == [f.penaltyHistory[0]];
    assert Sum([f.penaltyHistory[0]]) == f.penaltyHistory[0];
  }

  /** `UpdateFitness(value)`: only the custom component moves; the total waits for the next sample. */
  function UpdateFitness(f: Fitness, value: real): (g: Fitness)
    ensures g.custom - f.custom == value
    ensures g.total == f.total && g.life == f.life && g.experience == f.experience
    ensures g.lifeHistory == f.lifeHistory && g.expHistory == f.expHistory
    ensures g.penaltyHistory == f.penaltyHistory && g.penaltyCounter == f.penaltyCounter
  {
    f.(custom := f.custom + value)
  }

  /** Rewards add up: two updates are one update by their sum. */
  lemma UpdateFitnessAdds(f: Fitness, a: real, b: real)
    ensures UpdateFitness(UpdateFitness(f, a), b) == UpdateFitness(f, a + b)
  {
    assert UpdateFitness(UpdateFitness(f, a), b).custom == UpdateFitness(f, a + b).custom;
  }

  // ---------------------------------------------------------------------
  // Experience and life
  // ---------------------------------------------------------------------

  /** `BoostOrDecreaseExperience(value)`: experience moved by `value`, held in [0, 100]. */
  function BoostOrDecreaseExperience(experience: real, value: real): (e: real)
    ensures 0.0 <= e <= 100.0
    ensures 0.0 <= experience + value <= 100.0 ==> e == experience + value
    ensures e == ClampTo(100, experience + value)
  {
    var moved := experience + value;
    if moved < 0.0 then 0.0 else if moved > 100.0 then 100.0 else moved
  }

  /** `HealOrHarm(value)`: life moved by `value` and capped at 1; there is no lower bound. */
  function HealOrHarm(life: real, value: real): (l: real)
    ensures l <= 1.0
    ensures life + value <= 1.0 ==> l == life + value
    ensures life + value > 1.0 ==> l == 1.0
  {
    var moved := life + value;
    if moved > 1.0 then 1.0 else moved
  }

  /** Harm can drive life below zero. */
  lemma HarmGoesBelowZero()
    ensures HealOrHarm(0.25, -1.0) < 0.0
  {
  }

  // ---------------------------------------------------------------------
  // Decoding the network's output
  // ---------------------------------------------------------------------

  /** `value` lies in the `i`-th of `n` equal ranges of [0, 1). */
  predicate InRange(value: real, n: nat, i: int)
    requires n >= 1
  {
    (1.0 / n as real) * i as real <= value < (1.0 / n as real) * (i + 1) as real
  }

  /** The first range from `i` on holding `value`, if any. */
  function FirstRangeFrom(value: real, n: nat, i: nat): (k: Option<nat>)
    requires 1 <= n && i <= n
    ensures k.Some? ==> i <= k.value < n && InRange(value, n, k.value)
    ensures k.None? ==> forall j :: i <= j < n ==> !InRange(value, n, j)
    decreases n - i
  {
    if i == n then None
    else if InRange(value, n, i) then Some(i)
    else FirstRangeFrom(value, n, i + 1)
  }

  /** Past ranges that all miss a value at or above their start, the value is at or above the next start. */
  lemma {:induction false} NoRangeMeansAbove(value: real, n: nat, i: nat)
    requires 1 <= n && i <= n
    requires (1.0 / n as real) * i as real <= value
    ensures FirstRangeFrom(value, n, i).None? ==> value >= 1.0
    decreases n - i
  {
    if i == n {
      assert (1.0 / n as real) * n as real == 1.0;
    } else if !InRange(value, n, i) {
      NoRangeMeansAbove(value, n, i + 1);
    }
  }

  /** Only a value outside [0, 1) misses every range. */
  lemma NoRangeOutsideUnit(value: real, n: nat)
    requires n >= 1
    ensures FirstRangeFrom(value, n, 0).None? ==> value < 0.0 || value >= 1.0
  {
    if 0.0 <= value {
      NoRangeMeansAbove(value, n, 0);
    }
  }

  /** A value lies in at most one range: a later range starts where an earlier one has ended. */
  lemma RangesDisjoint(value: real, n: nat, i: int, j: int)
    requires n >= 1 && i < j
    ensures !(InRange(value, n, i) && InRange(value, n, j))
  {
    var w := 1.0 / n as real;
    ScaleMonotone(w, (i + 1) as real, j as real);
  }

  lemma ScaleMonotone(w: real, a: real, b: real)
    requires w > 0.0 && a <= b
    ensures w * a <= w * b
  {
    assert w * b - w * a == w * (b - a);
  }

  /**
   * `RangeIndex(value, numRanges)`: the range of [0, 1) holding the value;
   * a value outside [0, 1) gets a random index `Floor(draw * (n - 1))`.
   */
  function RangeIndex(value: real, n: int, draw: real): (i: int)
    requires IsUnitDraw(draw)
    ensures n >= 1 ==> 0 <= i < n
    ensures n >= 1 && 0.0 <= value < 1.0 ==> InRange(value, n, i)
    ensures n >= 1 && (value < 0.0 || value >= 1.0) ==> i == RandomInt(0, n - 1, draw)
  {
    if n < 1 then RandomInt(0, n - 1, draw)
    else
      match FirstRangeFrom(value, n, 0)
      case Some(k) =>
        RangeOnlyInsideUnit(value, n, k);
        k
      case None =>
        NoRangeOutsideUnit(value, n);
        RandomInt(0, n - 1, draw)
  }

  /** A value in some range lies in [0, 1). */
  lemma RangeOnlyInsideUnit(value: real, n: nat, k: int)
    requires n >= 1 && 0 <= k < n && InRange(value, n, k)
    ensures 0.0 <= value < 1.0
  {
    var w := 1.0 / n as real;
    assert w > 0.0;
    assert w * n as real == 1.0;
    assert w * 0.0 == 0.0;
    ScaleMonotone(w, 0.0, k as real);
    ScaleMonotone(w, (k + 1) as real, n as real);
  }

  /** The action the `switch` on the range index starts; an index outside 0..4 raises. */
  function Choice(index: int, hasTarget: bool): (c: Option<Action>)
    ensures c.Some? <==> 0 <= index < 5
    ensures c.Some? ==> c.value != Free
    ensures c == Some(Attack) <==> index == 0 && hasTarget
    ensures c == Some(PUBonus) <==> index == 1 || (index == 0 && !hasTarget)
  {
    match index
    case 0 => if hasTarget then Some(Attack) else Some(PUBonus)
    case 1 => Some(PUBonus)
    case 2 => Some(Wander)
    case 3 => Some(TakeCover)
    case 4 => Some(PUMed)
    case _ => None
  }

  // ---------------------------------------------------------------------
  // The agent's decision state
  // ---------------------------------------------------------------------

  /** What `TakeCover()` found: the cover it already holds, a cover it may enter, or one it is redirected from. */
  datatype CoverOutcome = SameCover | Entered | Redirected

  /** The fitness adjustments a decision can make (read from the configuration). */
  datatype Rewards = Rewards(decreaseMed: real, decreaseBonus: real, getToCover: real)

  datatype Agent = Agent(
    id: string, action: Action, occupied: bool, life: real, experience: real,
    shotAt: bool, dead: bool, status: Movement, counters: map<Action, nat>, fitness: Fitness)

  const CountedActions: set<Action> := {Attack, PUBonus, PUMed, TakeCover, Wander}

  /** The action counters `SetUpProperties` installs: one per action but `Free`, all at zero. */
  function ZeroCounters(): (m: map<Action, nat>)
    ensures m.Keys == CountedActions
    ensures forall a :: a in m ==> m[a] == 0
  {
    map a | a in CountedActions :: 0
  }

  function SetFree(a: Agent): (b: Agent)
    ensures b.action == Free && !b.occupied && b.status == Walk
    ensures b.counters == a.counters && b.fitness == a.fitness && b.life == a.life && b.experience == a.experience
  {
    a.(occupied := false, action := Free, status := Walk)
  }

  function OccupyBy(a: Agent, action: Action): (b: Agent)
    ensures b.action == action && b.occupied
    ensures b.counters == a.counters && b.fitness == a.fitness && b.status == a.status
  {
    a.(occupied := true, action := action)
  }

  /**
   * `Reset()`: alive, full life, no experience, fitness components cleared,
   * action counters back to zero, and free.
   */
  function Reset(a: Agent): (b: Agent)
    ensures !b.dead && b.life == 1.0 && b.experience == 0.0
    ensures b.fitness == ResetFitness(a.fitness)
    ensures b.counters == ZeroCounters()
    ensures b.action == Free && !b.occupied && b.status == Walk
    ensures b.id == a.id
  {
    SetFree(a.(dead := false, life := 1.0, experience := 0.0, fitness := ResetFitness(a.fitness), counters := ZeroCounters()))
  }

  /** The behaviour the chosen action starts, before its counter and movement status are set. */
  function Perform(a: Agent, action: Action, cover: CoverOutcome, rewards: Rewards): (b: Agent)
    requires action != Free
    ensures b.counters == a.counters && b.life == a.life && b.experience == a.experience
    ensures b.action == action || b.action == a.action || b.action == Free
    ensures action == PUBonus ==> (b.action == Free <==> a.experience == 100.0)
    ensures action == PUMed ==> (b.action == Free <==> a.life == 1.0)
    ensures (action == PUBonus && a.experience == 100.0) ==> b.fitness == UpdateFitness(a.fitness, rewards.decreaseBonus)
    ensures (action == PUMed && a.life == 1.0) ==> b.fitness == UpdateFitness(a.fitness, rewards.decreaseMed)
    ensures action in {Attack, Wander} ==> b.action == action && b.occupied && b.fitness == a.fitness
  {
    match action
    case Attack => OccupyBy(a.(status := Run), Attack)
    case PUBonus =>
      if a.experience == 100.0 then SetFree(a.(fitness := UpdateFitness(a.fitness, rewards.decreaseBonus)))
      else OccupyBy(a, PUBonus)
    case PUMed =>
      if a.life == 1.0 then SetFree(a.(fitness := UpdateFitness(a.fitness, rewards.decreaseMed)))
      else OccupyBy(a, PUMed)
    case Wander => OccupyBy(a, Wander)
    case TakeCover =>
      match cover
      case SameCover => a
      case Entered =>
        var f := if a.shotAt then UpdateFitness(a.fitness, rewards.getToCover) else a.fitness;
        OccupyBy(a.(fitness := f), TakeCover)
      case Redirected => OccupyBy(a, TakeCover)
  }

  datatype AgentError = BrainMalfunction(id: string) | NoOutput | InvalidOutputs

  /** The first step of `UpdateAI`: an attack is dropped when life is low or the agent is under fire. */
  function DropFailingAttack(a: Agent): (b: Agent)
    ensures b.counters == a.counters && b.fitness == a.fitness
    ensures b.action == Attack ==> a.action == Attack && a.life >= 0.5 && !a.shotAt
  {
    if (a.action == Attack && a.life < 0.5) || (a.action == Attack && a.shotAt) then SetFree(a) else a
  }

  /** The agent does not consult its network this frame: it is busy with something other than wandering. */
  predicate Busy(a: Agent) {
    var b := DropFailingAttack(a);
    b.occupied && b.action != Wander
  }

  /**
   * `UpdateAI()`: unless busy, the network's outputs (computed from the
   * agent's senses, given here) pick a range of [0, 1) by their first
   * value, the range picks an action, the action is started, its counter
   * goes up by one and the movement status becomes Walk for wandering and
   * Run otherwise. Too few outputs raise.
   */
  function UpdateAI(a: Agent, hasTarget: bool, outputs: seq<real>, numOutputs: int, draw: real,
                    cover: CoverOutcome, rewards: Rewards): (r: Result<Agent, AgentError>)
    requires IsUnitDraw(draw)
    requires a.counters.Keys == CountedActions
    ensures Busy(a) ==> r == Success(DropFailingAttack(a))
    ensures r.Failure? <==> !Busy(a) && (|outputs| < numOutputs || |outputs| == 0)
    ensures r.Failure? ==> r.error != InvalidOutputs
    ensures r.Success? ==> r.value.counters.Keys == CountedActions && r.value.life == a.life
    ensures r.Success? && !Busy(a) ==> (
      var chosen := Choice(RangeIndex(outputs[0], 5, draw), hasTarget).value;
      && r.value.counters == a.counters[chosen := a.counters[chosen] + 1]
      && r.value.status == (if chosen == Wander then Walk else Run))
    ensures r.Success? && !Busy(a) ==> (
      var chosen := Choice(RangeIndex(outputs[0], 5, draw), hasTarget).value;
      var p := Perform(DropFailingAttack(a), chosen, cover, rewards);
      r.value.action == p.action && r.value.occupied == p.occupied && r.value.fitness == p.fitness)
  {
    var b := DropFailingAttack(a);
    if b.occupied && b.action != Wander then Success(b)
    else if |outputs| < numOutputs then Failure(BrainMalfunction(a.id))
    else if |outputs| == 0 then Failure(NoOutput)
    else
      match Choice(RangeIndex(outputs[0], 5, draw), hasTarget)
      case None => Failure(InvalidOutputs)
      case Some(chosen) =>
        var c := Perform(b, chosen, cover, rewards);
        Success(c.(counters := c.counters[chosen := c.counters[chosen] + 1],
                   status := if chosen == Wander then Walk else Run))
  }

  /**
   * A decision changes the fitness only by one of the configured rewards:
   * the unnecessary bonus or first-aid pick-up, or reaching cover under fire.
   */
  lemma UpdateAIRewards(a: Agent, hasTarget: bool, outputs: seq<real>, numOutputs: int, draw: real,
                        cover: CoverOutcome, rewards: Rewards)
    requires IsUnitDraw(draw) && a.counters.Keys == CountedActions
    ensures var r := UpdateAI(a, hasTarget, outputs, numOutputs, draw, cover, rewards);
      r.Success? ==>
        || r.value.fitness == a.fitness
        || r.value.fitness == UpdateFitness(a.fitness, rewards.decreaseBonus)
        || r.value.fitness == UpdateFitness(a.fitness, rewards.decreaseMed)
        || r.value.fitness == UpdateFitness(a.fitness, rewards.getToCover)
  {
  }

  /**
   * Unless busy, the agent ends the decision doing the action the network
   * chose, except that an unneeded pick-up leaves it free and a cover it
   * already holds leaves it as it was.
   */
  lemma UpdateAIFollowsChoice(a: Agent, hasTarget: bool, outputs: seq<real>, numOutputs: int, draw: real,
                              cover: CoverOutcome, rewards: Rewards)
    requires IsUnitDraw(draw) && a.counters.Keys == CountedActions
    ensures var r := UpdateAI(a, hasTarget, outputs, numOutputs, draw, cover, rewards);
      r.Success? && !Busy(a) ==>
        var chosen := Choice(RangeIndex(outputs[0], 5, draw), hasTarget).value;
        || (r.value.action == chosen && r.value.occupied)
        || (r.value.action == Free && !r.value.occupied && chosen in {PUBonus, PUMed})
        || (chosen == TakeCover && cover == SameCover && r.value.action == DropFailingAttack(a).action)
  {
  }

  /** A busy agent's frame does not depend on what the network would say. */
  lemma BusyIgnoresNetwork(a: Agent, hasTarget: bool, out1: seq<real>, out2: seq<real>, numOutputs: int, draw: real,
                           cover: CoverOutcome, rewards: Rewards)
    requires IsUnitDraw(draw) && a.counters.Keys == CountedActions && Busy(a)
    ensures UpdateAI(a, hasTarget, out1, numOutputs, draw, cover, rewards) == UpdateAI(a, hasTarget, out2, numOutputs, draw, cover, rewards)
  {
  }

  /** The idle penalty of `Update`: one more on a frame that ends free with life below 0.7 or experience below 70. */
  function PenaltyTick(a: Agent): (b: Agent)
    ensures b.fitness.penaltyCounter == a.fitness.penaltyCounter + (if a.action == Free && (a.life < 0.7 || a.experience < 70.0) then 1.0 else 0.0)
    ensures b.fitness == a.fitness.(penaltyCounter := b.fitness.penaltyCounter)
    ensures b.action == a.action && b.counters == a.counters
  {
    if a.action == Free && (a.life < 0.7 || a.experience < 70.0) then
      a.(fitness := a.fitness.(penaltyCounter := a.fitness.penaltyCounter + 1.0))
    else a
  }

  /** The fitness operations keep the histories consistent. */
  lemma FitnessStaysConsistent(f: Fitness, frames: real, exp: real, factor: real, value: real)
    requires Consistent(f)
    ensures Consistent(CalculateActualFitness(f, frames, exp, factor))
    ensures Consistent(ResetFitness(f)) && Consistent(UpdateFitness(f, value))
  {
  }
}
