# AIGame: the learning and decision core, in Dafny

AIGame is a battle simulation in which soldier agents are driven by small
feed-forward neural networks. A genetic algorithm evolves the networks'
weights. This project models, as immutable Dafny values and pure functions,
the parts of the game that decide and learn:

- **the neural network**: its topology, the flat weight vector and split
  points the genetic algorithm works on, and the forward pass (`NeuralNet`);
- **the genetic algorithm**: genomes and their comparison, fitness
  statistics, the four fitness-scaling schemes, roulette selection, elitism,
  mutation, the two crossovers and one whole `Epoch` (`Genomes`,
  `GAFitness`, `GeneticAlgorithm`);
- **the random helpers and clamps** (`AIUtils`). Every `NextDouble()` is a
  draw read from an explicit stream `Rng(draw, pos)` of values in [0, 1);
- **the container that bridges agents and population**: unique identifiers,
  the checkpoint text written after every epoch and the loader that reads
  it back, the "elite only" reshuffle, the two frame timers, the per-frame
  live fitness and the rebinding of new genomes to agents
  (`Checkpoint`, `AIContainers`);
- **one agent's fitness accounting and action decoding** (`AIObjects`);
- **the configuration reader**: the key lookup, the scaling-name mapping and
  the key-to-setting assignments (`AIParams`);
- **team state**: formation, keep-formation, status cycling, member
  registration and the slot numbering of the row and arrow formations
  (`AITeams`);
- **grid arithmetic** of the height map and the terrain: wrap-around
  indexing, the box filter over linear indices, the vertex layout and the
  triangle index buffer (`HeightMaps`, `Terrains`).

`Text` models the pieces of .NET text handling these use: `string.Split`,
`Trim`, `int.Parse`, `ToString()` of integers and `ReadLine`. `Wrappers`
holds `Option` and `Result`.

Things the model cannot compute are parameters:

- `Math.Exp`, `Math.Sqrt`;
- number-to-text and text-to-number conversion of `double`s;
- the random stream.

Each comes with the property the proofs need: the exponential is positive,
the square root is the non-negative root, a printed number is number text
(digits, sign, point, exponent), and every draw lies in [0, 1). The
checkpoint read-back lemmas assume in addition only that parsing gives
back each number the block actually writes (`Checkpoint.ReadsBack` of
`Checkpoint.Written`: best and average fitness, then each genome's fitness
and weights). They do not assume a round trip of every real through
finite text, which no pair of conversions can meet.

An exception that leaves an operation is an explicit error value. A
division by zero that would leave `Infinity` or `NaN` in a fitness value is
one too (`NonFiniteFitness`).

Three behaviours of the code are easy to misread:

- **Split points.** They count `NumInputs` weights per neuron, not
  `NumInputs + 1`. The two-input net with one hidden layer of two neurons
  therefore splits at 1, 3 and 5 (`NeuralNet.SplitPointsOfSmallNet`).
- **Elitism.** It copies the sorted pairs just below the fittest one, never
  the fittest pair itself (`GeneticAlgorithm.EliteExcludesFittest`).
- **Bias weight.** Each neuron draws one weight more than it has inputs,
  but the forward pass multiplies the bias by the weight of the last input
  (index `NumInputs - 1`). The extra weight is never read, and the genetic
  algorithm never sees it (`NeuralNet.LayerOutput`).

## Model

| member | source | states |
|---|---|---|
| AIUtils.RandomClamped | AIGame/AI/AIUtils.cs:15-18 | a draw r in [0, 1) becomes a value in [-1, 1), and r is recovered from it as (v + 1) / 2 |
| AIUtils.Random | AIGame/AI/AIUtils.cs:23-26 | the scaled draw lies in [0, max) for a positive max, is 0 for max 0, and lies in (max, 0] for a negative max |
| AIUtils.RandomInt | AIGame/AI/AIUtils.cs:31-35 | the floored draw plus min lies in [min, max) when min < max, is min when they are equal, and lies between them otherwise |
| AIUtils.Clamp | AIGame/AI/AIUtils.cs:37-45 | the result lies in [0, 1], equals the value inside that range and the nearer end outside it |
| AIUtils.ClampTo | AIGame/AI/AIUtils.cs:47-55 | the result lies in [0, clampTo] for a non-negative bound, equals the value inside and the nearer end outside |
| AIUtils.ClampAsOneAroundZero | AIGame/AI/AIUtils.cs:57-65 | the result lies in [-0.5, 0.5], equals the value inside and the nearer end outside |
| AIUtils.ClampedDraws | AIGame/AI/GA/GeneticAlgorithm.cs:112-113 | count successive `RandomClamped` values, the k-th read from position pos + k of the stream, each in [-1, 1) |
| Genomes.DefaultGenome | AIGame/AI/GA/Genome.cs:23-27 | the default genome has no weights and fitness 0 |
| Genomes.CompareFitness | AIGame/AI/GA/Genome.cs:34-40 | the comparison is 1, 0 or -1 exactly when the first fitness is above, equal to or below the second |
| Genomes.ComparePairs | AIGame/AI/GA/GeneticAlgorithm.cs:18-24 | the pair comparison is at most 0 exactly when the first fitness is not above the second, and it is antisymmetric |
| Genomes.SortedIffAdjacent | AIGame/AI/GA/GeneticAlgorithm.cs:18-24 | a list in which every neighbour compares as "not above" its successor is exactly a list of non-decreasing fitness |
| Genomes.SortByFitness | AIGame/AI/GA/GeneticAlgorithm.cs:356 | a reference sort: it returns a permutation of its input, ascending by fitness, with ties in one of the orders `List.Sort` may leave them in |
| Genomes.SortedPermutationsAgreeOnFitness | AIGame/AI/GA/GeneticAlgorithm.cs:356 | any two ascending arrangements of the same pairs have the same fitness at every position, so an unstable sort decides only which of equally fit pairs comes first |
| GAFitness.Highest | AIGame/AI/GA/GeneticAlgorithm.cs:122-132 | the running maximum is at least its start value, bounds every fitness, and is the start value or some pair's fitness |
| GAFitness.Lowest | AIGame/AI/GA/GeneticAlgorithm.cs:123-138 | the running minimum is at most its start value, is below every fitness, and is the start value or some pair's fitness |
| GAFitness.CalculateFitnesses | AIGame/AI/GA/GeneticAlgorithm.cs:119-143 | the total is the sum of the fitness values; the average divides it by the configured size, not by the list length; the best fitness is the maximum but never below 0; the worst is the minimum, or `double.MaxValue` for an empty list |
| GAFitness.Rebaseline | AIGame/AI/GA/GeneticAlgorithm.cs:147-166 | both branches move every fitness to f - worst and keep identifiers and weights |
| GAFitness.BaselineReady | AIGame/AI/GA/GeneticAlgorithm.cs:147-166 | after the first step of scaling no fitness is negative and the roulette total is their sum, whether or not the worst equals the best |
| GAFitness.BaselineKeepsOrder | AIGame/AI/GA/GeneticAlgorithm.cs:147-166 | re-baselining keeps an ascending population ascending |
| GAFitness.RankingScale | AIGame/AI/GA/GeneticAlgorithm.cs:184-192 | the pair at sorted position i gets fitness i; the result is ascending, not negative, and keeps identifiers and weights |
| GAFitness.RankingTotal | AIGame/AI/GA/GeneticAlgorithm.cs:184-192 | the ranking total is n(n-1)/2 |
| GAFitness.CoolDown | AIGame/AI/GA/GeneticAlgorithm.cs:196-199 | the temperature drops by one step and is floored at the minimum |
| GAFitness.BoltzmannScale | AIGame/AI/GA/GeneticAlgorithm.cs:194-211 | Boltzmann scaling fails exactly when a non-empty population would divide by a zero temperature or a zero average; otherwise each fitness becomes its share of the total times the population size |
| GAFitness.BoltzmannIdentity | AIGame/AI/GA/GeneticAlgorithm.cs:201-208 | (f / t) / ((total / n) / t) equals f * n / total: the temperature cancels out |
| GAFitness.BoltzmannReady | AIGame/AI/GA/GeneticAlgorithm.cs:194-211 | Boltzmann scaling of non-negative values whose total is their sum leaves them non-negative and keeps their order |
| GAFitness.SquaredDeviations | AIGame/AI/GA/GeneticAlgorithm.cs:215-221 | the running sum of squared deviations is not negative |
| GAFitness.Deviation | AIGame/AI/GA/GeneticAlgorithm.cs:222-223 | sigma is not negative and sigma squared times the count is the sum of squared deviations |
| GAFitness.SigmaScale | AIGame/AI/GA/GeneticAlgorithm.cs:213-249 | sigma scaling fails exactly when the population is empty or sigma is 0; otherwise each fitness becomes (f - average) / (2 sigma) plus one common shift, which clears every negative value, and the total is the sum |
| GAFitness.SigmaKeepsOrder | AIGame/AI/GA/GeneticAlgorithm.cs:213-249 | sigma scaling keeps an ascending population ascending |
| GAFitness.ScaleFitnesses | AIGame/AI/GA/GeneticAlgorithm.cs:144-182 | only Boltzmann and Sigma can fail; identifiers and weights are kept; only Boltzmann changes the temperature and only Sigma the stored sigma; Ranking gives fitness i at position i; NoneUnsigned only re-baselines, or changes nothing when worst equals best |
| GAFitness.ScalingReady | AIGame/AI/GA/GeneticAlgorithm.cs:119-182 | whatever the scheme, a successful scaling leaves no negative fitness, a roulette total equal to the sum of the fitness values, and an ascending population still ascending |
| GAFitness.ScaledReady | AIGame/AI/GA/GeneticAlgorithm.cs:168-181 | each scheme keeps a ready baseline ready: non-negative values, their sum as roulette total, and their order |
| GAFitness.RouletteFrom | AIGame/AI/GA/GeneticAlgorithm.cs:259-269 | the loop stops at the first position whose running fitness sum reaches the slice, or finds none when no prefix reaches it |
| GAFitness.Roulette | AIGame/AI/GA/GeneticAlgorithm.cs:251-271 | the selected pair is the first whose running sum reaches a slice drawn from [0, total); no selection means no prefix reaches the slice |
| GAFitness.RouletteSelects | AIGame/AI/GA/GeneticAlgorithm.cs:251-271 | with no negative fitness and the total equal to the sum, the wheel always selects a pair of a non-empty population |
| GeneticAlgorithm.InitialPopulation | AIGame/AI/GA/GeneticAlgorithm.cs:107-114 | popSize unnamed genomes with fitness 0 and numWeights clamped draws each, read genome after genome |
| GeneticAlgorithm.NewGA | AIGame/AI/GA/GeneticAlgorithm.cs:91-115 | the constructor's fields: counter at popSize, generation 0, best fitness 0, worst fitness `double.MaxValue`, the configured temperature; weights in [-1, 1); exactly popSize * numWeights draws consumed |
| GeneticAlgorithm.EliteLoopIsRepeat | AIGame/AI/GA/GeneticAlgorithm.cs:272-281 | the `while (NBest != 0)` loop appends numCopies references to each of the sorted pairs popSize-1-NBest up to popSize-2, in that order |
| GeneticAlgorithm.EliteLoopFails | AIGame/AI/GA/GeneticAlgorithm.cs:272-281 | an index outside the population raises |
| GeneticAlgorithm.GrabNBest | AIGame/AI/GA/GeneticAlgorithm.cs:272-281 | elitism succeeds exactly when nothing is copied or every index is inside the population; then it holds numCopies copies of each of those pairs, numElite * numCopies entries in all |
| GeneticAlgorithm.EliteExcludesFittest | AIGame/AI/GA/GeneticAlgorithm.cs:278 | the pair at the top of the sorted population is never among the elite copies unless it also sits lower down |
| GeneticAlgorithm.EliteCount | AIGame/AI/GA/GeneticAlgorithm.cs:363-364 | the number of elite entries is always even |
| GeneticAlgorithm.Elitism | AIGame/AI/GA/GeneticAlgorithm.cs:363-364 | elites are copied only when NumCopiesElite * NumElite is even; the step fails exactly when elites are due and an index is outside the population |
| GeneticAlgorithm.FilledLength | AIGame/AI/GA/GeneticAlgorithm.cs:366-398 | adding two pairs at a time after an even elite block ends at the elite count, or at the population size rounded up to even |
| GeneticAlgorithm.Perturbation | AIGame/AI/GA/GeneticAlgorithm.cs:287 | a perturbation is at most MaxPerturbation in absolute value |
| GeneticAlgorithm.MutateGene | AIGame/AI/GA/GeneticAlgorithm.cs:284-288 | one gene moves by at most MaxPerturbation, with one or two draws consumed; a rate of 0 or less never changes it |
| GeneticAlgorithm.Mutate | AIGame/AI/GA/GeneticAlgorithm.cs:282-289 | mutation keeps the length and moves every gene by at most MaxPerturbation, with between |c| and 2|c| draws consumed; a rate of 0 or less changes nothing |
| GeneticAlgorithm.ExchangeRecombines | AIGame/AI/GA/GeneticAlgorithm.cs:301-311 | exchanging a range of genes leaves the parents' two genes between the two children at every position |
| GeneticAlgorithm.Crossover | AIGame/AI/GA/GeneticAlgorithm.cs:290-312 | when the rate draw skips crossing, or the parents hold equal weights (the value test standing for the program's same-list test), the children are the parents; otherwise the cut is RandomInt(0, L-1), at most L-2; the genes from the cut to the end of mum are exchanged; a cut outside mum or a shorter dad raises |
| GeneticAlgorithm.SinglePointIsExchange | AIGame/AI/GA/GeneticAlgorithm.cs:301-311 | the two copy loops build the children that exchange the genes from the cut on |
| GeneticAlgorithm.CrossoverRecombines | AIGame/AI/GA/GeneticAlgorithm.cs:290-312 | single-point crossover of equally long parents recombines their genes position by position |
| GeneticAlgorithm.CrossoverExchangesLastGene | AIGame/AI/GA/GeneticAlgorithm.cs:299-311 | with parents as long as the chromosome, a real crossover always swaps the last gene, because the cut is at most L-2 |
| GeneticAlgorithm.CrossoverSucceeds | AIGame/AI/GA/GeneticAlgorithm.cs:290-312 | with parents as long as a chromosome of at least one gene, single-point crossover never raises |
| GeneticAlgorithm.SplitChoice | AIGame/AI/GA/GeneticAlgorithm.cs:322-323 | with at least two split points, the indices satisfy 0 <= i1 <= i2 <= count - 2 |
| GeneticAlgorithm.CrossoverSplitPoints | AIGame/AI/GA/GeneticAlgorithm.cs:313-341 | unless skipped (by the rate draw, or parents holding equal weights, as in `GeneticAlgorithm.Crossover`), the genes from split point i1 (inclusive) to split point i2 (exclusive) are exchanged; an index outside the split points or a shorter dad raises |
| GeneticAlgorithm.CrossoverSplitPointsRecombines | AIGame/AI/GA/GeneticAlgorithm.cs:313-341 | split-point crossover of equally long parents recombines their genes position by position |
| GeneticAlgorithm.CrossoverSplitPointsSucceeds | AIGame/AI/GA/GeneticAlgorithm.cs:313-341 | with at least two split points and a dad as long as mum, split-point crossover never raises |
| GeneticAlgorithm.MutId | AIGame/AI/GA/GeneticAlgorithm.cs:390-391 | a bred identifier is the text "AIObjMut " followed by more |
| GeneticAlgorithm.MutIdDigits | AIGame/AI/GA/GeneticAlgorithm.cs:390-391 | what follows the "AIObjMut " prefix is a run of decimal digits that reads back as the number |
| GeneticAlgorithm.MutIdInjective | AIGame/AI/GA/GeneticAlgorithm.cs:390-391 | two bred identifiers "AIObjMut n" are equal exactly when their numbers are |
| GeneticAlgorithm.Cross | AIGame/AI/GA/GeneticAlgorithm.cs:382-385 | the configured crossover consumes at least one draw of the same stream |
| GeneticAlgorithm.Breed | AIGame/AI/GA/GeneticAlgorithm.cs:366-397 | one loop pass appends exactly two pairs and keeps what was there; each appended pair repeats an earlier pair or is a fresh child of fitness 0, the fresh ones carrying "AIObjMut counter+1", "AIObjMut counter+2", … in order, with the counter moved to the last number used; the only failure is an index out of range |
| GeneticAlgorithm.BreedAppends | AIGame/AI/GA/GeneticAlgorithm.cs:369-397 | a pass either appends two fresh children numbered counter + 1 and counter + 2 and advances the counter by two, or (in the catch) appends entries 0 and 2 of the population, entry 0 twice when only two exist, leaving the counter alone |
| GeneticAlgorithm.BredFromCounts | AIGame/AI/GA/GeneticAlgorithm.cs:366-397 | the numbering of fresh children never goes back and uses at most one number per appended pair |
| GeneticAlgorithm.BredFromExtend | AIGame/AI/GA/GeneticAlgorithm.cs:366-397 | a bred stretch followed by a bred stretch continuing its numbering is one bred stretch |
| GeneticAlgorithm.ChildPositions | AIGame/AI/GA/GeneticAlgorithm.cs:390-391 | the fresh children of a bred stretch sit at strictly increasing positions, the j-th carrying number lo + 1 + j, one per number used |
| GeneticAlgorithm.OthersRepeat | AIGame/AI/GA/GeneticAlgorithm.cs:394-395 | every position of a bred stretch that holds no fresh child repeats a pair that comes before it |
| GeneticAlgorithm.FreshIdsDistinct | AIGame/AI/GA/GeneticAlgorithm.cs:366-397 | the fresh children of a bred population carry the numbers lo + 1 to hi without gaps, in order of position, so no two of them share an identifier; every other appended pair repeats an earlier one |
| GeneticAlgorithm.ContinuesTrans | AIGame/AI/GA/GeneticAlgorithm.cs:366-398 | successive passes compose: the population only grows at its end, with fresh children or repeats |
| GeneticAlgorithm.Fill | AIGame/AI/GA/GeneticAlgorithm.cs:366-398 | the loop leaves a full population alone; otherwise it ends at the size or one more, having added an even number of pairs that continue the numbering of fresh children from the counter |
| GeneticAlgorithm.FillStep | AIGame/AI/GA/GeneticAlgorithm.cs:366-398 | one more pass of the loop keeps the population growing only at its end, by an even count, to the size or one more |
| GeneticAlgorithm.NextPopulation | AIGame/AI/GA/GeneticAlgorithm.cs:361-398 | the new population has max(e, size rounded up to even) entries; it starts with the elite block; after the block every pair repeats an earlier one or is a fresh child of fitness 0, the fresh ones numbered from the old counter + 1 up to the new counter, in order, without gaps |
| GeneticAlgorithm.Advanced | AIGame/AI/GA/GeneticAlgorithm.cs:347-358 | after an epoch the generation is one higher, the best fitness is the old population's, and the configuration is unchanged |
| GeneticAlgorithm.EpochSorted | AIGame/AI/GA/GeneticAlgorithm.cs:346-401 | the epoch on a sorted population: the new population's length, its elite head and its bred tail numbered from the old counter on, the advanced counters, and a scaled old population that is ascending, non-negative and summed into the roulette total |
| GeneticAlgorithm.Epoch | AIGame/AI/GA/GeneticAlgorithm.cs:344-402 | given any ascending rearrangement of the old population (the unstable sort may order equal fitnesses either way), the scaled population it returns is as long as the old one, ascending, and carries the sorted list's identifiers and weights position by position; the next population has max(e, size rounded up to even) entries and its fresh children are numbered on from the old counter |
| GeneticAlgorithm.EliteLoopNoCopies | AIGame/AI/GA/GeneticAlgorithm.cs:272-281 | with zero copies per elite the loop adds nothing and cannot raise, whatever the elite count |
| GeneticAlgorithm.ElitesLead | AIGame/AI/GA/GeneticAlgorithm.cs:363-366 | when elites are due, any list that starts with the elite block starts with numCopies copies of the pairs just below the fittest |
| GeneticAlgorithm.Exchange | AIGame/AI/GA/GeneticAlgorithm.cs:301-341 | exchanging the range [lo, hi) gives children as long as mum, each taking dad's gene inside the range and mum's outside it, and the other way round |
| GeneticAlgorithm.PopulatedLength | AIGame/AI/GA/GeneticAlgorithm.cs:366-398 | the breeding loop, started from an even-sized elite list, ends at the elite count when that already reaches the population size and otherwise at the size rounded up to even; the identifier counter only advances and every appended pair is a fresh child numbered from the old counter or a repeat, and the random stream stays valid |
| GeneticAlgorithm.PopulatedElites | AIGame/AI/GA/GeneticAlgorithm.cs:363-398 | when elitism applies, the new population begins with the copies of the best genomes that elitism picked, because the loop only appends after them |
| GeneticAlgorithm.ScaledForEpoch | AIGame/AI/GA/GeneticAlgorithm.cs:356-360 | scaling the sorted population keeps identifiers, weights and order, leaves no negative fitness and sums into the roulette total |
| GeneticAlgorithm.PopulationForEpoch | AIGame/AI/GA/GeneticAlgorithm.cs:361-401 | the population stored at the end of the epoch has the new length, the elite head and the bred tail, with a counter that never goes back |
| GeneticAlgorithm.DrawnFrom | AIGame/AI/GA/GeneticAlgorithm.cs:356 | every pair of the sorted population was in the population before sorting |
| GeneticAlgorithm.SameLength | AIGame/AI/GA/GeneticAlgorithm.cs:356 | a rearrangement of the population is as long as the population |
| GeneticAlgorithm.ScaledFromPrevious | AIGame/AI/GA/GeneticAlgorithm.cs:344-360 | every pair of the scaled population carries the identifier and the weights of some pair of the population handed to the epoch |
| NeuralNet.NewNeuron | AIGame/AI/ANN/Neuron.cs:21-27 | a new neuron with n inputs holds n + 1 weights, each in [-1, 1), and uses n + 1 draws |
| NeuralNet.NewLayer | AIGame/AI/ANN/NeuronLayer.cs:21-26 | a new layer holds count neurons of numInputs inputs each and uses count * (numInputs + 1) draws |
| NeuralNet.NewLayers | AIGame/AI/ANN/NeuralNet.cs:46-51 | the hidden-to-hidden layers are count layers of the same shape |
| NeuralNet.NewNet | AIGame/AI/ANN/NeuralNet.cs:38-57 | the constructor keeps the four sizes and builds numHiddenLayers + 1 layers: the first reads the inputs, the others read the previous hidden layer, and the last has numOutputs neurons; with no hidden layer one layer maps inputs to outputs |
| NeuralNet.NumberOfWeightsOfNewNet | AIGame/AI/ANN/NeuralNet.cs:141-150 | a new network has perHidden * numInputs + (hidden - 1) * perHidden^2 + numOutputs * perHidden weights, or numOutputs * numInputs with no hidden layer; the bias weights are not counted |
| NeuralNet.NumberOfWeights | AIGame/AI/ANN/NeuralNet.cs:141-150 | the weight count is the length of the flat weight list the genetic algorithm works on |
| NeuralNet.GetWeights | AIGame/AI/ANN/NeuralNet.cs:120-130 | the flat weight list is as long as the weight count, bias weights left out |
| NeuralNet.GetWeightsAt | AIGame/AI/ANN/NeuralNet.cs:120-130 | input weight k of neuron n, neurons counted layer after layer, sits at the sum of the earlier neurons' input counts plus k |
| NeuralNet.PutWeights | AIGame/AI/ANN/NeuralNet.cs:132-139 | putting weights fails exactly when the list is shorter than the weight count; otherwise reading the weights back gives the list's prefix, every layer keeps its neuron count, every neuron its input count and its unused extra weight, and nothing but the layers changes |
| NeuralNet.PutNeuronsKeeps | AIGame/AI/ANN/NeuralNet.cs:132-139 | writing weights into neurons keeps each neuron's input count and its extra weight past the inputs |
| NeuralNet.PutWeightsOfGetWeights | AIGame/AI/ANN/NeuralNet.cs:120-139 | putting a network's own weights back gives the same network |
| NeuralNet.FlatPut | AIGame/AI/ANN/NeuralNet.cs:132-139 | the neurons written from position pos read back as exactly the slice written |
| NeuralNet.PutFlat | AIGame/AI/ANN/NeuralNet.cs:132-139 | writing neurons from a slice equal to their own weights changes nothing |
| NeuralNet.PutLayers | AIGame/AI/ANN/NeuralNet.cs:132-139 | writing layer by layer equals writing the neurons one after another, and keeps the number of layers and each layer's neuron count |
| NeuralNet.PutLayersFlat | AIGame/AI/ANN/NeuralNet.cs:132-139 | writing layers from a slice equal to their own weights changes nothing |
| NeuralNet.Regroup | AIGame/AI/ANN/NeuralNet.cs:132-139 | the neurons put back into the layers, in the same order, are exactly the given neurons, each layer keeping its neuron count |
| NeuralNet.RegroupOwn | AIGame/AI/ANN/NeuralNet.cs:132-139 | regrouping the layers' own neurons gives the same layers |
| NeuralNet.CalculateSplitPoints | AIGame/AI/ANN/NeuralNet.cs:59-75 | there is one split point per neuron, and the n-th is the number of input weights of the first n + 1 neurons, minus one |
| NeuralNet.SplitPointsIncreasing | AIGame/AI/ANN/NeuralNet.cs:59-75 | when every neuron has an input the split points increase strictly, start at 0 or above and end at the last weight index |
| NeuralNet.SplitPointsOfSmallNet | AIGame/AI/ANN/NeuralNet.cs:59-75 | a two-input net with one hidden layer of two neurons and one output splits at 1, 3 and 5 |
| NeuralNet.Sigmoid | AIGame/AI/ANN/NeuralNet.cs:152-155 | the sigmoid lies strictly between 0 and 1 and is the reciprocal of 1 + exp(-a / p) |
| NeuralNet.LayerOutput | AIGame/AI/ANN/NeuralNet.cs:94-112 | a layer computes, for each neuron, its weighted input sum plus the bias times the weight of its last input, and the sigmoid of that; it fails exactly when a neuron has no input or more inputs than the values fed |
| NeuralNet.FeedForward | AIGame/AI/ANN/NeuralNet.cs:87-113 | the forward pass returns one activation per neuron of the last layer, each strictly between 0 and 1 and the sigmoid of its raw sum |
| NeuralNet.FeedForwardSucceeds | AIGame/AI/ANN/NeuralNet.cs:87-113 | when each layer's neurons read as many inputs as the previous layer has outputs, and at least one, the forward pass never fails |
| NeuralNet.Update | AIGame/AI/ANN/NeuralNet.cs:77-118 | the inputs are always recorded; a list of the wrong length returns an empty output and keeps the last outputs; otherwise the outputs and raw sums are recorded, one per output neuron, each output in (0, 1) |
| NeuralNet.Recorded | AIGame/AI/ANN/NeuralNet.cs:77-118 | a network with another one's recorded inputs, outputs and raw sums, and everything else its own |
| NeuralNet.UpdateOnlyRecords | AIGame/AI/ANN/NeuralNet.cs:77-118 | a forward pass changes only the recorded inputs, outputs and raw sums: the weights and shape stay |
| NeuralNet.NewNetUpdateSucceeds | AIGame/AI/ANN/NeuralNet.cs:38-118 | a freshly built network with at least one input, fed the right number of inputs, returns numOutputs values in (0, 1) |
| AIObjects.NewFitness | AIGame/AI/AIObject.cs:34-79 | a new agent starts with empty histories, a zero total and a zero penalty counter |
| AIObjects.Gains | AIGame/AI/AIObject.cs:940-946 | the per-life gain at position i is the frames lived since the previous sample, less the penalty recorded at i |
| AIObjects.GainsTelescope | AIGame/AI/AIObject.cs:940-946 | the gains add up to the last life sample less the sum of the matching penalties |
| AIObjects.FitnessTotals | AIGame/AI/AIObject.cs:937-947 | the averaging loop's life total is the sum of the gains, which telescopes to the last sample less the penalties, and its experience total is the sum of the samples |
| AIObjects.TakeSample | AIGame/AI/AIObject.cs:933-935 | one death appends the frames lived, the experience and the current penalty counter to the three histories |
| AIObjects.Averaged | AIGame/AI/AIObject.cs:947-951 | the life component is (last sample - matching penalties) / count, the experience component is the mean sample times the factor, the total is life + experience + custom, and the penalty counter restarts |
| AIObjects.CalculateActualFitness | AIGame/AI/AIObject.cs:931-952 | after a death the histories grow by one sample each, life is (frames - sum of the matching penalties) / count, experience is the mean times the factor, the total is their sum plus custom, and the counter restarts at 0 |
| AIObjects.MeanGain | AIGame/AI/AIObject.cs:940-947 | the mean gain is the last life sample less the matching penalties, per sample |
| AIObjects.ResetFitness | AIGame/AI/AIObject.cs:320-330 | a reset zeroes the four fitness components and clears the life and experience histories, but keeps the penalty history and counter |
| AIObjects.FirstDeathAfterResetReadsOldPenalty | AIGame/AI/AIObject.cs:320-330 | because the penalty history survives a reset, the first death after it subtracts the first penalty ever recorded |
| AIObjects.UpdateFitness | AIGame/AI/AIObject.cs:1102-1105 | a reward moves only the custom component; the total waits for the next death |
| AIObjects.UpdateFitnessAdds | AIGame/AI/AIObject.cs:1102-1105 | two rewards in a row equal one reward of their sum |
| AIObjects.FitnessStaysConsistent | AIGame/AI/AIObject.cs:320-330 | sampling, resetting and rewarding keep one experience sample per life sample and at least as many penalty samples |
| AIObjects.BoostOrDecreaseExperience | AIGame/AI/AIObject.cs:489-496 | experience moves by the value and is held in [0, 100] |
| AIObjects.HealOrHarm | AIGame/AI/AIObject.cs:497-502 | life moves by the value and is capped at 1 from above only |
| AIObjects.HarmGoesBelowZero | AIGame/AI/AIObject.cs:497-502 | harm can leave life below zero, since only the upper bound is enforced |
| AIObjects.FirstRangeFrom | AIGame/AI/AIObject.cs:956-961 | the loop returns the first range at or after i holding the value, or reports that none from i on does |
| AIObjects.NoRangeMeansAbove | AIGame/AI/AIObject.cs:956-962 | if the value is at or above the start of range i and no later range holds it, it is at least 1 |
| AIObjects.NoRangeOutsideUnit | AIGame/AI/AIObject.cs:956-962 | only a value outside [0, 1) reaches the random fallback |
| AIObjects.RangeOnlyInsideUnit | AIGame/AI/AIObject.cs:956-961 | a value that lies in one of the ranges lies in [0, 1) |
| AIObjects.RangesDisjoint | AIGame/AI/AIObject.cs:956-961 | no value lies in two ranges |
| AIObjects.RangeIndex | AIGame/AI/AIObject.cs:954-963 | for n >= 1 the index is in [0, n); a value in [0, 1) gets the range that holds it; any other value gets the random index Floor(draw * (n - 1)) |
| AIObjects.Choice | AIGame/AI/AIObject.cs:999-1036 | indices 0 to 4 start an action and any other raises; Attack is chosen exactly for index 0 with a target; bonus pickup for index 1 or for index 0 without a target; no index frees the agent |
| AIObjects.ZeroCounters | AIGame/AI/AIObject.cs:309-314 | there is one action counter per action except Free, each at 0 |
| AIObjects.SetFree | AIGame/AI/AIObject.cs:146-152 | freeing sets the action to Free, clears the occupied flag and sets the movement to Walk, and changes nothing else |
| AIObjects.OccupyBy | AIGame/AI/AIObject.cs:141-145 | occupying records the action and sets the occupied flag; counters, fitness and movement stay |
| AIObjects.Reset | AIGame/AI/AIObject.cs:320-334 | after a reset the agent is alive with life 1, experience 0, its fitness reset, its counters at zero, free, and with the same identifier |
| AIObjects.Perform | AIGame/AI/AIObject.cs:380-467 | an action never changes counters, life or experience; a bonus pickup frees the agent and costs the bonus penalty exactly when experience is full; a medkit pickup does the same for full life; Attack and Wander occupy the agent with fitness untouched |
| AIObjects.DropFailingAttack | AIGame/AI/AIObject.cs:966-968 | an attack survives the first check only if life is at least 0.5 and nobody is shooting at the agent |
| AIObjects.UpdateAI | AIGame/AI/AIObject.cs:964-1037 | a busy agent only drops a failing attack; otherwise the step fails exactly when the network returns fewer outputs than configured, or none; on success the action, the occupied flag and the fitness are those `Perform` gives for the action chosen from the first output, the chosen action's counter goes up by one, movement becomes Walk for wandering and Run otherwise, and life is unchanged |
| AIObjects.UpdateAIRewards | AIGame/AI/AIObject.cs:964-1037 | one decision step leaves the fitness alone or applies exactly one of the bonus penalty, the medkit penalty or the cover reward |
| AIObjects.UpdateAIFollowsChoice | AIGame/AI/AIObject.cs:964-1037 | a free agent ends the step doing the action chosen from its first output and occupied, or free after a pickup it did not need, or, when cover was already taken, still doing what it did before |
| AIObjects.BusyIgnoresNetwork | AIGame/AI/AIObject.cs:970-971 | a busy agent's frame is the same whatever the network outputs |
| AIObjects.PenaltyTick | AIGame/AI/AIObject.cs:1116-1117 | the idle penalty counter goes up by one exactly on a frame that ends free with life below 0.7 or experience below 70 |
| AIParams.NonEmpty | AIGame/AI/AIParams.cs:106-110 | the kept pieces are the non-empty ones, each taken from the split, never more than the split holds |
| AIParams.TokensAreTokens | AIGame/AI/AIParams.cs:106-110 | every token of a line is non-empty and holds no blank or tab |
| AIParams.TokensOfJoin | AIGame/AI/AIParams.cs:106-110 | a line written as tokens joined by single blanks is tokenized back into exactly those tokens |
| AIParams.FirstDefinition | AIGame/AI/AIParams.cs:104-121 | a found line lies at or after the start and has at least two tokens, the first of them the key |
| AIParams.FirstDefinitionIsFirst | AIGame/AI/AIParams.cs:104-121 | the search stops at the first defining line, and finds none only when no line from the start defines the key |
| AIParams.Message | AIGame/AI/AIParams.cs:122 | the message raised for a missing key names the key |
| AIParams.ReadParam | AIGame/AI/AIParams.cs:99-123 | a found value is a token, and a failure reports the key that was looked up |
| AIParams.ReadParamFindsFirst | AIGame/AI/AIParams.cs:99-123 | the lookup succeeds exactly when some line has at least two tokens and the key first, and then returns the second token of the first such line |
| AIParams.FirstDefinitionInFront | AIGame/AI/AIParams.cs:104-121 | a definition in the first part of a file is found before anything after it; otherwise the search continues where the first part ends |
| AIParams.FirstDefinitionInBack | AIGame/AI/AIParams.cs:104-121 | searching the rest of a file finds what searching that part alone finds, shifted by the first part's length |
| AIParams.ReadParamAppend | AIGame/AI/AIParams.cs:99-123 | looking a key up in a file is looking it up in its first part, or else in the rest: later lines never override earlier ones |
| AIParams.ReadParamOfDefinition | AIGame/AI/AIParams.cs:111-118 | a line "key value extra…" written in front of any file reads back as value, whatever follows it |
| AIParams.DefinitionLine | AIGame/AI/AIParams.cs:106-118 | a line "key value extra…" tokenizes into exactly those tokens and defines the key |
| AIParams.ScalingFromName | AIGame/AI/AIParams.cs:148-165 | a name other than Ranking, Boltzmann and Sigma gives NoneUnsigned |
| AIParams.ScalingNameRoundTrip | AIGame/AI/AIParams.cs:148-165 | every scheme is read back from its own name |
| AIParams.ParseBool | AIGame/AI/AIParams.cs:145 | `bool.Parse` gives true exactly for "True" and false exactly for "False", in any letter case, surrounding white space ignored |
| AIParams.ParseBoolRoundTrip | AIGame/AI/AIParams.cs:145 | the text a boolean prints as is parsed back into it |
| AIParams.ParseInt32 | AIGame/AI/AIParams.cs:135 | `int.Parse` only ever yields values in the 32-bit range |
| AIParams.Key | AIGame/AI/AIParams.cs:185-186 | a setting is read from its own field name exactly when it is not one of the two kill rewards |
| AIParams.FieldName | AIGame/AI/AIParams.cs:133-226 | every setting has a non-empty key name |
| AIParams.KindOf | AIGame/AI/AIParams.cs:133-226 | the scaling scheme alone is parsed by the scaling-name switch |
| AIParams.KeysSwapOnlyKillRewards | AIGame/AI/AIParams.cs:185-186 | the kill reward is read from the kill coincidence key and the other way round; every other setting is read from the key spelled like its field |
| AIParams.ParseValue | AIGame/AI/AIParams.cs:133-226 | a token is parsed by its setting's type: `double.Parse` for reals, `int.Parse`, `bool.Parse`, a path as it stands, and the scaling-name switch |
| AIParams.ReadSetting | AIGame/AI/AIParams.cs:133-226 | reading a setting fails on its key; it reports a missing key exactly when the lookup fails, and otherwise holds the parsed token |
| AIParams.FirstFailure | AIGame/AI/AIParams.cs:133-226 | the first setting from i on whose reading fails, every earlier one having succeeded; none when all succeed |
| AIParams.ReadEach | AIGame/AI/AIParams.cs:133-226 | the readings succeed exactly when every item reads; then each item maps to its value and nothing else is mapped; otherwise the error is that of the first failing item |
| AIParams.SetUp | AIGame/AI/AIParams.cs:125-230 | the set-up succeeds exactly when every setting reads, in the program's order; then every setting holds its own reading; otherwise the first failing setting's error is raised |
| AIParams.KillRewardsSwapKeys | AIGame/AI/AIParams.cs:185-186 | the kill reward's value is the number written after the kill coincidence key, and the other way round |
| AIParams.SetUpSwapsKillRewards | AIGame/AI/AIParams.cs:185-186 | after a successful set-up the kill reward holds the number after FITNESS_INCREASE_KILL_CONCIDENCE and the coincidence reward the number after FITNESS_INCREASE_KILL |
| AIParams.KillRewardsAreRead | AIGame/AI/AIParams.cs:180-193 | both kill rewards are read, as reals, from each other's keys |
| Checkpoint.ReadsBackPossible | AIGame/AI/AIContainer.cs:617-623 | for any finite list of numbers to be written there is a rendering into number text and a parser that reads each of them back, so the read-back premise can always be met |
| Checkpoint.WrittenReadsBack | AIGame/AI/AIContainer.cs:617-623 | the numbers a dump block writes, in the order it writes them, read back exactly when the header's best and average fitness do and every genome's fitness and weights do |
| Checkpoint.HeaderLine | AIGame/AI/AIContainer.cs:617 | the header line opens with the generation tag and a blank |
| Checkpoint.GenomeLines | AIGame/AI/AIContainer.cs:618-624 | each genome is written as exactly three lines |
| Checkpoint.ShownHasNoBreak | AIGame/AI/AIContainer.cs:617-623 | a written number is not empty and holds no line break, blank, colon or tag letter, so it can never be mistaken for a tag or split apart |
| Checkpoint.DumpText | AIGame/AI/AIContainer.cs:614-627 | the block written for one generation starts with an empty line and the header line |
| Checkpoint.DumpLines | AIGame/AI/AIContainer.cs:614-627 | a dump block reads as an empty line and the header, then, for a non-empty population, an empty line and three lines per genome |
| Checkpoint.DumpTextLines | AIGame/AI/AIContainer.cs:614-627 | the block written for one generation reads, line by line, as an empty line, the header, then three lines per genome |
| Checkpoint.PopulationLines | AIGame/AI/AIContainer.cs:618-624 | after its first genome's leading line break, a population reads back as its genome lines, each genome's last weight line ending where the next genome begins |
| Checkpoint.ReadHeader | AIGame/AI/AIContainer.cs:493-499 | a "Generation:" line succeeds exactly when it has six blank-separated pieces whose second is an int and whose fourth and sixth are numbers; then it sets the generation, best and average fitness and nothing else |
| Checkpoint.ReadFitness | AIGame/AI/AIContainer.cs:500-503 | a "Fitness:" line succeeds exactly when its second piece is a number, which becomes the pending fitness; a failure changes nothing |
| Checkpoint.ParseAll | AIGame/AI/AIContainer.cs:508-510 | the weights parse exactly when every piece is a number, one weight per piece |
| Checkpoint.ReadTags | AIGame/AI/AIContainer.cs:493-503 | the tag checks of one line never touch the population |
| Checkpoint.LoadPlainStep | AIGame/AI/AIContainer.cs:491-515 | a clean line without the weights tag hands its state to the next line |
| Checkpoint.LoadWeightsStep | AIGame/AI/AIContainer.cs:504-515 | a "Weights:" line followed by a line of numbers adds one unnamed genome with the pending fitness, and reading goes on after both lines |
| Checkpoint.Load | AIGame/AI/AIContainer.cs:485-516 | the read loop never shrinks the population it starts from |
| Checkpoint.LoadOnlyAppends | AIGame/AI/AIContainer.cs:485-516 | the loader only appends to the population it starts from, and every genome it adds has an empty identifier |
| Checkpoint.LoadAppend | AIGame/AI/AIContainer.cs:491-516 | the read loop is a fold: a clean read of the first lines hands its state on to the rest |
| Checkpoint.HeaderLineReads | AIGame/AI/AIContainer.cs:493-499 | when the best and average fitness it writes read back, the header written by the dump sets the generation, best and average fitness it was written from, and holds no weights tag |
| Checkpoint.FitnessLineReads | AIGame/AI/AIContainer.cs:500-503 | when the fitness read back, a written fitness line sets the pending fitness to the genome's fitness and holds no other tag |
| Checkpoint.WeightsLineReads | AIGame/AI/AIContainer.cs:504-507 | the "Weights: " line changes nothing but announces the line of weights |
| Checkpoint.ParseShows | AIGame/AI/AIContainer.cs:508-510 | when each weight reads back from its rendering, parsing the renderings gives the whole list of weights back |
| Checkpoint.WeightsReads | AIGame/AI/AIContainer.cs:507-510 | when each weight reads back, a written weights line, trimmed and split on blanks, parses back to exactly the weights |
| Checkpoint.GenomeStep | AIGame/AI/AIContainer.cs:500-514 | when its fitness and weights read back, the three lines of one written genome add it back, without identifier, and leave its fitness pending |
| Checkpoint.GenomeLinesLoad | AIGame/AI/AIContainer.cs:491-516 | when the genomes' numbers read back, the genome lines of a dump add every genome back, in order, without identifiers |
| Checkpoint.DumpLinesLoad | AIGame/AI/AIContainer.cs:491-516 | when the numbers it writes read back, the lines of a dump block restore the header's counters and add every genome |
| Checkpoint.DumpRoundTrip | AIGame/AI/AIContainer.cs:485-516 | when the numbers it writes read back, reading back a block written after an epoch restores the generation, the best and average fitness and every genome's weights and fitness, in order, with empty identifiers, whatever line terminator was used |
| Checkpoint.Reversed | AIGame/AI/AIContainer.cs:521 | `Reverse` puts entry i at position n - 1 - i |
| Checkpoint.ReversedPermutes | AIGame/AI/AIContainer.cs:521 | reversing keeps the same genomes |
| Checkpoint.Descending | AIGame/AI/AIContainer.cs:520-521 | for any sort that returns an ascending permutation, sorting then reversing gives a permutation with the fittest first |
| Checkpoint.SortByFitnessIsSort | AIGame/AI/GA/GeneticAlgorithm.cs:18-24 | the reference sort returns an ascending permutation of any list |
| Checkpoint.Wrap | AIGame/AI/AIContainer.cs:524-531 | the wrapped index is below k and at most i, and an index below k stays |
| Checkpoint.EliteCopies | AIGame/AI/AIContainer.cs:524-531 | the reference reshuffle keeps the list's length |
| Checkpoint.ReshuffleElite | AIGame/AI/AIContainer.cs:518-532 | the in-place loop, which reads entries it has already overwritten, leaves at every position i the (i mod k)-th fittest genome, and changes nothing when k is 0 or less |
| Checkpoint.EliteOnlyKeepsFittest | AIGame/AI/AIContainer.cs:518-532 | after the reshuffle the first k entries are the fittest in order and every entry is one of them, at least as fit as any genome left out |
| Checkpoint.StartState | AIGame/AI/AIContainer.cs:472-543 | with reading disabled or the file missing the random population stays, whatever sort is used |
| Checkpoint.StartFromDump | AIGame/AI/AIContainer.cs:472-543 | when the numbers it writes read back, starting from a dumped generation restores its counters and its genomes in order, or, with "elite only", the reshuffled copies of its fittest genomes as ordered by any sort that returns an ascending permutation |
| AIContainers.ObjectNameInjective | AIGame/AI/AIContainer.cs:829 | two candidate names "AIObject n" are equal exactly when their numbers are |
| AIContainers.NamesUpToCount | AIGame/AI/AIContainer.cs:825-840 | the names of the numbers 1 to m are m distinct names |
| AIContainers.Pigeonhole | AIGame/AI/AIContainer.cs:825-840 | if the names of 1 to m are all taken, there are at least m identifiers, so the search stops by |ids| + 1 |
| AIContainers.FirstFree | AIGame/AI/AIContainer.cs:825-840 | the search ends at the first number whose name no object carries, at most |ids| + 1 |
| AIContainers.GetUniqueIdentifier | AIGame/AI/AIContainer.cs:819-842 | the identifier is carried by no object and is "AIObject n" for the smallest free n, with n at most one more than the number of objects |
| AIContainers.GetGenomePairById | AIGame/AI/AIContainer.cs:564-572 | the lookup finds nothing exactly when no pair carries the identifier; otherwise it returns the first pair that does |
| AIContainers.LiveFitness | AIGame/AI/AIContainer.cs:666-671 | a live agent's fitness becomes (frames of the period - idle penalty) + experience * factor + custom, and nothing else changes; a dead agent keeps the fitness computed at its death |
| AIContainers.LiveFitnessAgreesAtFirstDeath | AIGame/AI/AIContainer.cs:666-671 | in a first life the live fitness equals the fitness computed at death on the same frame |
| AIContainers.AliveCount | AIGame/AI/AIContainer.cs:679-687 | the survivors counted on a frame are the agents alive |
| AIContainers.LiveBots | AIGame/AI/AIContainer.cs:652-689 | every agent runs its own update (a parameter) and then gets its live fitness; its brain keeps its weights and shape and records only the inputs, outputs and raw sums of the forward pass the update made |
| AIContainers.LiveKeepsWeights | AIGame/AI/AIContainer.cs:652-689 | an ordinary frame never changes a brain's weights |
| AIContainers.LiveFrame | AIGame/AI/AIContainer.cs:649-689 | an ordinary frame runs every agent's update and live fitness as above, adds the survivors to the count only when the time bonus is due, and changes no other field |
| AIContainers.BonusFrame | AIGame/AI/AIContainer.cs:679-687 | on a bonus frame each agent alive after its own update gets the bonus in its custom component and is counted once; the dead are left as they are |
| AIContainers.BonusCarriesIntoTotal | AIGame/AI/AIContainer.cs:666-687 | the time bonus shows in the live total from then on, whatever life and experience do |
| AIContainers.Collected | AIGame/AI/AIContainer.cs:707-714 | the evolution timer records in slot g agent g's identifier, its brain's weights and its fitness, and leaves the slots past the agents alone |
| AIContainers.Tick | AIGame/AI/AIContainer.cs:700-705 | a frame counter fires exactly when it was already at or past the period, and then restarts at 0; otherwise it goes up by one |
| AIContainers.Ticks | AIGame/AI/AIContainer.cs:700-705 | over k frames a counter fires at most k times |
| AIContainers.TicksSplit | AIGame/AI/AIContainer.cs:700-705 | a + b frames of a counter are a frames followed by b more, with the firings added up |
| AIContainers.TicksCount | AIGame/AI/AIContainer.cs:700-705 | up to the period the counter only counts |
| AIContainers.TicksPeriodic | AIGame/AI/AIContainer.cs:700-705 | from 0, a counter fires exactly once every period + 1 frames |
| AIContainers.EvolutionTimer | AIGame/AI/AIContainer.cs:699-716 | when enabled the counter ticks; when it fires the epoch is flagged, the counter restarts and the agents' genomes are recorded, which fails only when the population is shorter than the list of agents |
| AIContainers.FitnessTimer | AIGame/AI/AIContainer.cs:718-728 | while the bonus is enabled its counter ticks; when it fires the bonus is flagged for the next frame, the timer disables itself and the counter and survivor count restart |
| AIContainers.NextGeneration | AIGame/AI/AIContainer.cs:599 | the 32-bit generation counter goes up by one and wraps from the largest int to the smallest |
| AIContainers.LoadBrains | AIGame/AI/AIContainer.cs:549 | loading fails exactly when some agent has no genome with enough weights; otherwise every brain reads back genome i's weights, keeps its shape and everything but the layers, and every agent is left as it was |
| AIContainers.LoadedCons | AIGame/AI/AIContainer.cs:549 | loading the first agent and then the rest loads them all |
| AIContainers.Rebind | AIGame/AI/AIContainer.cs:654-661 | rebinding succeeds exactly when every agent has a genome with enough weights; then agent i takes genome i's identifier and weights and is reset, its brain keeping its shape |
| AIContainers.RebindThenCollect | AIGame/AI/AIContainer.cs:654-714 | when the timer next records rebound agents it records the identifiers and weights they were given, with fitness 0 |
| AIContainers.Bind | AIGame/AI/AIContainer.cs:545-552 | the start-up binding fails exactly when some agent has no genome with enough weights; otherwise genome j gets fitness 0 in the algorithm's population too and keeps its identifier and weights, the genomes past the agents are untouched, the recorded population is the first genomes, and agent j's brain reads back genome j's weights while the agent keeps its identifier and state |
| AIContainers.BindAgreesWithRebind | AIGame/AI/AIContainer.cs:545-661 | the start-up binding and the epoch's rebinding fail alike and give the same brains; the epoch also renames and resets each agent |
| AIContainers.BindThenCollect | AIGame/AI/AIContainer.cs:545-714 | when the evolution timer next records agents bound at start-up it records the weights they were given |
| AIContainers.Unscored | AIGame/AI/AIContainer.cs:654-661 | scoring keeps the population's length, identifiers and weights, sets the fitness of the first n pairs to 0 and keeps the rest |
| AIContainers.EpochFrame | AIGame/AI/AIContainer.cs:595-661 | given any ascending rearrangement of the population, the epoch frame advances the generation, dumps the scaled population with the sorted list's identifiers and weights under the new generation's counters, keeps the first genomes of the new population as the recorded population, binds each agent to its genome and resets it, and re-enables the time bonus |
| AIContainers.EpochFrameBreeds | AIGame/AI/AIContainer.cs:605 | the population an epoch frame leaves in the algorithm has max(e, size rounded up to even) entries, and after its e elite entries every pair repeats an earlier one or is a fresh child numbered on from the old counter, without gaps |
| AIContainers.SortedKeepsWeights | AIGame/AI/AIContainer.cs:605 | sorting and scaling keep every genome's weights non-empty |
| AIContainers.EpochDumpReadsBack | AIGame/AI/AIContainer.cs:605-642 | when the numbers it writes read back, the text dumped on an epoch frame loads back cleanly as the generation it names and the dumped genomes, without identifiers |
| AIContainers.DumpedReadsBack | AIGame/AI/AIContainer.cs:614-642 | when the numbers it writes read back, any dump text loads onto an empty population as its generation and its genomes, unnamed |
| AIContainers.AgentsPass | AIGame/AI/AIContainer.cs:594-696 | a pending epoch runs the epoch frame and leaves every agent alive; otherwise every agent is updated and the counters stay; either way the bonus flag drops and a dump exists exactly on an epoch frame |
| AIContainers.Timers | AIGame/AI/AIContainer.cs:698-728 | the timers never touch the agents, the generation or the algorithm; the epoch flag is raised when the evolution counter fires; the bonus flag is raised exactly when the bonus is enabled and its counter fires |
| AIContainers.UpdateAll | AIGame/AI/AIContainer.cs:574-735 | a frame keeps the number of agents; it dumps exactly when an epoch was pending; an ordinary frame keeps the generation and algorithm and updates each agent; an epoch frame advances the generation and revives every agent; the next epoch is flagged exactly when the evolution counter fires |
| AITeams.NewTeam | AIGame/AI/AITeam.cs:70-78 | a new team has no members and no leader, does not operate as a unit, stands in a row, holds, and does not keep formation |
| AITeams.NewTeamWith | AIGame/AI/AITeam.cs:79-87 | a team built with a formation and an objective has them, and no members or leader |
| AITeams.Add | AIGame/AI/AITeam.cs:91-101 | an unnamed item gets an identifier no object carries; the item joins the team, becomes leader if it is one, and is appended to the container's objects before the insertion, which fails exactly on a key already present and otherwise appends the member; keys stay distinct |
| AITeams.AddKeepsRegistered | AIGame/AI/AITeam.cs:91-101 | when every member is among the container's objects an unnamed item never clashes, and every member stays registered |
| AITeams.SetKeepFormation | AIGame/AI/AITeam.cs:51-61 | a team keeps formation exactly when asked to and not spread; nothing else changes |
| AITeams.ToFormation | AIGame/AI/AITeam.cs:127-153 | the formation is always set; without a leader the keep flag stays; with one the team keeps formation exactly in a row or an arrow |
| AITeams.SpreadKeepsWithoutLeader | AIGame/AI/AITeam.cs:127-135 | a team without a leader can end up spread yet keeping formation |
| AITeams.ToggleFormation | AIGame/AI/AITeam.cs:155-163 | toggling moves to the next formation, always a different one, and keeps members and leader |
| AITeams.ToggleFormationCycles | AIGame/AI/AITeam.cs:155-163 | three toggles bring the formation back, kept consistently once the team has a leader |
| AITeams.SpeedFactor | AIGame/AI/AIObject.cs:185-198 | every movement status sets a speed factor in (0, 1], and only running moves at full speed |
| AITeams.ToStatus | AIGame/AI/AITeam.cs:103-109 | every member takes the status, and so does the leader when it is one of them; nothing else changes |
| AITeams.ToggleStatus | AIGame/AI/AITeam.cs:111-121 | toggling fails exactly for a team without a leader; otherwise every member moves to the status after the leader's, the leader too when it is a member |
| AITeams.ToggleStatusCycles | AIGame/AI/AITeam.cs:111-121 | four toggles bring the leader back to its status and put every member in it |
| AITeams.HalfFloor | AIGame/AI/AITeam.cs:170-185 | after k half-steps the row number's floor is 1 + k / 2 |
| AITeams.FormationSlots | AIGame/AI/AITeam.cs:169-187 | the loop gives one slot per member that is not the leader, the j-th being the (k + j)-th slot of the sequence |
| AITeams.Slots | AIGame/AI/AITeam.cs:167-214 | a row or an arrow gives the j-th non-leader the j-th slot |
| AITeams.SlotsDistinct | AIGame/AI/AITeam.cs:167-214 | no two members share a slot, and each pair stands at one distance on opposite sides |
| AITeams.SlotOfInjective | AIGame/AI/AITeam.cs:178-185 | different positions in the loop give different slots |
| AITeams.SlotOfPair | AIGame/AI/AITeam.cs:178-185 | an even position and the next one share a distance, on the right and on the left |
| HeightMaps.NewHeightMap | AIGame/World/HeightMap.cs:75-86 | a new height map is a flat field of size * size zero heights with the given spacing and bounds |
| HeightMaps.RealSize | AIGame/World/HeightMap.cs:48-51 | the world extent is not negative unless the spacing is, and a non-empty field spans at least one spacing |
| HeightMaps.Rem | AIGame/World/HeightMap.cs:341 | C#'s `%` takes the sign of the dividend: a non-negative dividend gives [0, n), a negative one (-n, 0] |
| HeightMaps.RemShift | AIGame/World/HeightMap.cs:341 | adding the size to a non-negative coordinate does not change its remainder |
| HeightMaps.HeightIndexAt | AIGame/World/HeightMap.cs:339-342 | the wrapped index fails exactly on an empty field, which divides by zero |
| HeightMaps.HeightIndexInRange | AIGame/World/HeightMap.cs:339-342 | coordinates no more than one field below zero wrap to an index inside the field |
| HeightMaps.HeightIndexRowMajor | AIGame/World/HeightMap.cs:339-342 | inside the field the index is x + z * size, and one field over along either axis gives the same index |
| HeightMaps.HeightIndexPeriodic | AIGame/World/HeightMap.cs:339-342 | the index repeats with the field's period along both axes |
| HeightMaps.HeightAtPixel | AIGame/World/HeightMap.cs:255-258 | the pixel read succeeds exactly when z * size + x indexes the array, and then gives that height |
| HeightMaps.PixelAgreesWithIndex | AIGame/World/HeightMap.cs:255-342 | inside the field the pixel read and the wrapped index agree |
| HeightMaps.Window | AIGame/World/HeightMap.cs:361-426 | the filter takes at most nine neighbours |
| HeightMaps.CentreTaken | AIGame/World/HeightMap.cs:392-397 | the centre of a cell is always taken, so the filter never divides by zero |
| HeightMaps.WindowBetween | AIGame/World/HeightMap.cs:361-426 | the neighbours of a field between two bounds lie between them |
| HeightMaps.CellBounds | AIGame/World/HeightMap.cs:361-427 | the mean of a cell lies between the field's bounds |
| HeightMaps.EdgeBorrowsFromRowAbove | AIGame/World/HeightMap.cs:385-390 | the first cell of a row takes the last cell of the row above as its left neighbour, since only the linear index is checked |
| HeightMaps.Smooth | AIGame/World/HeightMap.cs:347-430 | smoothing keeps the field's size |
| HeightMaps.SmoothAt | AIGame/World/HeightMap.cs:357-429 | smoothing puts at y * size + x the mean of the taken neighbours of (x, y) in the unsmoothed field |
| HeightMaps.SmoothBounds | AIGame/World/HeightMap.cs:347-430 | smoothing keeps a field within its bounds, and hence keeps a constant field |
| HeightMaps.PixelHeight | AIGame/World/HeightMap.cs:199-201 | a pixel's height is its red value times the bumpiness, capped at the maximum height |
| HeightMaps.MinPixelHeight | AIGame/World/HeightMap.cs:196-205 | the least capped height is at most the maximum height |
| HeightMaps.MinPixelHeightBelow | AIGame/World/HeightMap.cs:196-205 | the least capped height is at most every pixel's height |
| HeightMaps.GenerateFromBitmap | AIGame/World/HeightMap.cs:184-214 | reading the texture succeeds exactly when it holds width * width pixels; the field then takes the width as its size, keeps its other settings, holds the smoothing of the pixels' capped heights, and lies between the least pixel height and the maximum height |
| HeightMaps.CappedHeights | AIGame/World/HeightMap.cs:196-204 | every pixel, in the texture's order, gives its red value times the bumpiness, cut off at the maximum height |
| HeightMaps.UniformBitmapIsFlat | AIGame/World/HeightMap.cs:184-214 | a texture of a single red value loads as a flat field at that value's capped height |
| Terrains.Using16BitIndices | AIGame/World/Terrain.cs:700-703 | 16-bit indices are used only when every vertex index survives the cast to ushort, and 32-bit ones only when there are more than 65535 vertices |
| Terrains.SixteenBitBoundary | AIGame/World/Terrain.cs:700-703 | with exactly 65536 vertices every index would fit 16 bits, yet 32-bit indices are chosen |
| Terrains.ToUShort | AIGame/World/Terrain.cs:512-518 | the `(ushort)` cast lands in 0..65535 and leaves every value already in that range unchanged |
| Terrains.GenerateVertices | AIGame/World/Terrain.cs:626-652 | the vertex buffer holds one vertex per grid point, size * size in all, as allocated at line 297 |
| Terrains.VertexAt | AIGame/World/Terrain.cs:641-648 | a grid point's texture coordinates lie in [0, 1), and with a positive spacing its position lies inside the field's real size |
| Terrains.VerticesAt | AIGame/World/Terrain.cs:635-650 | the vertex of grid point (x, z) sits at `z * size + x`, carries the stored height of that point, lies inside the field's world extent when the spacing is positive, and has texture coordinates in [0, 1) |
| Terrains.VertexIsAt | AIGame/World/Terrain.cs:639-650 | entry `z * size + x` of the buffer is the vertex built from grid point (x, z), so no two points share an entry |
| Terrains.VertexAtBounds | AIGame/World/Terrain.cs:641-648 | a vertex's height agrees with the height field's pixel lookup, its texture coordinates lie in [0, 1), and with a positive spacing its position lies inside the field's real size |
| Terrains.FarthestVertex | AIGame/World/Terrain.cs:641-648 | the last grid point's vertex sits one grid spacing short of the real size on both axes, so the mesh never reaches `RealSize` |
| Terrains.QuadCornersInGrid | AIGame/World/Terrain.cs:510-518 | the four corners of every grid square name vertices of the grid |
| Terrains.NewIds | AIGame/World/Terrain.cs:554-561 | after a square's six indices, the ids `index / 6 - 1` and `index / 6` of its two picking triangles are the square's number and the next |
| Terrains.EmitQuadKeeps | AIGame/World/Terrain.cs:506-541 | one more square adds six indices, keeps every index naming a vertex, and keeps every picking triangle matching the triangle drawn |
| Terrains.EmitQuadTri | AIGame/World/Terrain.cs:547-562 | after one more square, each picking triangle is an old one unchanged or one of the square's two, with the corners and ids the collision set-up writes |
| Terrains.EmitRowKeeps | AIGame/World/Terrain.cs:508-521 | a row of squares keeps the mesh well formed and adds six indices per square left in the row |
| Terrains.EmitRowsKeeps | AIGame/World/Terrain.cs:506-522 | the remaining rows keep the mesh well formed and add six indices per square of each row |
| Terrains.EmitRowExtends | AIGame/World/Terrain.cs:508-521 | writing a row never changes the indices written before it |
| Terrains.EmitRowsExtends | AIGame/World/Terrain.cs:506-522 | writing the remaining rows never changes the indices written before them |
| Terrains.BeforeRowRest | AIGame/World/Terrain.cs:506-522 | the mesh written before row z, continued by the remaining rows, is the whole mesh, and holds 6 * (size - 1) * z indices |
| Terrains.GenerateIndices | AIGame/World/Terrain.cs:495-562 | for size ≥ 1 the indices written exactly fill the (size - 1)² * 6 entries allocated at line 299 and the picking triangles their (size - 1)² * 2 slots; every index written names a vertex, and each picking triangle is the triangle drawn |
| Terrains.IndexBuffer | AIGame/World/Terrain.cs:495-534 | the index array has the (size - 1)² * 6 entries allocated for it: the written indices first, zeros after them |
| Terrains.TriangleSlots | AIGame/World/Terrain.cs:495-552 | the triangle array has (size - 1)² * 2 slots: the set-up triangles first, default slots after them |
| Terrains.EmptyFieldIndexBuffer | AIGame/World/Terrain.cs:297-299 | a field of size 0 has no vertex, yet its index array holds six indices naming vertex 0 and its triangle array two default slots |
| Terrains.QuadAt | AIGame/World/Terrain.cs:506-522 | the squares are written in row-major order: square (x, z) holds entries 6 * ((size - 1) * z + x) to five further, its two triangles from corner z * size + x |
| Terrains.SixteenBitCastExact | AIGame/World/Terrain.cs:334-337 | when the vertex count fits an unsigned short, the 16-bit cast keeps every index, so both index paths write the same buffer |
| Terrains.TriangleIdsShared | AIGame/World/Terrain.cs:554-561 | picking ids are not unique: the second triangle of a square and the first of the next carry the same id |
| Terrains.ToggleDrawingTechnique | AIGame/World/Terrain.cs:199-207 | toggling always changes the technique, going texture, texture with wireframe, wireframe, texture |
| Terrains.ToggleDrawingTechniqueCycles | AIGame/World/Terrain.cs:199-207 | three toggles return to the starting technique and two never do |
| Text.NatToString | AIGame/AI/AIContainer.cs:829 | a count renders as a non-empty run of decimal digits with no leading zero unless the count is zero |
| Text.ParseInt | AIGame/AI/AIContainer.cs:496 | `int.Parse` succeeds only on a non-empty text of digits after an optional sign and only with a value in the 32-bit range; a run of digits whose value fits gives that value |
| Text.LeadingZeroValue | AIGame/AI/AIContainer.cs:496 | a leading zero does not change the value of a run of digits |
| Text.ParseIntNonCanonical | AIGame/AI/AIContainer.cs:496 | a text that is not how a number prints still parses as that number: a leading "+" or leading zeros change nothing |
| Text.IntToString | AIGame/AI/AIContainer.cs:617 | a 32-bit value prints as a non-empty text of digits and at most a minus sign |
| Text.ParseIntOfIntToString | AIGame/AI/AIContainer.cs:496 | parsing the rendering of any 32-bit value gives that value back, so a saved generation number reloads unchanged |
| Text.NatToStringInjective | AIGame/AI/AIContainer.cs:819-842 | two numbers render to the same text exactly when they are equal, so numbered names are distinct |
| Text.Split | AIGame/AI/AIContainer.cs:495-508 | splitting gives one more piece than the text has separator characters |
| Text.Join | AIGame/AI/AIContainer.cs:617 | the joined text starts with the first token |
| Text.JoinOccurrences | AIGame/AI/AIContainer.cs:617 | joining separator-free tokens puts exactly one separator between each two tokens |
| Text.JoinSplit | AIGame/AI/AIContainer.cs:495-508 | joining the pieces of a split on one separator gives the text back |
| Text.OccurrencesAppend | AIGame/AI/AIContainer.cs:495-508 | the separators of two texts put together are those of each, added up |
| Text.ReadLines | AIGame/AI/AIContainer.cs:489-515 | a non-empty text reads as at least one line and an empty one as none, never more lines than characters |
| Text.SplitJoin | AIGame/AI/AIContainer.cs:495-510 | splitting the separator-joined list of separator-free tokens gives the tokens back |
| Text.SplitPiecesFree | AIGame/AI/AIContainer.cs:508 | no piece of a split holds a separator |
| Text.ContainsInfix | AIGame/AI/AIContainer.cs:493-504 | a line contains every piece it is built around, so a written marker is always found again |
| Text.JoinLacks | AIGame/AI/AIContainer.cs:493-504 | a marker found in none of the tokens, and free of the separator, is not found in their join |
| Text.TrimStart | AIGame/AI/AIContainer.cs:507 | the result is a suffix of the text that starts with no white space, and everything dropped is white space |
| Text.TrimEnd | AIGame/AI/AIContainer.cs:507 | the result is a prefix of the text that ends with no white space, and everything dropped is white space |
| Text.TrimOfTrimmed | AIGame/AI/AIContainer.cs:507 | a text with no white space at either end is its own trim, so a written weights line reads back unchanged |

## Left out

- Rendering, input, the game loop, the on-screen console, the HUD and the camera: they only draw what the modelled state holds.
- Agent sensing, combat and movement (`UpdateSightList`, `UpdateTargetLife`, `PickUp*`, `UpdateAction`, `MoveTo`, the teams' spread formation): they depend on float positions, terrain picking and random hit rolls. `TakeCover` enters the model only as the three outcomes it reports.
- Static cover objects (`AIStatic`): render objects whose logic is list membership and a float radius test.
- Float geometry (`MathExtra`, nearest-static searches, triangle normals of the picking triangles): vector arithmetic over floats with square roots.
- Height-map generation by the diamond-square fractal, vertex normals and the bilinear `HeightAt` lookup: random, and float interpolation with square roots; the grid arithmetic they share is modelled.
- The triangle-strip index generator: the terrain never calls it.
- File and stream I/O, `MessageBox`, culture switching and `Path.Combine`: a file is a sequence of lines or one string, a path is an opaque string, and the writer's en-US culture is folded into the number printer.
- Appending every population to the "all populations" file: it only repeats the text of the last-population dump, which is modelled.
- `GameSpeed` and wall-clock time: the timers count frames.
- `double` and `float` arithmetic is exact `real` arithmetic: no rounding, and the float rounding in the random range index is not modelled.
- `Math.Exp`, `Math.Sqrt`, `double.ToString` and `double.Parse` are parameters with only the properties stated in the introduction.
- `Infinity` and `NaN`: a division by zero in Boltzmann or sigma scaling is the error `NonFiniteFitness` instead of a value that spreads through later arithmetic.
- `List.Sort` is unstable. Wherever the program sorts (the epoch, the epoch frame, the "elite only" start-up), the sorted list is a parameter. It must be an ascending permutation of the old list (`Checkpoint.IsSort` at start-up), so any tie order is allowed. `Genomes.SortByFitness` is only a reference sort that meets this requirement (`Checkpoint.SortByFitnessIsSort`); it does not stand for `List.Sort`.
- GeneticAlgorithm.GAParams: the elite counts are natural numbers. A negative `NUM_ELITE` or `NUM_COPIES_ELITE`, which `int.Parse` would accept, is not modelled.
- GAFitness.SigmaScale: on an empty population it fails with `NonFiniteFitness`. The program divides by a count of zero there and leaves `NaN`.
- AIContainers.EpochFrame: it always produces the last-population text. Whether `CONFIG_DUMP_LAST_POPULATION` lets the program write it to the file is not consulted.
- AIUtils.RandomInt: `max - min` is unbounded. The 32-bit overflow of that difference, for bounds more than `int.MaxValue` apart, is not modelled.
- AIParams.ParseBool: case folding covers only ASCII letters. "True" and "False" are ASCII, but .NET's culture-invariant folding of other letters is not modelled.
- AIParams.ParseInt32: `Trim` removes every Unicode white-space character. `int.Parse` accepts only U+0009 to U+000D and U+0020 around the number, so texts padded with other spaces parse here but throw in the program.
- AIParams.Tokens: its contract is in lemmas (`AIParams.TokensAreTokens`, `AIParams.TokensOfJoin`). Stated on the function, it makes the lookup proofs that unfold it too costly to check.
- AIParams.FieldName: the contract states only that a key name is non-empty. That each of the sixty names is a single token is not proved.
- AIContainers.Ticks: the contract bounds only how often a counter fires. Its periodic behaviour is in `AIContainers.TicksCount`, `AIContainers.TicksSplit` and `AIContainers.TicksPeriodic`.
- Terrains.Using16BitIndices: the program picks 32-bit indices already at 65536 vertices, one vertex earlier than needed (`Terrains.SixteenBitBoundary`). This costs memory, not correctness, so the model keeps the test as written.
- Reference aliasing: the program shares `GenomePair` objects and weight lists where the model holds values. Elite copies share one `GenomePair`, the elite import shares objects, and the shared-slot overwrites of the fitness timer are not reproduced. A skipped crossover (a draw above the rate, or both parents the same list) returns the parents' own weight lists as the children (GeneticAlgorithm.cs:292-297). `Mutate` then changes those lists in place (GeneticAlgorithm.cs:387-388), and `new Genome(baby1, 0)` keeps the same list (Genome.cs:28-31). So in the program the parent, every elite copy of it and the child all end up with the mutated weights, and the two children of a self-pairing are one list mutated twice. In the model the children are mutated copies and every parent keeps its weights. The five lines below name the statements that hold only for the values.
- GeneticAlgorithm.NextPopulation: the elite block is stated to equal the grabbed elites. In the program an elite that was also a parent of a skipped crossover carries its child's mutated weights.
- GeneticAlgorithm.PopulatedElites: the same holds for the elite prefix it states after the breeding loop.
- GeneticAlgorithm.ElitesLead: the elite prefix is the copies of the fittest genomes as values. In the program their weights can have been mutated through a child.
- GeneticAlgorithm.Epoch: the scaled population is stated to keep the sorted list's weights. In the program these are the same objects as the container's `_gaPopulation`, so a parent of a skipped crossover carries the mutated weights.
- AIContainers.EpochFrame: the dumped genomes are stated to keep the sorted population's weights. In the program `_gaPopulation` is dumped after the epoch (AIContainer.cs:605, 618-624), so such a parent is written with its child's mutated weights.
- GeneticAlgorithm.Crossover: the skip test `mum == dad` compares the two `List<double>` references in the program and the weight values in the model. Parents with equal weights held in distinct lists (two agents' `GetWeights()` copies of one elite, say) therefore cross in the program, after a second draw for the cut, and are skipped in the model after one draw. Every later draw of that breeding is then read one position earlier in the model.
- GeneticAlgorithm.CrossoverSplitPoints: the same value test stands for the program's reference test `mum == dad`. Value-equal parents in distinct lists cross in the program and are skipped in the model.
- NeuralNet.Sigmoid: it requires an activation response other than 0. `double.Parse` accepts 0 for it, and the program then divides by zero: outputs of 1, 0 or `NaN` for a positive, negative or zero input sum. These are not modelled.
- NeuralNet.LayerOutput: it requires a non-zero activation response, as `NeuralNet.Sigmoid` does, for the same reason.
- NeuralNet.FeedForward: it requires a non-zero activation response, as `NeuralNet.Sigmoid` does, for the same reason.
- NeuralNet.Update: it requires a non-zero activation response, as `NeuralNet.Sigmoid` does, for the same reason.
- Partial state left by an exception in the middle of a loop, other than the checkpoint reader, whose catch is modelled.
- 32-bit wrap-around of counters other than the generation number (the population counter, action counters, frame counters): they are unbounded integers.
- Negative sizes of a height field or terrain: the model requires a valid field.
- Whether a loaded texture is usable: it is a width and a list of red values.
- `FittestObject`, the agent the fitness loop records as the fittest so far: the camera and the HUD use it, nothing that learns does.
- The best- and average-fitness lists the epoch frame appends to: they feed only the on-screen charts.
- AIParams.ScalingFromName: the contract states only that an unknown name gives `NoneUnsigned`; that each known name gives its scheme follows from `AIParams.ScalingNameRoundTrip`.
- AIParams.ParseInt32: the contract states only the 32-bit range of a result, not which texts parse; its round trip goes through `Text.ParseIntOfIntToString`.
- Text.ParseInt: the white space `int.Parse` allows inside a leading sign and its culture-specific signs are not modelled.
