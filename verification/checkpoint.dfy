/**
 * The population checkpoint of the container: the text block the dump
 * writer appends after every epoch, the line-oriented loader that reads a
 * start generation back, and the "elite only" reshuffle applied after
 * loading. Number formatting and parsing (`double.ToString` under the
 * en-US culture, `double.Parse`) are parameters; the file is a string and
 * `ReadLine` is `Text.ReadLines`.
 */
module Checkpoint {
  import opened Wrappers
  import opened Text
  import opened Genomes

  const GenerationTag := "Generation:"
  const BestTag := "BestFit:"
  const AverageTag := "AvgFit:"
  const FitnessTag := "Fitness:"
  const WeightsTag := "Weights:"

  /** The characters of a finite `double` rendered under the en-US culture. */
  predicate IsNumberChar(c: char) {
    IsDigit(c) || c == '-' || c == '+' || c == '.' || c == 'E' || c == 'e'
  }

  predicate IsNumberText(s: string) {
    |s| > 0 && forall i :: 0 <= i < |s| ==> IsNumberChar(s[i])
  }

  /** Number rendering gives number text. */
  ghost predicate ShowsNumbers(show: real -> string) {
    forall x: real :: IsNumberText(show(x))
  }

  /**
   * Parsing reads each of the numbers `xs` back from its rendering. The
   * premise is about the numbers a dump actually writes: a round trip of
   * every real through finite text cannot hold, one of finitely many can.
   */
  ghost predicate ReadsBack(show: real -> string, parse: string -> Option<real>, xs: seq<real>) {
    forall k :: 0 <= k < |xs| ==> parse(show(xs[k])) == Some(xs[k])
  }

  /** The numbers the lines of one genome write: its fitness, then its weights. */
  function GenomeNumbers(p: GenomePair): seq<real> {
    [p.genome.fitness] + p.genome.weights
  }

  /** The numbers the genome lines of a population write, in order. */
  function PopulationNumbers(population: seq<GenomePair>): seq<real>
    decreases |population|
  {
    if |population| == 0 then [] else GenomeNumbers(population[0]) + PopulationNumbers(population[1..])
  }

  /** The numbers a dump block writes, in order: best, average, then every genome's. */
  function Written(best: real, average: real, population: seq<GenomePair>): seq<real> {
    [best, average] + PopulationNumbers(population)
  }

  /** Reading back a concatenation is reading back both parts. */
  lemma ReadsBackSplit(show: real -> string, parse: string -> Option<real>, xs: seq<real>, ys: seq<real>)
    ensures ReadsBack(show, parse, xs + ys) <==> ReadsBack(show, parse, xs) && ReadsBack(show, parse, ys)
  {
    var zs := xs + ys;
    if ReadsBack(show, parse, zs) {
      forall k | 0 <= k < |xs|
        ensures parse(show(xs[k])) == Some(xs[k])
      {
        assert zs[k] == xs[k];
      }
      forall k | 0 <= k < |ys|
        ensures parse(show(ys[k])) == Some(ys[k])
      {
        assert zs[|xs| + k] == ys[k];
      }
    }
    if ReadsBack(show, parse, xs) && ReadsBack(show, parse, ys) {
      forall k | 0 <= k < |zs|
        ensures parse(show(zs[k])) == Some(zs[k])
      {
        if k < |xs| {
          assert zs[k] == xs[k];
        } else {
          assert zs[k] == ys[k - |xs|];
        }
      }
    }
  }

  lemma ReadsBackPair(show: real -> string, parse: string -> Option<real>, x: real, y: real)
    requires ReadsBack(show, parse, [x, y])
    ensures parse(show(x)) == Some(x) && parse(show(y)) == Some(y)
  {
    assert [x, y][0] == x && [x, y][1] == y;
  }

  /** What a dump block writes reads back if its header numbers and its genome numbers do. */
  lemma WrittenReadsBack(show: real -> string, parse: string -> Option<real>,
                         best: real, average: real, population: seq<GenomePair>)
    ensures ReadsBack(show, parse, Written(best, average, population))
            <==> ReadsBack(show, parse, [best, average]) && ReadsBack(show, parse, PopulationNumbers(population))
  {
    ReadsBackSplit(show, parse, [best, average], PopulationNumbers(population));
  }

  /** The genome numbers of a population read back if its first genome's and the rest's do. */
  lemma PopulationReadsBack(show: real -> string, parse: string -> Option<real>, population: seq<GenomePair>)
    requires |population| > 0
    ensures ReadsBack(show, parse, PopulationNumbers(population))
            <==> ReadsBack(show, parse, GenomeNumbers(population[0]))
                 && ReadsBack(show, parse, PopulationNumbers(population[1..]))
  {
    ReadsBackSplit(show, parse, GenomeNumbers(population[0]), PopulationNumbers(population[1..]));
  }

  /** The numbers of one genome read back if its fitness and its weights do. */
  lemma GenomeReadsBack(show: real -> string, parse: string -> Option<real>, p: GenomePair)
    ensures ReadsBack(show, parse, GenomeNumbers(p))
            <==> ReadsBack(show, parse, [p.genome.fitness]) && ReadsBack(show, parse, p.genome.weights)
  {
    ReadsBackSplit(show, parse, [p.genome.fitness], p.genome.weights);
  }

  /** The position of the first occurrence of `x` in `xs`. */
  function FirstIndex(xs: seq<real>, x: real): (i: nat)
    requires x in xs
    ensures i < |xs| && xs[i] == x
    decreases |xs|
  {
    if xs[0] == x then 0 else 1 + FirstIndex(xs[1..], x)
  }

  /**
   * The premise can be met for any finite list of numbers: render the
   * `i`-th distinct number as `i + 1` ones and parse a text by its length.
   */
  lemma ReadsBackPossible(xs: seq<real>)
    ensures exists show: real -> string, parse: string -> Option<real> ::
              ShowsNumbers(show) && ReadsBack(show, parse, xs)
  {
    var show: real -> string := x => if x in xs then seq(FirstIndex(xs, x) + 1, _ => '1') else "0";
    var parse: string -> Option<real> := s => if 1 <= |s| <= |xs| then Some(xs[|s| - 1]) else None;
    assert ShowsNumbers(show) by {
      forall x: real
        ensures IsNumberText(show(x))
      {
        assert IsDigit('1') && IsDigit('0');
      }
    }
    assert ReadsBack(show, parse, xs) by {
      forall k | 0 <= k < |xs|
        ensures parse(show(xs[k])) == Some(xs[k])
      {
        var i := FirstIndex(xs, xs[k]);
        assert |show(xs[k])| == i + 1;
      }
    }
  }

  // ---------------------------------------------------------------------
  // The dump writer
  // ---------------------------------------------------------------------

  /** The text of the block's first `WriteLine`, after its leading "\n": it opens with the generation tag. */
  function HeaderLine(generation: int, best: real, average: real, show: real -> string): (r: string)
    ensures GenerationTag + " " <= r
  {
    GenerationTag + " " + IntToString(generation) + " " + BestTag + " " + show(best) + " " + AverageTag + " " + show(average)
  }

  /** The `Write(" " + weight)` calls of one genome: no line terminator. */
  function WeightsText(weights: seq<real>, show: real -> string): string
    decreases |weights|
  {
    if |weights| == 0 then "" else " " + show(weights[0]) + WeightsText(weights[1..], show)
  }

  function FitnessLine(p: GenomePair, show: real -> string): string {
    FitnessTag + " " + show(p.genome.fitness)
  }

  const WeightsLine := WeightsTag + " "

  /** One genome: `WriteLine("\nFitness: " + f)`, `WriteLine("Weights: ")`, then its weights. */
  function GenomeText(p: GenomePair, show: real -> string, nl: string): string {
    "\n" + GenomeBody(p, show, nl)
  }

  function GenomeBody(p: GenomePair, show: real -> string, nl: string): string {
    FitnessLine(p, show) + nl + (WeightsLine + nl + WeightsText(p.genome.weights, show))
  }

  function PopulationText(population: seq<GenomePair>, show: real -> string, nl: string): string
    decreases |population|
  {
    if |population| == 0 then ""
    else GenomeText(population[0], show, nl) + PopulationText(population[1..], show, nl)
  }

  /**
   * The block written for one generation, `nl` being the `WriteLine`
   * terminator. The dump of all populations appends it to the file; the
   * dump of the last population replaces the file with it.
   */
  function DumpText(generation: int, best: real, average: real, population: seq<GenomePair>,
                    show: real -> string, nl: string): (r: string)
    ensures "\n" + HeaderLine(generation, best, average, show) + nl <= r
  {
    "\n" + (HeaderLine(generation, best, average, show) + nl + PopulationText(population, show, nl))
  }

  // ---------------------------------------------------------------------
  // The lines of a dump
  // ---------------------------------------------------------------------

  /** The three lines of each genome, in order. */
  function GenomeLines(population: seq<GenomePair>, show: real -> string): (lines: seq<string>)
    ensures |lines| == 3 * |population|
    decreases |population|
  {
    if |population| == 0 then []
    else [FitnessLine(population[0], show), WeightsLine, WeightsText(population[0].genome.weights, show)]
         + GenomeLines(population[1..], show)
  }

  /**
   * The lines a reader sees in a dump block read on its own: an empty line,
   * the header, and for a non-empty population an empty line and three
   * lines per genome.
   */
  function DumpLines(generation: int, best: real, average: real, population: seq<GenomePair>,
                     show: real -> string): (r: seq<string>)
    ensures |r| == if |population| == 0 then 2 else 3 + 3 * |population|
    ensures r[0] == "" && r[1] == HeaderLine(generation, best, average, show)
  {
    ["", HeaderLine(generation, best, average, show)]
    + (if |population| == 0 then [] else [""] + GenomeLines(population, show))
  }

  predicate HasWeights(population: seq<GenomePair>) {
    forall i :: 0 <= i < |population| ==> |population[i].genome.weights| > 0
  }

  /** A rendered number holds no line break, blank, colon, nor any letter of the tags but 'e'. */
  lemma ShownHasNoBreak(show: real -> string, x: real)
    requires ShowsNumbers(show)
    ensures |show(x)| > 0 && NoLineBreak(show(x)) && ' ' !in show(x) && ':' !in show(x)
    ensures 'F' !in show(x) && 'G' !in show(x) && 'W' !in show(x)
  {
    assert IsNumberText(show(x));
  }

  lemma {:induction false} WeightsTextHasNoBreak(weights: seq<real>, show: real -> string)
    requires ShowsNumbers(show)
    ensures NoLineBreak(WeightsText(weights, show))
    ensures 'F' !in WeightsText(weights, show) && 'G' !in WeightsText(weights, show) && 'W' !in WeightsText(weights, show)
    decreases |weights|
  {
    if |weights| > 0 {
      WeightsTextHasNoBreak(weights[1..], show);
      ShownHasNoBreak(show, weights[0]);
    }
  }

  lemma FitnessLineHasNoBreak(p: GenomePair, show: real -> string)
    requires ShowsNumbers(show)
    ensures NoLineBreak(FitnessLine(p, show))
    ensures 'G' !in FitnessLine(p, show) && 'W' !in FitnessLine(p, show)
  {
    ShownHasNoBreak(show, p.genome.fitness);
  }

  lemma HeaderLineHasNoBreak(generation: int, best: real, average: real, show: real -> string)
    requires ShowsNumbers(show)
    ensures NoLineBreak(HeaderLine(generation, best, average, show))
    ensures 'W' !in HeaderLine(generation, best, average, show)
  {
    var g := IntToString(generation);
    ShownHasNoBreak(show, best);
    ShownHasNoBreak(show, average);
    GenerationTextPlain(generation);
    assert Plain(GenerationTag) && Plain(" ") && Plain(BestTag) && Plain(AverageTag);
    var h1 := PlainJoin(GenerationTag, g);
    var h2 := PlainJoin(h1, BestTag);
    var h3 := PlainJoin(h2, show(best));
    var h4 := PlainJoin(h3, AverageTag);
    var h5 := PlainJoin(h4, show(average));
    assert h5 == HeaderLine(generation, best, average, show);
  }

  /** Without line breaks and without 'W'. */
  predicate Plain(s: string) {
    NoLineBreak(s) && 'W' !in s
  }

  /** Two plain texts joined by a blank. */
  function PlainJoin(a: string, b: string): (r: string)
    requires Plain(a) && Plain(b)
    ensures r == a + " " + b && Plain(r)
  {
    var r := a + " " + b;
    assert forall j :: 0 <= j < |r| ==> r[j] == (if j < |a| then a[j] else if j == |a| then ' ' else b[j - |a| - 1]);
    r
  }

  /** A rendered generation holds no line break, blank, nor letter of the tags. */
  lemma GenerationTextPlain(generation: int)
    ensures NoLineBreak(IntToString(generation)) && ' ' !in IntToString(generation)
    ensures 'F' !in IntToString(generation) && 'W' !in IntToString(generation)
  {
    var s := IntToString(generation);
    assert forall i :: 0 <= i < |s| ==> IsDigit(s[i]) || s[i] == '-';
  }

  /** The text after a genome's leading "\n": its three lines, then whatever follows. */
  lemma GenomeBodyLines(p: GenomePair, rest: string, show: real -> string, nl: string)
    requires ShowsNumbers(show) && IsNewLine(nl)
    ensures ReadLines(GenomeBody(p, show, nl) + rest)
            == [FitnessLine(p, show), WeightsLine] + ReadLines(WeightsText(p.genome.weights, show) + rest)
  {
    var w := WeightsText(p.genome.weights, show);
    var f := FitnessLine(p, show);
    GenomeBodyAppend(p, rest, show, nl);
    FitnessLineHasNoBreak(p, show);
    WeightsLineHasNoBreak();
    ReadLinesCons(f, nl, WeightsLine + nl + (w + rest));
    ReadLinesCons(WeightsLine, nl, w + rest);
    assert [f] + ([WeightsLine] + ReadLines(w + rest)) == [f, WeightsLine] + ReadLines(w + rest);
  }

  lemma GenomeBodyAppend(p: GenomePair, rest: string, show: real -> string, nl: string)
    ensures GenomeBody(p, show, nl) + rest
            == FitnessLine(p, show) + nl + (WeightsLine + nl + (WeightsText(p.genome.weights, show) + rest))
  {
  }

  lemma WeightsLineHasNoBreak()
    ensures NoLineBreak(WeightsLine) && 'G' !in WeightsLine && 'F' !in WeightsLine
  {
  }

  /** A non-empty population's text is its first genome's "\n", that genome's body, then the others. */
  lemma PopulationTextHead(population: seq<GenomePair>, show: real -> string, nl: string)
    requires |population| > 0
    ensures PopulationText(population, show, nl)
            == "\n" + (GenomeBody(population[0], show, nl) + PopulationText(population[1..], show, nl))
  {
  }

  /** The last weights line of a genome ends where the next genome's "\n" begins. */
  lemma WeightsThenNext(p: GenomePair, more: seq<GenomePair>, show: real -> string, nl: string)
    requires ShowsNumbers(show) && IsNewLine(nl) && |more| > 0
    ensures ReadLines(WeightsText(p.genome.weights, show) + PopulationText(more, show, nl))
            == [WeightsText(p.genome.weights, show)]
               + ReadLines(GenomeBody(more[0], show, nl) + PopulationText(more[1..], show, nl))
  {
    var w := WeightsText(p.genome.weights, show);
    var x := GenomeBody(more[0], show, nl) + PopulationText(more[1..], show, nl);
    PopulationTextHead(more, show, nl);
    WeightsTextHasNoBreak(p.genome.weights, show);
    ReadLinesCons(w, "\n", x);
  }

  /** The weights line of the last genome is the last line. */
  lemma WeightsLast(p: GenomePair, show: real -> string)
    requires ShowsNumbers(show) && |p.genome.weights| > 0
    ensures ReadLines(WeightsText(p.genome.weights, show) + PopulationText([], show, "\n"))
            == [WeightsText(p.genome.weights, show)]
  {
    var w := WeightsText(p.genome.weights, show);
    assert w + PopulationText([], show, "\n") == w;
    WeightsTextHasNoBreak(p.genome.weights, show);
    ReadLinesLast(w);
  }

  lemma HasWeightsTail(population: seq<GenomePair>)
    requires |population| > 0 && HasWeights(population)
    ensures HasWeights(population[1..]) && |population[0].genome.weights| > 0
  {
    forall i | 0 <= i < |population[1..]|
      ensures |population[1..][i].genome.weights| > 0
    {
      assert population[1..][i] == population[i + 1];
    }
  }

  /** After the leading "\n" of its first genome, a population reads back as its genome lines. */
  lemma {:induction false} PopulationLines(p: GenomePair, more: seq<GenomePair>, show: real -> string, nl: string)
    requires ShowsNumbers(show) && IsNewLine(nl)
    requires |p.genome.weights| > 0 && HasWeights(more)
    ensures ReadLines(GenomeBody(p, show, nl) + PopulationText(more, show, nl)) == GenomeLines([p] + more, show)
    decreases |more|
  {
    var w := WeightsText(p.genome.weights, show);
    var f := FitnessLine(p, show);
    var after := ReadLines(w + PopulationText(more, show, nl));
    GenomeBodyLines(p, PopulationText(more, show, nl), show, nl);
    GenomeLinesHead(p, more, show);
    if |more| == 0 {
      WeightsLast(p, show);
      assert PopulationText(more, show, nl) == PopulationText([], show, "\n");
    } else {
      HasWeightsTail(more);
      WeightsThenNext(p, more, show, nl);
      PopulationLines(more[0], more[1..], show, nl);
      assert [more[0]] + more[1..] == more;
    }
    ChainLines(ReadLines(GenomeBody(p, show, nl) + PopulationText(more, show, nl)), f, WeightsLine, after, w,
               GenomeLines(more, show));
  }

  lemma GenomeLinesHead(p: GenomePair, more: seq<GenomePair>, show: real -> string)
    ensures GenomeLines([p] + more, show)
            == [FitnessLine(p, show), WeightsLine, WeightsText(p.genome.weights, show)] + GenomeLines(more, show)
  {
    assert ([p] + more)[1..] == more;
  }

  lemma ChainLines(x: seq<string>, f: string, wl: string, y: seq<string>, w: string, z: seq<string>)
    requires x == [f, wl] + y && y == [w] + z
    ensures x == [f, wl, w] + z
  {
  }

  /** A dump block read on its own gives the expected lines. */
  lemma DumpTextLines(generation: int, best: real, average: real, population: seq<GenomePair>,
                      show: real -> string, nl: string)
    requires ShowsNumbers(show) && IsNewLine(nl) && HasWeights(population)
    ensures ReadLines(DumpText(generation, best, average, population, show, nl))
            == DumpLines(generation, best, average, population, show)
  {
    var h := HeaderLine(generation, best, average, show);
    var rest := PopulationText(population, show, nl);
    var tail := if |population| == 0 then [] else [""] + GenomeLines(population, show);
    HeaderLineHasNoBreak(generation, best, average, show);
    ReadLinesEmptyFirst(h + nl + rest);
    ReadLinesCons(h, nl, rest);
    if |population| > 0 {
      PopulationTail(population, show, nl);
    } else {
      assert rest == "";
    }
    assert DumpText(generation, best, average, population, show, nl) == "\n" + (h + nl + rest);
    ChainHeader(ReadLines("\n" + (h + nl + rest)), ReadLines(h + nl + rest), ReadLines(rest), h, tail);
  }

  lemma ChainHeader(x: seq<string>, y: seq<string>, z: seq<string>, h: string, tail: seq<string>)
    requires x == [""] + y && y == [h] + z && z == tail
    ensures x == ["", h] + tail
  {
  }

  /** A non-empty population reads as an empty line, then its genome lines. */
  lemma PopulationTail(population: seq<GenomePair>, show: real -> string, nl: string)
    requires ShowsNumbers(show) && IsNewLine(nl) && HasWeights(population) && |population| > 0
    ensures ReadLines(PopulationText(population, show, nl)) == [""] + GenomeLines(population, show)
  {
    var x := GenomeBody(population[0], show, nl) + PopulationText(population[1..], show, nl);
    PopulationTextHead(population, show, nl);
    HasWeightsTail(population);
    PopulationLines(population[0], population[1..], show, nl);
    assert [population[0]] + population[1..] == population;
    ReadLinesEmptyFirst(x);
  }

  // ---------------------------------------------------------------------
  // The loader
  // ---------------------------------------------------------------------

  /**
   * What the loader has read so far: the generation counter, the
   * algorithm's best and average fitness, the fitness of the last
   * "Fitness:" line, and the genomes added to the cleared population.
   */
  datatype LoadState = LoadState(generation: int, best: real, average: real, fitness: real,
                                 population: seq<GenomePair>)

  /** The exceptions the read loop can raise; the catch keeps whatever was read before. */
  datatype LoadError =
    | MissingToken        // an index past the end of `Split`'s pieces
    | BadInteger          // `int.Parse` rejects the generation token
    | BadNumber           // `double.Parse` rejects a token
    | MissingWeightsLine  // `ReadLine` returns null after a "Weights:" line

  datatype Loaded = Loaded(state: LoadState, error: Option<LoadError>)

  /** The header line: tokens 1, 3 and 5 of its blank-separated pieces, assigned in that order. */
  function ReadHeader(line: string, st: LoadState, parse: string -> Option<real>): (r: Loaded)
    ensures r.state.fitness == st.fitness && r.state.population == st.population
    ensures r.error.None? <==>
              (var t := Split(line, {' '});
               |t| >= 6 && ParseInt(t[1]).Some? && parse(t[3]).Some? && parse(t[5]).Some?)
    ensures r.error.None? ==>
              (var t := Split(line, {' '});
               r.state == st.(generation := ParseInt(t[1]).value, best := parse(t[3]).value,
                              average := parse(t[5]).value))
  {
    var t := Split(line, {' '});
    if |t| < 2 then Loaded(st, Some(MissingToken))
    else match ParseInt(t[1])
      case None => Loaded(st, Some(BadInteger))
      case Some(g) =>
        var st1 := st.(generation := g);
        if |t| < 4 then Loaded(st1, Some(MissingToken))
        else match parse(t[3])
          case None => Loaded(st1, Some(BadNumber))
          case Some(b) =>
            var st2 := st1.(best := b);
            if |t| < 6 then Loaded(st2, Some(MissingToken))
            else match parse(t[5])
              case None => Loaded(st2, Some(BadNumber))
              case Some(a) => Loaded(st2.(average := a), None)
  }

  /** A "Fitness:" line: token 1 becomes the fitness of the genomes that follow. */
  function ReadFitness(line: string, st: LoadState, parse: string -> Option<real>): (r: Loaded)
    ensures r.error.None? <==> (var t := Split(line, {' '}); |t| >= 2 && parse(t[1]).Some?)
    ensures r.error.None? ==> r.state == st.(fitness := parse(Split(line, {' '})[1]).value)
    ensures r.error.Some? ==> r.state == st
  {
    var t := Split(line, {' '});
    if |t| < 2 then Loaded(st, Some(MissingToken))
    else match parse(t[1])
      case None => Loaded(st, Some(BadNumber))
      case Some(f) => Loaded(st.(fitness := f), None)
  }

  /** `double.Parse` on every piece, or None at the first that fails. */
  function ParseAll(tokens: seq<string>, parse: string -> Option<real>): (r: Option<seq<real>>)
    ensures r.Some? <==> forall i :: 0 <= i < |tokens| ==> parse(tokens[i]).Some?
    ensures r.Some? ==> |r.value| == |tokens|
                        && forall i :: 0 <= i < |tokens| ==> parse(tokens[i]) == Some(r.value[i])
    decreases |tokens|
  {
    if |tokens| == 0 then Some([])
    else match parse(tokens[0])
      case None => None
      case Some(x) =>
        match ParseAll(tokens[1..], parse)
        case None => None
        case Some(xs) => Some([x] + xs)
  }

  /** The "Generation:" and "Fitness:" checks made on every line, in that order. */
  function ReadTags(line: string, st: LoadState, parse: string -> Option<real>): (r: Loaded)
    ensures r.state.population == st.population
  {
    var h := if Contains(line, GenerationTag) then ReadHeader(line, st, parse) else Loaded(st, None);
    if h.error.Some? then h
    else if Contains(line, FitnessTag) then ReadFitness(line, h.state, parse)
    else h
  }

  /** The genome a "Weights:" line and the line after it add: no id, the pending fitness. */
  function Unnamed(weights: seq<real>, fitness: real): GenomePair {
    GenomePair("", Genome(weights, fitness))
  }

  /** The genome a "Weights:" line adds to the population. */
  function WithGenome(st: LoadState, weights: seq<real>): LoadState {
    st.(population := st.population + [Unnamed(weights, st.fitness)])
  }

  /**
   * The read loop over the remaining lines. A "Weights:" line consumes the
   * next line, whose trimmed blank-separated pieces are the weights.
   */
  function Load(lines: seq<string>, st: LoadState, parse: string -> Option<real>): (r: Loaded)
    ensures |st.population| <= |r.state.population|
    decreases |lines|
  {
    if |lines| == 0 then Loaded(st, None)
    else
      var tags := ReadTags(lines[0], st, parse);
      if tags.error.Some? then tags
      else if !Contains(lines[0], WeightsTag) then Load(lines[1..], tags.state, parse)
      else if |lines| < 2 then Loaded(tags.state, Some(MissingWeightsLine))
      else match ParseAll(Split(Trim(lines[1]), {' '}), parse)
        case None => Loaded(tags.state, Some(BadNumber))
        case Some(ws) => Load(lines[2..], WithGenome(tags.state, ws), parse)
  }

  /** A line without the weights tag whose tags read cleanly: the loader goes on with the next line. */
  lemma LoadPlainStep(lines: seq<string>, st: LoadState, parse: string -> Option<real>)
    requires |lines| > 0 && ReadTags(lines[0], st, parse).error.None? && !Contains(lines[0], WeightsTag)
    ensures Load(lines, st, parse) == Load(lines[1..], ReadTags(lines[0], st, parse).state, parse)
  {
  }

  /** A "Weights:" line followed by a line of numbers: one genome more, and on after both. */
  lemma LoadWeightsStep(lines: seq<string>, st: LoadState, parse: string -> Option<real>, ws: seq<real>)
    requires |lines| > 1 && ReadTags(lines[0], st, parse).error.None? && Contains(lines[0], WeightsTag)
    requires ParseAll(Split(Trim(lines[1]), {' '}), parse) == Some(ws)
    ensures Load(lines, st, parse) == Load(lines[2..], WithGenome(ReadTags(lines[0], st, parse).state, ws), parse)
  {
  }

  /** `r` is `a` followed by unnamed genomes only. */
  predicate AppendsUnnamed(a: seq<GenomePair>, r: seq<GenomePair>) {
    && |a| <= |r| && r[..|a|] == a
    && forall i :: |a| <= i < |r| ==> r[i].id == ""
  }

  lemma AppendsUnnamedTrans(a: seq<GenomePair>, b: seq<GenomePair>, r: seq<GenomePair>)
    requires AppendsUnnamed(a, b) && AppendsUnnamed(b, r)
    ensures AppendsUnnamed(a, r)
  {
    PrefixOfPrefix(r, b, |a|);
  }

  /**
   * The loader only adds to the population it starts from, and every genome
   * it adds is unnamed.
   */
  lemma {:induction false} LoadOnlyAppends(lines: seq<string>, st: LoadState, parse: string -> Option<real>)
    ensures AppendsUnnamed(st.population, Load(lines, st, parse).state.population)
    decreases |lines|
  {
    if |lines| > 0 {
      var tags := ReadTags(lines[0], st, parse);
      if tags.error.None? {
        if !Contains(lines[0], WeightsTag) {
          LoadPlainStep(lines, st, parse);
          LoadOnlyAppends(lines[1..], tags.state, parse);
        } else if |lines| >= 2 {
          match ParseAll(Split(Trim(lines[1]), {' '}), parse)
          case None =>
          case Some(ws) =>
            var st' := WithGenome(tags.state, ws);
            LoadWeightsStep(lines, st, parse, ws);
            LoadOnlyAppends(lines[2..], st', parse);
            assert st'.population[..|st.population|] == st.population;
            AppendsUnnamedTrans(st.population, st'.population, Load(lines, st, parse).state.population);
        }
      }
    }
  }

  lemma PrefixOfPrefix<T>(a: seq<T>, b: seq<T>, n: int)
    requires 0 <= n <= |b| <= |a| && a[..|b|] == b
    ensures a[..n] == b[..n]
  {
    assert a[..n] == a[..|b|][..n];
  }

  /** The loader is a fold over lines: a clean read of a prefix hands its state to the rest. */
  lemma {:induction false} LoadAppend(a: seq<string>, b: seq<string>, st: LoadState, parse: string -> Option<real>)
    requires Load(a, st, parse).error.None?
    ensures Load(a + b, st, parse) == Load(b, Load(a, st, parse).state, parse)
    decreases |a|
  {
    if |a| > 0 {
      var tags := ReadTags(a[0], st, parse);
      assert (a + b)[0] == a[0];
      if !Contains(a[0], WeightsTag) {
        assert (a + b)[1..] == a[1..] + b;
        LoadPlainStep(a + b, st, parse);
        LoadAppend(a[1..], b, tags.state, parse);
      } else {
        assert (a + b)[1] == a[1];
        assert (a + b)[2..] == a[2..] + b;
        match ParseAll(Split(Trim(a[1]), {' '}), parse)
        case Some(ws) =>
          LoadWeightsStep(a + b, st, parse, ws);
          LoadAppend(a[2..], b, WithGenome(tags.state, ws), parse);
      }
    } else {
      assert a + b == b;
    }
  }

  // ---------------------------------------------------------------------
  // Reading a dump back
  // ---------------------------------------------------------------------

  /** The blank-separated pieces of a header line. */
  function HeaderTokens(generation: int, best: real, average: real, show: real -> string): seq<string> {
    [GenerationTag, IntToString(generation), BestTag, show(best), AverageTag, show(average)]
  }

  lemma HeaderIsJoin(generation: int, best: real, average: real, show: real -> string)
    ensures HeaderLine(generation, best, average, show) == Join(HeaderTokens(generation, best, average, show), ' ')
  {
    var t := HeaderTokens(generation, best, average, show);
    assert Join(t[5..], ' ') == show(average);
    assert Join(t[4..], ' ') == AverageTag + " " + show(average);
    assert Join(t[3..], ' ') == show(best) + " " + (AverageTag + " " + show(average));
    assert Join(t[2..], ' ') == BestTag + " " + (show(best) + " " + (AverageTag + " " + show(average)));
    assert Join(t[1..], ' ') == IntToString(generation) + " " + Join(t[2..], ' ');
  }

  /** No header piece holds a blank. */
  lemma HeaderTokensFree(generation: int, best: real, average: real, show: real -> string)
    requires ShowsNumbers(show)
    ensures forall k :: 0 <= k < 6 ==> ' ' !in HeaderTokens(generation, best, average, show)[k]
  {
    ShownHasNoBreak(show, best);
    ShownHasNoBreak(show, average);
  }

  /** No header piece holds the fitness tag. */
  lemma HeaderTokensLackFitness(generation: int, best: real, average: real, show: real -> string)
    requires ShowsNumbers(show)
    ensures forall k :: 0 <= k < 6 ==> !Contains(HeaderTokens(generation, best, average, show)[k], FitnessTag)
  {
    ShownHasNoBreak(show, best);
    ShownHasNoBreak(show, average);
    NotContainsMissingChar(GenerationTag, FitnessTag, 'F');
    GenerationTextPlain(generation);
    NotContainsMissingChar(IntToString(generation), FitnessTag, 'F');
    NotContainsMissingChar(show(best), FitnessTag, 'F');
    NotContainsMissingChar(show(average), FitnessTag, 'F');
    assert BestTag[0] != FitnessTag[0];
  }

  /** A header line sets the generation, best and average fitness, and holds no other tag. */
  lemma HeaderLineReads(generation: int, best: real, average: real, st: LoadState,
                        show: real -> string, parse: string -> Option<real>)
    requires ShowsNumbers(show) && ReadsBack(show, parse, [best, average]) && Int32Min <= generation <= Int32Max
    ensures ReadTags(HeaderLine(generation, best, average, show), st, parse)
            == Loaded(st.(generation := generation, best := best, average := average), None)
    ensures !Contains(HeaderLine(generation, best, average, show), WeightsTag)
  {
    var h := HeaderLine(generation, best, average, show);
    var t := HeaderTokens(generation, best, average, show);
    ReadsBackPair(show, parse, best, average);
    HeaderIsJoin(generation, best, average, show);
    HeaderTokensFree(generation, best, average, show);
    HeaderTokensLackFitness(generation, best, average, show);
    SplitJoin(t, ' ');
    ParseIntOfIntToString(generation);
    ContainsPrefix(h, GenerationTag);
    JoinLacks(t, ' ', FitnessTag);
    HeaderLineHasNoBreak(generation, best, average, show);
    NotContainsMissingChar(h, WeightsTag, 'W');
  }

  /** A fitness line sets the pending fitness, and holds no other tag. */
  lemma FitnessLineReads(p: GenomePair, st: LoadState, show: real -> string, parse: string -> Option<real>)
    requires ShowsNumbers(show) && ReadsBack(show, parse, [p.genome.fitness])
    ensures ReadTags(FitnessLine(p, show), st, parse) == Loaded(st.(fitness := p.genome.fitness), None)
    ensures !Contains(FitnessLine(p, show), WeightsTag)
  {
    var f := FitnessLine(p, show);
    var t := [FitnessTag, show(p.genome.fitness)];
    assert [p.genome.fitness][0] == p.genome.fitness;
    assert parse(show(p.genome.fitness)) == Some(p.genome.fitness);
    assert f == Join(t, ' ');
    ShownHasNoBreak(show, p.genome.fitness);
    SplitJoin(t, ' ');
    FitnessLineHasNoBreak(p, show);
    NotContainsMissingChar(f, GenerationTag, 'G');
    NotContainsMissingChar(f, WeightsTag, 'W');
    ContainsPrefix(f, FitnessTag);
  }

  /** The "Weights: " line changes nothing, and announces the weights line. */
  lemma WeightsLineReads(st: LoadState, parse: string -> Option<real>)
    ensures ReadTags(WeightsLine, st, parse) == Loaded(st, None)
    ensures Contains(WeightsLine, WeightsTag)
  {
    WeightsLineHasNoBreak();
    NotContainsMissingChar(WeightsLine, GenerationTag, 'G');
    NotContainsMissingChar(WeightsLine, FitnessTag, 'F');
    ContainsPrefix(WeightsLine, WeightsTag);
  }

  /** The rendering of each weight. */
  function Shows(weights: seq<real>, show: real -> string): (r: seq<string>)
    ensures |r| == |weights|
    decreases |weights|
  {
    if |weights| == 0 then [] else [show(weights[0])] + Shows(weights[1..], show)
  }

  lemma {:induction false} WeightsTextIsJoin(weights: seq<real>, show: real -> string)
    requires |weights| > 0
    ensures WeightsText(weights, show) == " " + Join(Shows(weights, show), ' ')
    decreases |weights|
  {
    var r := Shows(weights, show);
    if |weights| > 1 {
      WeightsTextIsJoin(weights[1..], show);
      assert r[1..] == Shows(weights[1..], show);
    }
  }

  lemma ShowsFree(weights: seq<real>, show: real -> string)
    requires ShowsNumbers(show)
    ensures forall k :: 0 <= k < |weights| ==> |Shows(weights, show)[k]| > 0 && ' ' !in Shows(weights, show)[k]
    ensures forall k :: 0 <= k < |weights| ==> IsNumberText(Shows(weights, show)[k])
  {
    forall k | 0 <= k < |weights|
      ensures Shows(weights, show)[k] == show(weights[k])
    {
      ShowsAt(weights, show, k);
    }
    forall k | 0 <= k < |weights|
      ensures |Shows(weights, show)[k]| > 0 && ' ' !in Shows(weights, show)[k]
      ensures IsNumberText(Shows(weights, show)[k])
    {
      ShownHasNoBreak(show, weights[k]);
      assert IsNumberText(show(weights[k]));
    }
  }

  lemma {:induction false} ShowsAt(weights: seq<real>, show: real -> string, k: nat)
    requires k < |weights|
    ensures Shows(weights, show)[k] == show(weights[k])
    decreases k
  {
    if k > 0 {
      ShowsAt(weights[1..], show, k - 1);
    }
  }

  /** Parsing the rendering of each weight gives the weights back. */
  lemma {:induction false} ParseShows(weights: seq<real>, show: real -> string, parse: string -> Option<real>)
    requires ReadsBack(show, parse, weights)
    ensures ParseAll(Shows(weights, show), parse) == Some(weights)
    decreases |weights|
  {
    if |weights| > 0 {
      assert [weights[0]] + weights[1..] == weights;
      ReadsBackSplit(show, parse, [weights[0]], weights[1..]);
      ParseShows(weights[1..], show, parse);
      assert Shows(weights, show)[1..] == Shows(weights[1..], show);
      assert [weights[0]] + weights[1..] == weights;
    }
  }

  /** The weights line, trimmed and split on blanks, parses back to the weights. */
  lemma WeightsReads(weights: seq<real>, show: real -> string, parse: string -> Option<real>)
    requires ShowsNumbers(show) && ReadsBack(show, parse, weights) && |weights| > 0
    ensures ParseAll(Split(Trim(WeightsText(weights, show)), {' '}), parse) == Some(weights)
  {
    var t := Shows(weights, show);
    var j := Join(t, ' ');
    WeightsTextIsJoin(weights, show);
    ShowsFree(weights, show);
    TrimJoined(t);
    assert Trim(WeightsText(weights, show)) == j;
    SplitJoin(t, ' ');
    ParseShows(weights, show, parse);
  }

  /** Number texts joined by blanks, after one leading blank, trim to the join. */
  lemma TrimJoined(t: seq<string>)
    requires |t| >= 1 && forall k :: 0 <= k < |t| ==> |t[k]| > 0 && IsNumberText(t[k])
    ensures Trim(" " + Join(t, ' ')) == Join(t, ' ')
  {
    var j := Join(t, ' ');
    var first, last := t[0], t[|t| - 1];
    JoinEnds(t, ' ');
    assert IsNumberText(first) && IsNumberText(last);
    assert IsNumberChar(first[0]) && IsNumberChar(last[|last| - 1]);
    assert j[0] == first[0] && j[|j| - 1] == last[|last| - 1];
    assert !IsWhiteSpace(j[0]) && !IsWhiteSpace(j[|j| - 1]);
    assert (" " + j)[1..] == j;
    assert TrimStart(" " + j) == j;
    TrimOfTrimmed(j);
  }

  /** The genomes as the loader rebuilds them: same weights and fitness, no id. */
  function Stripped(population: seq<GenomePair>): (r: seq<GenomePair>)
    ensures |r| == |population|
    decreases |population|
  {
    if |population| == 0 then [] else [GenomePair("", population[0].genome)] + Stripped(population[1..])
  }

  function LastFitness(population: seq<GenomePair>, fallback: real): real {
    if |population| == 0 then fallback else population[|population| - 1].genome.fitness
  }

  /** The three lines of one genome add it to the population and leave its fitness pending. */
  lemma GenomeStep(p: GenomePair, rest: seq<string>, st: LoadState,
                   show: real -> string, parse: string -> Option<real>)
    requires ShowsNumbers(show) && ReadsBack(show, parse, GenomeNumbers(p)) && |p.genome.weights| > 0
    ensures Load([FitnessLine(p, show), WeightsLine, WeightsText(p.genome.weights, show)] + rest, st, parse)
            == Load(rest, st.(fitness := p.genome.fitness, population := st.population + [GenomePair("", p.genome)]), parse)
  {
    var f := FitnessLine(p, show);
    var w := WeightsText(p.genome.weights, show);
    var st1 := st.(fitness := p.genome.fitness);
    assert [f, WeightsLine, w] + rest == [f] + ([WeightsLine, w] + rest);
    GenomeReadsBack(show, parse, p);
    FitnessLineReads(p, st, show, parse);
    LoadPlainThen(f, [WeightsLine, w] + rest, st, st1, parse);
    WeightsLineReads(st1, parse);
    WeightsReads(p.genome.weights, show, parse);
    LoadWeightsThen(WeightsLine, w, rest, st1, st1, p.genome.weights, parse);
    assert WithGenome(st1, p.genome.weights)
        == st.(fitness := p.genome.fitness, population := st.population + [GenomePair("", p.genome)]);
  }

  /** A clean line without the weights tag, then the rest. */
  lemma LoadPlainThen(line: string, rest: seq<string>, st: LoadState, st1: LoadState, parse: string -> Option<real>)
    requires ReadTags(line, st, parse) == Loaded(st1, None) && !Contains(line, WeightsTag)
    ensures Load([line] + rest, st, parse) == Load(rest, st1, parse)
  {
    LoadPlainStep([line] + rest, st, parse);
    assert ([line] + rest)[1..] == rest;
  }

  /** A clean "Weights:" line and a line of numbers, then the rest. */
  lemma LoadWeightsThen(line: string, numbers: string, rest: seq<string>, st: LoadState, st1: LoadState,
                        ws: seq<real>, parse: string -> Option<real>)
    requires ReadTags(line, st, parse) == Loaded(st1, None) && Contains(line, WeightsTag)
    requires ParseAll(Split(Trim(numbers), {' '}), parse) == Some(ws)
    ensures Load([line, numbers] + rest, st, parse) == Load(rest, WithGenome(st1, ws), parse)
  {
    LoadWeightsStep([line, numbers] + rest, st, parse, ws);
    assert ([line, numbers] + rest)[2..] == rest;
  }

  /** The genome lines of a dump load every genome, in order, without ids. */
  lemma {:induction false} GenomeLinesLoad(population: seq<GenomePair>, st: LoadState,
                                           show: real -> string, parse: string -> Option<real>)
    requires ShowsNumbers(show) && ReadsBack(show, parse, PopulationNumbers(population)) && HasWeights(population)
    ensures Load(GenomeLines(population, show), st, parse)
            == Loaded(st.(fitness := LastFitness(population, st.fitness),
                          population := st.population + Stripped(population)), None)
    decreases |population|
  {
    if |population| > 0 {
      var p := population[0];
      var st2 := st.(fitness := p.genome.fitness, population := st.population + [GenomePair("", p.genome)]);
      HasWeightsTail(population);
      PopulationReadsBack(show, parse, population);
      GenomeStep(p, GenomeLines(population[1..], show), st, show, parse);
      GenomeLinesLoad(population[1..], st2, show, parse);
      StrippedStep(population, st.population);
      LastFitnessStep(population, st.fitness);
    } else {
      assert st.population + Stripped(population) == st.population;
    }
  }

  lemma StrippedStep(population: seq<GenomePair>, before: seq<GenomePair>)
    requires |population| > 0
    ensures before + Stripped(population) == (before + [GenomePair("", population[0].genome)]) + Stripped(population[1..])
  {
    var x := GenomePair("", population[0].genome);
    var tail := Stripped(population[1..]);
    calc {
      before + Stripped(population);
      before + ([x] + tail);
      { SeqAssoc(before, [x], tail); }
      (before + [x]) + tail;
    }
  }

  lemma SeqAssoc<T>(a: seq<T>, b: seq<T>, c: seq<T>)
    ensures a + (b + c) == (a + b) + c
  {
  }

  lemma LastFitnessStep(population: seq<GenomePair>, fallback: real)
    requires |population| > 0
    ensures LastFitness(population, fallback) == LastFitness(population[1..], population[0].genome.fitness)
  {
    if |population| > 1 {
      assert population[1..][|population[1..]| - 1] == population[|population| - 1];
    }
  }

  /** A dump block, read line by line, sets the counters from its header and adds its genomes. */
  lemma DumpLinesLoad(generation: int, best: real, average: real, population: seq<GenomePair>, st: LoadState,
                      show: real -> string, parse: string -> Option<real>)
    requires ShowsNumbers(show) && ReadsBack(show, parse, Written(best, average, population)) && Int32Min <= generation <= Int32Max && HasWeights(population)
    ensures Load(DumpLines(generation, best, average, population, show), st, parse)
            == Loaded(LoadState(generation, best, average, LastFitness(population, st.fitness),
                                st.population + Stripped(population)), None)
  {
    var tail := if |population| == 0 then [] else [""] + GenomeLines(population, show);
    var st1 := st.(generation := generation, best := best, average := average);
    WrittenReadsBack(show, parse, best, average, population);
    DumpHeadLoad(generation, best, average, population, st, show, parse);
    if |population| > 0 {
      EmptyLineLoad(GenomeLines(population, show), st1, parse);
      GenomeLinesLoad(population, st1, show, parse);
    } else {
      assert tail == [] && Load(tail, st1, parse) == Loaded(st1, None);
      assert st.population + Stripped(population) == st.population;
    }
  }

  /** The two leading lines of a dump block set the counters and leave the genome part to read. */
  lemma DumpHeadLoad(generation: int, best: real, average: real, population: seq<GenomePair>, st: LoadState,
                     show: real -> string, parse: string -> Option<real>)
    requires ShowsNumbers(show) && ReadsBack(show, parse, [best, average]) && Int32Min <= generation <= Int32Max
    ensures Load(DumpLines(generation, best, average, population, show), st, parse)
            == Load(if |population| == 0 then [] else [""] + GenomeLines(population, show),
                    st.(generation := generation, best := best, average := average), parse)
  {
    var h := HeaderLine(generation, best, average, show);
    var tail := if |population| == 0 then [] else [""] + GenomeLines(population, show);
    DumpLinesShape(generation, best, average, population, show);
    EmptyLineLoad([h] + tail, st, parse);
    HeaderStep(generation, best, average, tail, st, show, parse);
  }

  lemma DumpLinesShape(generation: int, best: real, average: real, population: seq<GenomePair>, show: real -> string)
    ensures DumpLines(generation, best, average, population, show)
            == [""] + ([HeaderLine(generation, best, average, show)]
                       + (if |population| == 0 then [] else [""] + GenomeLines(population, show)))
  {
    var h := HeaderLine(generation, best, average, show);
    var tail := if |population| == 0 then [] else [""] + GenomeLines(population, show);
    PairThen("", h, tail);
  }

  lemma PairThen<T>(a: T, b: T, tail: seq<T>)
    ensures [a, b] + tail == [a] + ([b] + tail)
  {
    assert [a, b] == [a] + [b];
  }

  /** An empty line changes nothing. */
  lemma EmptyLineLoad(rest: seq<string>, st: LoadState, parse: string -> Option<real>)
    ensures Load([""] + rest, st, parse) == Load(rest, st, parse)
  {
    assert ([""] + rest)[1..] == rest;
    EmptyLineReads(st, parse);
    LoadPlainStep([""] + rest, st, parse);
  }

  lemma EmptyLineReads(st: LoadState, parse: string -> Option<real>)
    ensures ReadTags("", st, parse) == Loaded(st, None) && !Contains("", WeightsTag)
  {
  }

  /** A header line sets the counters and the loader goes on with the next line. */
  lemma HeaderStep(generation: int, best: real, average: real, rest: seq<string>, st: LoadState,
                   show: real -> string, parse: string -> Option<real>)
    requires ShowsNumbers(show) && ReadsBack(show, parse, [best, average]) && Int32Min <= generation <= Int32Max
    ensures Load([HeaderLine(generation, best, average, show)] + rest, st, parse)
            == Load(rest, st.(generation := generation, best := best, average := average), parse)
  {
    HeaderLineReads(generation, best, average, st, show, parse);
    assert ([HeaderLine(generation, best, average, show)] + rest)[1..] == rest;
    LoadPlainStep([HeaderLine(generation, best, average, show)] + rest, st, parse);
  }

  /**
   * Reading back a dump block written with `nl` as line terminator restores
   * the generation counter, the best and average fitness and every genome's
   * weights and fitness; the ids are not written and come back empty.
   */
  lemma DumpRoundTrip(generation: int, best: real, average: real, population: seq<GenomePair>, st: LoadState,
                      show: real -> string, parse: string -> Option<real>, nl: string)
    requires ShowsNumbers(show) && ReadsBack(show, parse, Written(best, average, population)) && IsNewLine(nl) && Int32Min <= generation <= Int32Max && HasWeights(population)
    ensures Load(ReadLines(DumpText(generation, best, average, population, show, nl)), st, parse)
            == Loaded(LoadState(generation, best, average, LastFitness(population, st.fitness),
                                st.population + Stripped(population)), None)
  {
    DumpTextLines(generation, best, average, population, show, nl);
    DumpLinesLoad(generation, best, average, population, st, show, parse);
  }

  // ---------------------------------------------------------------------
  // Starting from a loaded generation
  // ---------------------------------------------------------------------

  function Reversed(s: seq<GenomePair>): (r: seq<GenomePair>)
    ensures |r| == |s| && forall i :: 0 <= i < |s| ==> r[i] == s[|s| - 1 - i]
    decreases |s|
  {
    if |s| == 0 then [] else Reversed(s[1..]) + [s[0]]
  }

  lemma {:induction false} ReversedPermutes(s: seq<GenomePair>)
    ensures multiset(Reversed(s)) == multiset(s)
    decreases |s|
  {
    if |s| > 0 {
      ReversedPermutes(s[1..]);
      assert s == [s[0]] + s[1..];
    }
  }

  /**
   * `sort` sorts ascending by fitness. `List.Sort` is not stable, so the
   * order it leaves equal fitnesses in is not fixed: any such function may
   * stand for it.
   */
  ghost predicate IsSort(sort: seq<GenomePair> -> seq<GenomePair>) {
    forall s :: multiset(sort(s)) == multiset(s) && SortedByFitness(sort(s))
  }

  /** The reference sort is one such sort. */
  lemma SortByFitnessIsSort()
    ensures IsSort(SortByFitness)
  {
  }

  /** `Sort` with the pair comparison, then `Reverse`: fittest first. */
  function Descending(sort: seq<GenomePair> -> seq<GenomePair>, population: seq<GenomePair>): (r: seq<GenomePair>)
    requires IsSort(sort)
    ensures |r| == |population| && multiset(r) == multiset(population)
    ensures forall i, j :: 0 <= i < j < |r| ==> r[i].genome.fitness >= r[j].genome.fitness
  {
    var sorted := sort(population);
    assert |sorted| == |multiset(sorted)| == |multiset(population)| == |population|;
    ReversedPermutes(sorted);
    Reversed(sorted)
  }

  /** `i` taken down by `k` until it is below `k`: the remainder of `i` by `k`. */
  function Wrap(i: nat, k: nat): (w: nat)
    requires k > 0
    ensures w < k && w <= i
    ensures i < k ==> w == i
    decreases i
  {
    if i < k then i else Wrap(i - k, k)
  }

  /**
   * The reference for the "elite only" loop: with `k` elite slots, entry
   * `i` ends up holding the `i mod k`-th fittest genome; with no slots the
   * list is unchanged.
   */
  function EliteCopies(desc: seq<GenomePair>, k: int): (r: seq<GenomePair>)
    ensures |r| == |desc|
  {
    if k <= 0 then desc else seq(|desc|, i requires 0 <= i < |desc| => desc[Wrap(i, k)])
  }

  /**
   * The loop itself: entries below `k` are skipped, every later entry `i`
   * takes the current value of entry `e`, where `e` counts the entries
   * already overwritten. Each entry so reads an entry `k` places earlier
   * that the loop has already rewritten.
   */
  method ReshuffleElite(desc: seq<GenomePair>, k: int) returns (r: seq<GenomePair>)
    ensures |r| == |desc|
    ensures k <= 0 ==> r == desc
    ensures k > 0 ==> forall i :: 0 <= i < |r| ==> r[i] == desc[Wrap(i, k)]
    ensures r == EliteCopies(desc, k)
  {
    var slots := if k < 0 then 0 else k;
    r := desc;
    var e := 0;
    var i := 0;
    while i < |r|
      invariant 0 <= i <= |r| == |desc|
      invariant e == if i < slots then 0 else i - slots
      invariant forall j :: i <= j < |r| ==> r[j] == desc[j]
      invariant forall j :: 0 <= j < i ==> r[j] == Copied(desc, k, j)
    {
      if i >= k {
        CopiedStep(desc, k, i);
        r := r[i := r[e]];
        e := e + 1;
      }
      i := i + 1;
    }
    EliteCopiesAt(desc, k, r);
  }

  /** The entry the reshuffle leaves at `j`. */
  function Copied(desc: seq<GenomePair>, k: int, j: int): GenomePair
    requires 0 <= j < |desc|
  {
    if k <= 0 then desc[j] else desc[Wrap(j, k)]
  }

  /** An entry at or past `k` copies the entry `k` places before it. */
  lemma CopiedStep(desc: seq<GenomePair>, k: int, i: int)
    requires 0 <= i < |desc| && i >= k
    ensures 0 <= i - (if k < 0 then 0 else k) && Copied(desc, k, i) == Copied(desc, k, i - (if k < 0 then 0 else k))
  {
  }

  lemma EliteCopiesAt(desc: seq<GenomePair>, k: int, r: seq<GenomePair>)
    requires |r| == |desc| && forall j :: 0 <= j < |r| ==> r[j] == Copied(desc, k, j)
    ensures r == EliteCopies(desc, k)
  {
    if k <= 0 {
      assert r == desc;
    }
  }

  /**
   * After the reshuffle with `0 < k` slots, the first `k` entries are the
   * fittest in order and every entry is one of them.
   */
  lemma EliteOnlyKeepsFittest(sort: seq<GenomePair> -> seq<GenomePair>, population: seq<GenomePair>, k: int)
    requires k > 0 && IsSort(sort)
    ensures var desc := Descending(sort, population);
            var r := EliteCopies(desc, k);
            (forall i :: 0 <= i < |r| && i < k ==> r[i] == desc[i])
            && (forall i :: 0 <= i < |r| ==> r[i] in desc[..if k < |desc| then k else |desc|])
            && (forall i, j :: 0 <= i < |r| && k <= j < |desc| ==> r[i].genome.fitness >= desc[j].genome.fitness)
  {
    EliteCopiesOfSorted(Descending(sort, population), k);
  }

  lemma EliteCopiesOfSorted(desc: seq<GenomePair>, k: int)
    requires k > 0
    requires forall i, j :: 0 <= i < j < |desc| ==> desc[i].genome.fitness >= desc[j].genome.fitness
    ensures var r := EliteCopies(desc, k);
            (forall i :: 0 <= i < |r| && i < k ==> r[i] == desc[i])
            && (forall i :: 0 <= i < |r| ==> r[i] in desc[..if k < |desc| then k else |desc|])
            && (forall i, j :: 0 <= i < |r| && k <= j < |desc| ==> r[i].genome.fitness >= desc[j].genome.fitness)
  {
    var r := EliteCopies(desc, k);
    var top := if k < |desc| then k else |desc|;
    forall i | 0 <= i < |r|
      ensures r[i] in desc[..top]
    {
      assert desc[..top][Wrap(i, k)] == r[i];
    }
  }

  /**
   * The population and counters the game starts with. Reading is enabled
   * by `fromFile`; `file` is the text of the start-generation file, None
   * when it does not exist. A missing file fails before the population is
   * cleared; a failing read keeps what was read before the failure and
   * skips the "elite only" reshuffle.
   */
  function StartState(random: seq<GenomePair>, start: LoadState, fromFile: bool, file: Option<string>,
                      eliteOnly: bool, eliteSlots: int, parse: string -> Option<real>,
                      sort: seq<GenomePair> -> seq<GenomePair>): (r: LoadState)
    requires IsSort(sort)
    ensures !fromFile || file.None? ==> r == start.(population := random)
  {
    if !fromFile || file.None? then start.(population := random)
    else
      var loaded := Load(ReadLines(file.value), start.(population := []), parse);
      if loaded.error.None? && eliteOnly
      then loaded.state.(population := EliteCopies(Descending(sort, loaded.state.population), eliteSlots))
      else loaded.state
  }

  /**
   * Starting from a dumped generation restores its counters and its genomes
   * in order, or, with "elite only", copies of its fittest genomes.
   */
  lemma StartFromDump(random: seq<GenomePair>, start: LoadState, generation: int, best: real, average: real,
                      population: seq<GenomePair>, eliteOnly: bool, eliteSlots: int,
                      show: real -> string, parse: string -> Option<real>, nl: string, sort: seq<GenomePair> -> seq<GenomePair>)
    requires ShowsNumbers(show) && ReadsBack(show, parse, Written(best, average, population)) && IsNewLine(nl) && Int32Min <= generation <= Int32Max && HasWeights(population)
    requires IsSort(sort)
    ensures var r := StartState(random, start, true, Some(DumpText(generation, best, average, population, show, nl)),
                                eliteOnly, eliteSlots, parse, sort);
            r.generation == generation && r.best == best && r.average == average
            && r.population == (if eliteOnly then EliteCopies(Descending(sort, Stripped(population)), eliteSlots)
                                else Stripped(population))
  {
    DumpRoundTrip(generation, best, average, population, start.(population := []), show, parse, nl);
    assert [] + Stripped(population) == Stripped(population);
  }
}
