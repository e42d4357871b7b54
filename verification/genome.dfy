/**
 * Genomes (a weight vector with a fitness), the identifier-tagged pairs the
 * genetic algorithm breeds, and the fitness ordering it sorts them by.
 */
module Genomes {

  datatype Genome = Genome(weights: seq<real>, fitness: real)

  /** A genome tagged with the identifier of the agent that carries it. */
  datatype GenomePair = GenomePair(id: string, genome: Genome)

  /** `new Genome()`: no weights, fitness 0. */
  function DefaultGenome(): (g: Genome)
    ensures |g.weights| == 0 && g.fitness == 0.0
  {
    Genome([], 0.0)
  }

  /** `GenomeComparison`: 1, 0 or -1 as the first fitness is above, equal to or below the second. */
  function CompareFitness(a: real, b: real): (c: int)
    ensures c == 1 <==> a > b
    ensures c == 0 <==> a == b
    ensures c == -1 <==> a < b
  {
    if a > b then 1 else if a == b then 0 else -1
  }

  /** `GenomePairComparison`: the genome comparison applied to the pairs' genomes; antisymmetric. */
  function ComparePairs(p: GenomePair, q: GenomePair): (c: int)
    ensures c <= 0 <==> p.genome.fitness <= q.genome.fitness
    ensures c == -CompareFitness(q.genome.fitness, p.genome.fitness)
  {
    CompareFitness(p.genome.fitness, q.genome.fitness)
  }

  function Fitness(p: GenomePair): real {
    p.genome.fitness
  }

  /** Ascending by fitness, as `List.Sort` with the pair comparison leaves it. */
  predicate SortedByFitness(s: seq<GenomePair>) {
    forall i, j :: 0 <= i < j < |s| ==> s[i].genome.fitness <= s[j].genome.fitness
  }

  /** Every neighbour compares as "not above" its successor. */
  predicate AdjacentInOrder(s: seq<GenomePair>) {
    forall i :: 0 <= i < |s| - 1 ==> ComparePairs(s[i], s[i + 1]) <= 0
  }

  /** The order the comparison defines is the order `SortedByFitness` states. */
  lemma {:induction false} SortedIffAdjacent(s: seq<GenomePair>)
    ensures SortedByFitness(s) <==> AdjacentInOrder(s)
    decreases |s|
  {
    if |s| >= 2 && AdjacentInOrder(s) {
      SortedIffAdjacent(s[1..]);
      assert AdjacentInOrder(s[1..]) by {
        forall i | 0 <= i < |s[1..]| - 1
          ensures ComparePairs(s[1..][i], s[1..][i + 1]) <= 0
        {
          assert s[1..][i] == s[i + 1] && s[1..][i + 1] == s[i + 2];
        }
      }
      forall i, j | 0 <= i < j < |s|
        ensures s[i].genome.fitness <= s[j].genome.fitness
      {
        if i > 0 {
          assert s[1..][i - 1] == s[i] && s[1..][j - 1] == s[j];
        } else {
          assert s[1..][0] == s[1] && s[1..][j - 1] == s[j];
          assert ComparePairs(s[0], s[1]) <= 0;
        }
      }
    }
  }

  /** Insert `x` after every element of `s` whose fitness is not above it. */
  function Insert(x: GenomePair, s: seq<GenomePair>): (r: seq<GenomePair>)
    requires SortedByFitness(s)
    ensures |r| == |s| + 1 && multiset(r) == multiset(s) + multiset{x}
    ensures SortedByFitness(r)
    decreases |s|
  {
    if |s| == 0 then [x]
    else if x.genome.fitness < s[0].genome.fitness then
      ConsSorted(x, s);
      [x] + s
    else
      var rest := Insert(x, s[1..]);
      assert s == [s[0]] + s[1..];
      SortedTailAbove(s);
      BoundedByMultiset(s[0].genome.fitness, s[1..], x, rest);
      ConsSorted(s[0], rest);
      [s[0]] + rest
  }

  /** Every element of a sorted list's tail is at least its head. */
  lemma SortedTailAbove(s: seq<GenomePair>)
    requires SortedByFitness(s) && |s| > 0
    ensures SortedByFitness(s[1..])
    ensures forall k :: 0 <= k < |s[1..]| ==> s[0].genome.fitness <= s[1..][k].genome.fitness
  {
    assert forall k :: 0 <= k < |s[1..]| ==> s[1..][k] == s[k + 1];
  }

  /** A lower bound of `s` and of `x` bounds any arrangement of them. */
  lemma BoundedByMultiset(lo: real, s: seq<GenomePair>, x: GenomePair, rest: seq<GenomePair>)
    requires multiset(rest) == multiset(s) + multiset{x} && lo <= x.genome.fitness
    requires forall k :: 0 <= k < |s| ==> lo <= s[k].genome.fitness
    ensures forall k :: 0 <= k < |rest| ==> lo <= rest[k].genome.fitness
  {
    forall k | 0 <= k < |rest|
      ensures lo <= rest[k].genome.fitness
    {
      assert rest[k] in multiset(rest);
      if rest[k] != x {
        assert rest[k] in multiset(s);
        var m :| 0 <= m < |s| && s[m] == rest[k];
      }
    }
  }

  /** A head no fitter than any element of a sorted tail keeps the list sorted. */
  lemma ConsSorted(h: GenomePair, s: seq<GenomePair>)
    requires SortedByFitness(s)
    requires forall k :: 0 <= k < |s| ==> h.genome.fitness <= s[k].genome.fitness
    ensures SortedByFitness([h] + s)
  {
    var r := [h] + s;
    forall i, j | 0 <= i < j < |r|
      ensures r[i].genome.fitness <= r[j].genome.fitness
    {
      assert r[j] == s[j - 1];
      if i > 0 {
        assert r[i] == s[i - 1];
      }
    }
  }

  /** A reference sort by fitness: one of the orders `List.Sort` may produce. */
  function SortByFitness(s: seq<GenomePair>): (r: seq<GenomePair>)
    ensures |r| == |s| && multiset(r) == multiset(s)
    ensures SortedByFitness(r)
    decreases |s|
  {
    if |s| == 0 then []
    else
      assert s == [s[0]] + s[1..];
      Insert(s[0], SortByFitness(s[1..]))
  }

  /** Removing one element keeps a list sorted. */
  lemma SortedRemove(a: seq<GenomePair>, k: nat)
    requires SortedByFitness(a) && k < |a|
    ensures SortedByFitness(a[..k] + a[k + 1..])
  {
    var a' := a[..k] + a[k + 1..];
    forall i, j | 0 <= i < j < |a'|
      ensures a'[i].genome.fitness <= a'[j].genome.fitness
    {
      var ii := if i < k then i else i + 1;
      var jj := if j < k then j else j + 1;
      assert a'[i] == a[ii] && a'[j] == a[jj];
    }
  }

  lemma MultisetRemove(a: seq<GenomePair>, k: nat)
    requires k < |a|
    ensures multiset(a[..k] + a[k + 1..]) == multiset(a) - multiset{a[k]}
  {
    assert a == a[..k] + [a[k]] + a[k + 1..];
  }

  /** The last elements of two sorted arrangements of the same pairs have the same fitness. */
  lemma SortedLastsAgree(a: seq<GenomePair>, b: seq<GenomePair>)
    requires SortedByFitness(a) && SortedByFitness(b) && multiset(a) == multiset(b) && |a| > 0
    ensures |b| == |a| && a[|a| - 1].genome.fitness == b[|b| - 1].genome.fitness
  {
    assert |a| == |multiset(a)| == |multiset(b)| == |b|;
    var n := |a|;
    assert a[n - 1] in multiset(b);
    assert b[n - 1] in multiset(a);
    var ia :| 0 <= ia < n && b[ia] == a[n - 1];
    var ib :| 0 <= ib < n && a[ib] == b[n - 1];
  }

  lemma FindIndex(a: seq<GenomePair>, x: GenomePair) returns (k: nat)
    requires x in multiset(a)
    ensures k < |a| && a[k] == x
  {
    assert x in a;
    k :| 0 <= k < |a| && a[k] == x;
  }

  lemma SortedPrefix(a: seq<GenomePair>, n: nat)
    requires SortedByFitness(a) && n <= |a|
    ensures SortedByFitness(a[..n])
  {
    assert forall i :: 0 <= i < n ==> a[..n][i] == a[i];
  }

  /** Two sorted arrangements of the same pairs list the same fitness values in the same places. */
  lemma {:induction false} SortedPermutationsAgreeOnFitness(a: seq<GenomePair>, b: seq<GenomePair>)
    requires SortedByFitness(a) && SortedByFitness(b) && multiset(a) == multiset(b)
    ensures |a| == |b|
    ensures forall i :: 0 <= i < |a| ==> a[i].genome.fitness == b[i].genome.fitness
    decreases |a|
  {
    assert |a| == |multiset(a)| == |multiset(b)| == |b|;
    if |a| > 0 {
      var n := |a|;
      SortedLastsAgree(a, b);
      var top := b[n - 1];
      var ib := FindIndex(a, top);
      var a' := a[..ib] + a[ib + 1..];
      var b' := b[..n - 1];
      RemovalKeepsPermutation(a, b, ib, a', b');
      SortedPermutationsAgreeOnFitness(a', b');
      AgreeAfterRemoval(a, b, ib, a', b');
    }
  }

  lemma RemovalKeepsPermutation(a: seq<GenomePair>, b: seq<GenomePair>, ib: nat, a': seq<GenomePair>, b': seq<GenomePair>)
    requires SortedByFitness(a) && SortedByFitness(b) && multiset(a) == multiset(b)
    requires |a| == |b| && ib < |a| && a[ib] == b[|b| - 1]
    requires a' == a[..ib] + a[ib + 1..] && b' == b[..|b| - 1]
    ensures SortedByFitness(a') && SortedByFitness(b') && multiset(a') == multiset(b') && |a'| == |a| - 1
  {
    SortedRemove(a, ib);
    SortedPrefix(b, |b| - 1);
    RemoveSameElement(a, b, ib);
  }

  /** Removing the same element from two permutations of each other leaves permutations. */
  lemma RemoveSameElement(a: seq<GenomePair>, b: seq<GenomePair>, ib: nat)
    requires multiset(a) == multiset(b) && 0 < |b| && ib < |a| && a[ib] == b[|b| - 1]
    ensures multiset(a[..ib] + a[ib + 1..]) == multiset(b[..|b| - 1])
  {
    MultisetRemove(a, ib);
    MultisetRemove(b, |b| - 1);
    assert b[..|b| - 1] + b[|b|..] == b[..|b| - 1];
  }

  /** The induction step: agreement after removing the top of `b` from `a` gives agreement before it. */
  lemma AgreeAfterRemoval(a: seq<GenomePair>, b: seq<GenomePair>, ib: nat, a': seq<GenomePair>, b': seq<GenomePair>)
    requires SortedByFitness(a) && |a| == |b| && ib < |a|
    requires a' == a[..ib] + a[ib + 1..] && b' == b[..|b| - 1]
    requires a[ib] == b[|b| - 1] && a[|a| - 1].genome.fitness == b[|b| - 1].genome.fitness
    requires forall i :: 0 <= i < |a'| ==> a'[i].genome.fitness == b'[i].genome.fitness
    ensures forall i :: 0 <= i < |a| ==> a[i].genome.fitness == b[i].genome.fitness
  {
    var n := |a|;
    forall i | 0 <= i < n
      ensures a[i].genome.fitness == b[i].genome.fitness
    {
      if i < n - 1 {
        assert b'[i] == b[i];
        if i < ib {
          assert a'[i] == a[i];
        } else {
          assert a'[i] == a[i + 1];
          assert a[ib].genome.fitness <= a[i].genome.fitness <= a[n - 1].genome.fitness;
          assert a[i + 1].genome.fitness <= a[n - 1].genome.fitness;
        }
      }
    }
  }
}
