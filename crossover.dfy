/** The crossover step (`crossover`): the best half of the ranked population breeds in pairs,
    the children overwrite the worst half, ranks 0 to 7 survive and the other parents are
    replaced by fresh random chromosomes. */
module Crossover {
  import opened Genes
  import opened Params

  /** `if point1 > point2: swap`: the two cut points in increasing order. */
  function Ordered(points: (nat, nat)): (r: (nat, nat))
    ensures r.0 <= r.1
    ensures (r.0 == points.0 && r.1 == points.1) || (r.0 == points.1 && r.1 == points.0)
  {
    if points.0 > points.1 then (points.1, points.0) else points
  }

  /** A child: parent a with the segment [lo, hi] (both ends included) taken from parent b. */
  function Offspring(a: seq<int>, b: seq<int>, lo: nat, hi: nat): (r: seq<int>)
    requires lo <= hi < |a| == |b|
    ensures |r| == |a|
  {
    a[..lo] + b[lo..hi + 1] + a[hi + 1..]
  }

  /** The segment law: a child agrees with parent b inside [lo, hi] and with parent a outside. */
  lemma OffspringSegments(a: seq<int>, b: seq<int>, lo: nat, hi: nat)
    requires lo <= hi < |a| == |b|
    ensures forall j :: 0 <= j < |a| ==>
      Offspring(a, b, lo, hi)[j] == if lo <= j <= hi then b[j] else a[j]
  {
  }

  /** Crossing the two children over again at the same points gives the parents back. */
  lemma OffspringSwapBack(a: seq<int>, b: seq<int>, lo: nat, hi: nat)
    requires lo <= hi < |a| == |b|
    ensures Offspring(Offspring(a, b, lo, hi), Offspring(b, a, lo, hi), lo, hi) == a
    ensures Offspring(Offspring(b, a, lo, hi), Offspring(a, b, lo, hi), lo, hi) == b
  {
    var c1, c2 := Offspring(a, b, lo, hi), Offspring(b, a, lo, hi);
    OffspringSegments(a, b, lo, hi);
    OffspringSegments(b, a, lo, hi);
    OffspringSegments(c1, c2, lo, hi);
    OffspringSegments(c2, c1, lo, hi);
    assert Offspring(c1, c2, lo, hi) == a;
    assert Offspring(c2, c1, lo, hi) == b;
  }

  /** Two sequences that hold, position by position, the genes of a and b (in either order). */
  predicate SharesGenes(c1: seq<int>, c2: seq<int>, a: seq<int>, b: seq<int>) {
    |c1| == |c2| == |a| == |b|
    && forall j :: 0 <= j < |a| ==>
      (c1[j] == a[j] && c2[j] == b[j]) || (c1[j] == b[j] && c2[j] == a[j])
  }

  /** Sharing out the genes of two parents keeps their total count of ones. */
  lemma {:induction false} SharedGenesKeepOnes(c1: seq<int>, c2: seq<int>, a: seq<int>, b: seq<int>)
    requires SharesGenes(c1, c2, a, b)
    ensures CountOnes(c1) + CountOnes(c2) == CountOnes(a) + CountOnes(b)
  {
    if a != [] {
      var m := |a| - 1;
      assert SharesGenes(c1[..m], c2[..m], a[..m], b[..m]);
      SharedGenesKeepOnes(c1[..m], c2[..m], a[..m], b[..m]);
    }
  }

  /** The two children of a pair hold as many centers between them as their parents, and are
      binary when the parents are. */
  lemma OffspringKeepOnes(a: seq<int>, b: seq<int>, lo: nat, hi: nat)
    requires lo <= hi < |a| == |b|
    ensures CountOnes(Offspring(a, b, lo, hi)) + CountOnes(Offspring(b, a, lo, hi))
      == CountOnes(a) + CountOnes(b)
    ensures Binary(a) && Binary(b) ==> Binary(Offspring(a, b, lo, hi)) && Binary(Offspring(b, a, lo, hi))
  {
    OffspringSegments(a, b, lo, hi);
    OffspringSegments(b, a, lo, hi);
    SharedGenesKeepOnes(Offspring(a, b, lo, hi), Offspring(b, a, lo, hi), a, b);
  }

  /** The re-initialisation of one parent slot: every gene set to 0, then a 1 written at each
      sampled position. */
  method Reseed(row: seq<int>, pos: seq<nat>) returns (r: seq<int>)
    requires forall x :: x in pos ==> x < |row|
    ensures r == SetOnes(Zeros(|row|), pos)
  {
    r := row;
    for p := 0 to |row|
      invariant |r| == |row|
      invariant forall j :: 0 <= j < p ==> r[j] == 0
    {
      r := r[p := 0];
    }
    assert r == Zeros(|row|);
    r := PlaceCenters(r, pos);
  }

  /** The slot a pair's first child is written to: `chromosomes[-1 - i]` for i = 2q. */
  function FirstChildSlot(size: nat, q: nat): nat
    requires 2 * q + 1 <= size
  {
    size - 1 - 2 * q
  }

  /** `chromosomes[-2 - i]` for i = 2q. */
  function SecondChildSlot(size: nat, q: nat): nat
    requires 2 * q + 2 <= size
  {
    size - 2 - 2 * q
  }

  /** What crossover needs of its inputs: every chromosome spans the n nodes, half the
      population is even, there is one pair of cut points per pair of parents, each below n,
      and one sample of k nodes per re-seeded slot. */
  predicate CrossoverInputs(pop: seq<seq<int>>, n: nat, k: nat, points: seq<(nat, nat)>, reseeds: seq<seq<nat>>) {
    (forall q :: 0 <= q < |pop| ==> |pop[q]| == n)
    && HalfPop(|pop|) % 2 == 0
    && |points| == HalfPop(|pop|) / 2
    && (forall q :: 0 <= q < |points| ==> points[q].0 < n && points[q].1 < n)
    && |reseeds| == ReseedCount(HalfPop(|pop|))
    && (forall r :: 0 <= r < |reseeds| ==> IsSample(reseeds[r], n, k))
  }

  /** The child a pair of parents leaves at their crossover points: parent a with the segment
      between the ordered points taken from parent b. */
  function Child(a: seq<int>, b: seq<int>, points: (nat, nat)): (r: seq<int>)
    requires points.0 < |a| == |b| && points.1 < |a|
    ensures |r| == |a|
  {
    Offspring(a, b, Ordered(points).0, Ordered(points).1)
  }

  /** The population once the first m pairs have bred: slot size - 1 - 2q holds the first
      child of parents 2q and 2q + 1, slot size - 2 - 2q the second, and the slots below are
      untouched. */
  ghost function Bred(orig: seq<seq<int>>, n: nat, points: seq<(nat, nat)>, m: nat): (r: seq<seq<int>>)
    requires forall q :: 0 <= q < |orig| ==> |orig[q]| == n
    requires m <= |points| && 4 * |points| <= |orig|
    requires forall q :: 0 <= q < |points| ==> points[q].0 < n && points[q].1 < n
    ensures |r| == |orig|
  {
    if m == 0 then orig
    else
      var prev := Bred(orig, n, points, m - 1);
      prev[FirstChildSlot(|orig|, m - 1) := Child(orig[2 * (m - 1)], orig[2 * (m - 1) + 1], points[m - 1])]
          [SecondChildSlot(|orig|, m - 1) := Child(orig[2 * (m - 1) + 1], orig[2 * (m - 1)], points[m - 1])]
  }

  /** Breeding keeps every chromosome the length of the node list and leaves the slots below
      the ones written so far untouched. */
  lemma {:induction false} BredShape(orig: seq<seq<int>>, n: nat, points: seq<(nat, nat)>, m: nat)
    requires forall q :: 0 <= q < |orig| ==> |orig[q]| == n
    requires m <= |points| && 4 * |points| <= |orig|
    requires forall q :: 0 <= q < |points| ==> points[q].0 < n && points[q].1 < n
    ensures forall s :: 0 <= s < |orig| ==> |Bred(orig, n, points, m)[s]| == n
    ensures forall s :: 0 <= s < |orig| - 2 * m ==> Bred(orig, n, points, m)[s] == orig[s]
  {
    if m > 0 {
      BredShape(orig, n, points, m - 1);
    }
  }

  /** Pair q breeds from the population the earlier pairs left: its parents are still the
      original ones there. */
  lemma BredNext(orig: seq<seq<int>>, n: nat, points: seq<(nat, nat)>, q: nat)
    requires forall s :: 0 <= s < |orig| ==> |orig[s]| == n
    requires q < |points| && 4 * |points| <= |orig|
    requires forall t :: 0 <= t < |points| ==> points[t].0 < n && points[t].1 < n
    ensures var prev := Bred(orig, n, points, q);
      |prev[2 * q]| == |prev[2 * q + 1]| == n
      && Bred(orig, n, points, q + 1)
        == prev[FirstChildSlot(|orig|, q) := Child(prev[2 * q], prev[2 * q + 1], points[q])]
               [SecondChildSlot(|orig|, q) := Child(prev[2 * q + 1], prev[2 * q], points[q])]
  {
    BredShape(orig, n, points, q);
  }

  /** Pair q's two children, once the first m pairs (q among them) have bred, sit in the two
      slots counted from the end. */
  lemma {:induction false} BredChild(orig: seq<seq<int>>, n: nat, points: seq<(nat, nat)>, m: nat, q: nat)
    requires forall s :: 0 <= s < |orig| ==> |orig[s]| == n
    requires q < m <= |points| && 4 * |points| <= |orig|
    requires forall t :: 0 <= t < |points| ==> points[t].0 < n && points[t].1 < n
    ensures Bred(orig, n, points, m)[FirstChildSlot(|orig|, q)] == Child(orig[2 * q], orig[2 * q + 1], points[q])
    ensures Bred(orig, n, points, m)[SecondChildSlot(|orig|, q)] == Child(orig[2 * q + 1], orig[2 * q], points[q])
  {
    if q < m - 1 {
      BredChild(orig, n, points, m - 1, q);
    }
  }

  /** After the first m pairs have bred, each of those pairs' two children sits in its two
      slots counted from the end. */
  lemma BredChildren(orig: seq<seq<int>>, n: nat, points: seq<(nat, nat)>, m: nat)
    requires forall q :: 0 <= q < |orig| ==> |orig[q]| == n
    requires m <= |points| && 4 * |points| <= |orig|
    requires forall q :: 0 <= q < |points| ==> points[q].0 < n && points[q].1 < n
    ensures forall q :: 0 <= q < m ==>
      Bred(orig, n, points, m)[FirstChildSlot(|orig|, q)] == Child(orig[2 * q], orig[2 * q + 1], points[q])
      && Bred(orig, n, points, m)[SecondChildSlot(|orig|, q)] == Child(orig[2 * q + 1], orig[2 * q], points[q])
  {
    forall q | 0 <= q < m
      ensures Bred(orig, n, points, m)[FirstChildSlot(|orig|, q)] == Child(orig[2 * q], orig[2 * q + 1], points[q])
      ensures Bred(orig, n, points, m)[SecondChildSlot(|orig|, q)] == Child(orig[2 * q + 1], orig[2 * q], points[q])
    {
      BredChild(orig, n, points, m, q);
    }
  }

  /** One pass of the pairing loop, for i = 2q: the cut points are put in order, then parents
      i and i + 1 write their children, by a copy and a slice assignment each, into slots
      size - 1 - i and size - 2 - i. */
  method BreedPair(pop: array<seq<int>>, n: nat, q: nat, points: (nat, nat))
    requires 4 * q + 3 < pop.Length && points.0 < n && points.1 < n
    requires |pop[2 * q]| == |pop[2 * q + 1]| == n
    modifies pop
    ensures pop[..] == old(pop[..])
      [FirstChildSlot(pop.Length, q) := Child(old(pop[2 * q]), old(pop[2 * q + 1]), points)]
      [SecondChildSlot(pop.Length, q) := Child(old(pop[2 * q + 1]), old(pop[2 * q]), points)]
  {
    var size := pop.Length;
    var point1, point2 := points.0, points.1;
    if point1 > point2 {
      point1, point2 := point2, point1;
    }
    var i := 2 * q;
    pop[size - 1 - i] := pop[i];
    pop[size - 1 - i] := pop[size - 1 - i][..point1] + pop[i + 1][point1..point2 + 1] + pop[size - 1 - i][point2 + 1..];
    pop[size - 2 - i] := pop[i + 1];
    pop[size - 2 - i] := pop[size - 2 - i][..point1] + pop[i][point1..point2 + 1] + pop[size - 2 - i][point2 + 1..];
  }

  /** The pairing loop: parents 2q and 2q + 1 produce the children in the two slots counted
      from the end. */
  method Breed(pop: array<seq<int>>, n: nat, points: seq<(nat, nat)>)
    requires forall q :: 0 <= q < pop.Length ==> |pop[q]| == n
    requires HalfPop(pop.Length) % 2 == 0 && |points| == HalfPop(pop.Length) / 2
    requires forall q :: 0 <= q < |points| ==> points[q].0 < n && points[q].1 < n
    modifies pop
    ensures pop[..] == Bred(old(pop[..]), n, points, |points|)
    ensures forall s :: 0 <= s < pop.Length ==> |pop[s]| == n
  {
    ghost var orig := pop[..];
    assert 4 * |points| <= pop.Length;
    assert forall s :: 0 <= s < |orig| ==> |orig[s]| == n;
    for q := 0 to |points|
      invariant pop[..] == Bred(orig, n, points, q)
    {
      BredNext(orig, n, points, q);
      BreedPair(pop, n, q, points[q]);
    }
    BredShape(orig, n, points, |points|);
  }

  /** The re-seeding loop: slots 8 up to half the population start again from a fresh sample. */
  method ReseedParents(pop: array<seq<int>>, n: nat, k: nat, reseeds: seq<seq<nat>>)
    requires forall q :: 0 <= q < pop.Length ==> |pop[q]| == n
    requires |reseeds| == ReseedCount(HalfPop(pop.Length))
    requires forall r :: 0 <= r < |reseeds| ==> IsSample(reseeds[r], n, k)
    modifies pop
    ensures forall s :: 8 <= s < HalfPop(pop.Length) ==> pop[s] == SetOnes(Zeros(n), reseeds[s - 8])
    ensures forall s :: 0 <= s < pop.Length && !(8 <= s < HalfPop(pop.Length)) ==> pop[s] == old(pop[s])
  {
    var half := HalfPop(pop.Length);
    var i := 8;
    while i < half
      invariant 8 <= i <= if half > 8 then half else 8
      invariant forall s :: 8 <= s < i ==> pop[s] == SetOnes(Zeros(n), reseeds[s - 8])
      invariant forall s :: 0 <= s < pop.Length && !(8 <= s < i) ==> pop[s] == old(pop[s])
    {
      ghost var start := pop[..];
      pop[i] := Reseed(pop[i], reseeds[i - 8]);
      assert forall s :: 0 <= s < pop.Length && s != i ==> pop[s] == start[s];
      i := i + 1;
    }
  }

  /** The population crossover leaves: the bred population with slots 8 up to half the
      population re-seeded. */
  ghost function Crossed(pop: seq<seq<int>>, n: nat, k: nat, points: seq<(nat, nat)>, reseeds: seq<seq<nat>>)
    : (r: seq<seq<int>>)
    requires CrossoverInputs(pop, n, k, points, reseeds)
    ensures |r| == |pop| && forall s :: 0 <= s < |pop| ==> |r[s]| == n
  {
    BredShape(pop, n, points, |points|);
    assert forall r :: 0 <= r < |reseeds| ==> |SetOnes(Zeros(n), reseeds[r])| == n;
    var bred := Bred(pop, n, points, |points|);
    seq(|pop|, s requires 0 <= s < |pop| =>
      if 8 <= s < HalfPop(|pop|) then SetOnes(Zeros(n), reseeds[s - 8]) else bred[s])
  }

  /** The segment law at the population level: each pair's two children sit in the two slots
      counted from the end, which lie in the worst half and so are not re-seeded. */
  lemma CrossedChildren(pop: seq<seq<int>>, n: nat, k: nat, points: seq<(nat, nat)>, reseeds: seq<seq<nat>>)
    requires CrossoverInputs(pop, n, k, points, reseeds)
    ensures forall q :: 0 <= q < |points| ==>
      Crossed(pop, n, k, points, reseeds)[FirstChildSlot(|pop|, q)] == Child(pop[2 * q], pop[2 * q + 1], points[q])
      && Crossed(pop, n, k, points, reseeds)[SecondChildSlot(|pop|, q)] == Child(pop[2 * q + 1], pop[2 * q], points[q])
  {
    BredChildren(pop, n, points, |points|);
  }

  /** Elitism: ranks 0 to 7 (all of the best half, in a population under 16) come through
      crossover unchanged, and so does the middle slot an odd population leaves between the
      halves. */
  lemma CrossedKeepsElite(pop: seq<seq<int>>, n: nat, k: nat, points: seq<(nat, nat)>, reseeds: seq<seq<nat>>)
    requires CrossoverInputs(pop, n, k, points, reseeds)
    ensures var r := Crossed(pop, n, k, points, reseeds);
      (forall s :: 0 <= s < 8 && s < HalfPop(|pop|) ==> r[s] == pop[s])
      && (forall s :: HalfPop(|pop|) <= s < |pop| - HalfPop(|pop|) ==> r[s] == pop[s])
  {
    BredShape(pop, n, points, |points|);
  }

  /** Ranks 8 up to half the population hold chromosomes with exactly k centers, at the
      sampled positions. */
  lemma CrossedReseeds(pop: seq<seq<int>>, n: nat, k: nat, points: seq<(nat, nat)>, reseeds: seq<seq<nat>>)
    requires CrossoverInputs(pop, n, k, points, reseeds)
    ensures var r := Crossed(pop, n, k, points, reseeds);
      forall s :: 8 <= s < HalfPop(|pop|) ==>
        |r[s]| == n && Binary(r[s]) && CountOnes(r[s]) == k && Consistent(r[s], reseeds[s - 8])
  {
    forall r | 0 <= r < |reseeds|
      ensures |SetOnes(Zeros(n), reseeds[r])| == n && Binary(SetOnes(Zeros(n), reseeds[r]))
      ensures CountOnes(SetOnes(Zeros(n), reseeds[r])) == k && Consistent(SetOnes(Zeros(n), reseeds[r]), reseeds[r])
    {
      SeededChromosome(n, k, reseeds[r]);
    }
  }

  /** Breeding keeps a binary population binary. */
  lemma {:induction false} BredBinary(orig: seq<seq<int>>, n: nat, points: seq<(nat, nat)>, m: nat)
    requires forall q :: 0 <= q < |orig| ==> |orig[q]| == n && Binary(orig[q])
    requires m <= |points| && 4 * |points| <= |orig|
    requires forall q :: 0 <= q < |points| ==> points[q].0 < n && points[q].1 < n
    ensures forall s :: 0 <= s < |orig| ==> Binary(Bred(orig, n, points, m)[s])
  {
    if m > 0 {
      BredBinary(orig, n, points, m - 1);
      var (lo, hi) := Ordered(points[m - 1]);
      OffspringKeepOnes(orig[2 * (m - 1)], orig[2 * (m - 1) + 1], lo, hi);
    }
  }

  /** Crossover keeps every chromosome the length of the node list, and a binary population
      binary. */
  lemma CrossedBinary(pop: seq<seq<int>>, n: nat, k: nat, points: seq<(nat, nat)>, reseeds: seq<seq<nat>>)
    requires CrossoverInputs(pop, n, k, points, reseeds)
    ensures forall s :: 0 <= s < |pop| ==> |Crossed(pop, n, k, points, reseeds)[s]| == n
    ensures (forall s :: 0 <= s < |pop| ==> Binary(pop[s])) ==>
      forall s :: 0 <= s < |pop| ==> Binary(Crossed(pop, n, k, points, reseeds)[s])
  {
    CrossedReseeds(pop, n, k, points, reseeds);
    BredShape(pop, n, points, |points|);
    if forall s :: 0 <= s < |pop| ==> Binary(pop[s]) {
      BredBinary(pop, n, points, |points|);
    }
  }

  /** `crossover(chromosomes)`: the pairing loop, then the re-seeding loop. */
  method Crossover(pop: array<seq<int>>, n: nat, k: nat, points: seq<(nat, nat)>, reseeds: seq<seq<nat>>)
    requires CrossoverInputs(pop[..], n, k, points, reseeds)
    modifies pop
    ensures pop[..] == Crossed(old(pop[..]), n, k, points, reseeds)
  {
    Breed(pop, n, points);
    ReseedParents(pop, n, k, reseeds);
    assert pop[..] == Crossed(old(pop[..]), n, k, points, reseeds);
  }
}
