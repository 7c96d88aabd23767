/** The first population (`initialize_chromosomes`). */
module Init {
  import opened Genes

  /** Builds `population` chromosomes of n zeros each, then writes a 1 at every position of
      the sample drawn for that chromosome. */
  method InitializeChromosomes(n: nat, population: nat, k: nat, samples: seq<seq<nat>>)
    returns (pop: array<seq<int>>)
    requires |samples| == population
    requires forall i :: 0 <= i < population ==> IsSample(samples[i], n, k)
    ensures fresh(pop) && pop.Length == population
    ensures forall i :: 0 <= i < population ==> pop[i] == SetOnes(Zeros(n), samples[i])
    ensures forall i :: 0 <= i < population ==>
      |pop[i]| == n && Binary(pop[i]) && CountOnes(pop[i]) == k && Consistent(pop[i], samples[i])
  {
    pop := new seq<int>[population](_ => Zeros(n));
    for i := 0 to population
      invariant forall q :: 0 <= q < i ==> pop[q] == SetOnes(Zeros(n), samples[q])
      invariant forall q :: i <= q < population ==> pop[q] == Zeros(n)
    {
      pop[i] := PlaceCenters(pop[i], samples[i]);
    }
    forall i | 0 <= i < population
      ensures |pop[i]| == n && Binary(pop[i]) && CountOnes(pop[i]) == k && Consistent(pop[i], samples[i])
    {
      SeededChromosome(n, k, samples[i]);
    }
  }
}
