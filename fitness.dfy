/** The fitness step (`fitness`): bring every chromosome back to exactly k centers, keeping
    the center list in step with it, then score it with the objective. */
module Fitness {
  import opened Genes
  import opened Objective

  /** How many repair steps separate a count of ones from k. */
  function Gap(count: nat, k: nat): nat {
    if count > k then count - k else k - count
  }

  /** Every gene that changed went from 1 to 0. */
  predicate OnlyCleared(before: seq<int>, after: seq<int>) {
    |after| == |before|
    && forall j :: 0 <= j < |before| && after[j] != before[j] ==> before[j] == 1 && after[j] == 0
  }

  /** Every gene that changed went from something other than 1 to 1. */
  predicate OnlySet(before: seq<int>, after: seq<int>) {
    |after| == |before|
    && forall j :: 0 <= j < |before| && after[j] != before[j] ==> before[j] != 1 && after[j] == 1
  }

  /** One pass of the repair loop. With too many centers, the draw picks an index into the
      center list (`randint(0, count - 1)`), that center is popped and its gene cleared. With
      too few, the draw picks one of the nodes that are not centers, which is appended and
      its gene set. */
  function RepairStep(row: seq<int>, centers: seq<nat>, k: nat, draw: nat): (r: (seq<int>, seq<nat>))
    requires Consistent(row, centers) && k <= |row| && |centers| != k
    ensures Consistent(r.0, r.1) && |r.0| == |row|
    ensures |centers| > k ==> |r.1| == |centers| - 1 && OnlyCleared(row, r.0)
    ensures |centers| < k ==> |r.1| == |centers| + 1 && OnlySet(row, r.0)
  {
    if |centers| > k then
      var idx := draw % |centers|;
      var pos := centers[idx];
      var rest := PopAt(centers, idx);
      assert pos in centers;
      CountOnesUpdate(row, pos, 0);
      (row[pos := 0], rest)
    else
      var free := Vacant(row);
      var pos := free[draw % |free|];
      assert pos in free;
      CountOnesUpdate(row, pos, 1);
      assert forall a :: 0 <= a < |centers| ==> centers[a] in centers;
      (row[pos := 1], centers + [pos])
  }

  /** The repair loop run to completion on the draws ds: repair steps until the center list
      holds k entries. */
  function Repaired(row: seq<int>, centers: seq<nat>, k: nat, ds: seq<nat>): (seq<int>, seq<nat>)
    requires Consistent(row, centers) && k <= |row| && |ds| >= Gap(|centers|, k)
    decreases Gap(|centers|, k)
  {
    if |centers| == k then (row, centers)
    else
      var step := RepairStep(row, centers, k, ds[0]);
      Repaired(step.0, step.1, k, ds[1..])
  }

  /** When the repair loop exits, the chromosome holds exactly k ones, the center list lists
      each of them once and nothing else, and every gene that changed moved in the one
      direction the initial count called for: 1 to 0 when there were too many centers, to 1
      when there were too few. */
  lemma {:induction false} RepairRestoresK(row: seq<int>, centers: seq<nat>, k: nat, ds: seq<nat>)
    requires Consistent(row, centers) && k <= |row| && |ds| >= Gap(|centers|, k)
    ensures var r := Repaired(row, centers, k, ds);
      Consistent(r.0, r.1) && |r.0| == |row| && |r.1| == k && CountOnes(r.0) == k
    ensures |centers| > k ==> OnlyCleared(row, Repaired(row, centers, k, ds).0)
    ensures |centers| <= k ==> OnlySet(row, Repaired(row, centers, k, ds).0)
    decreases Gap(|centers|, k)
  {
    if |centers| != k {
      var step := RepairStep(row, centers, k, ds[0]);
      RepairRestoresK(step.0, step.1, k, ds[1..]);
    }
  }

  /** Repair writes only 0s and 1s, so a binary chromosome stays binary. */
  lemma RepairKeepsBinary(row: seq<int>, k: nat, ds: seq<nat>)
    requires k <= |row| && |ds| >= |row| && Binary(row)
    ensures Binary(RepairedRow(row, k, ds))
  {
    RepairRestoresK(row, OnesOf(row), k, ds);
  }

  /** The chromosome fitness leaves behind when it starts from the chromosome's own center
      list; one that already holds k centers is left as it is. */
  ghost function RepairedRow(row: seq<int>, k: nat, ds: seq<nat>): (r: seq<int>)
    requires k <= |row| && |ds| >= |row|
    ensures |r| == |row| && CountOnes(r) == k
    ensures CountOnes(row) == k ==> r == row
  {
    RepairRestoresK(row, OnesOf(row), k, ds);
    Repaired(row, OnesOf(row), k, ds).0
  }

  /** The center list fitness scores for that chromosome: for one that already holds k
      centers, its own ones. */
  ghost function RepairedCenters(row: seq<int>, k: nat, ds: seq<nat>): (cs: seq<nat>)
    requires k <= |row| && |ds| >= |row|
    ensures |cs| == k && forall t :: 0 <= t < k ==> cs[t] < |row|
    ensures CountOnes(row) == k ==> cs == OnesOf(row)
  {
    RepairRestoresK(row, OnesOf(row), k, ds);
    Repaired(row, OnesOf(row), k, ds).1
  }

  /** The score fitness records for a chromosome: the objective of its repaired center list. */
  ghost function Evaluated(dist: seq<seq<nat>>, k: nat, row: seq<int>, ds: seq<nat>): nat
    requires IsDistanceMatrix(dist) && |dist| > 0 && k <= |row| == |dist| && |ds| >= |row|
  {
    Score(dist, k, RepairedCenters(row, k, ds))
  }

  /** Scoring a repaired chromosome again gives the score it was given: repair leaves it alone,
      and its ones are the centers it was scored with, in increasing order. */
  lemma RescoreRepaired(dist: seq<seq<nat>>, k: nat, row: seq<int>, ds: seq<nat>, ds2: seq<nat>)
    requires IsDistanceMatrix(dist) && |dist| > 0 && k <= |row| == |dist| && |ds| >= |row| && |ds2| >= |row|
    ensures Evaluated(dist, k, RepairedRow(row, k, ds), ds2) == Evaluated(dist, k, row, ds)
  {
    RepairRestoresK(row, OnesOf(row), k, ds);
    var r := RepairedRow(row, k, ds);
    ScoreDependsOnCenterSet(dist, k, OnesOf(r), RepairedCenters(row, k, ds));
  }

  /** One pass of the body of the repair loop, on the working copies of the chromosome and
      its center list. */
  method RepairOnce(row: seq<int>, centers: seq<nat>, k: nat, draw: nat)
    returns (fixed: seq<int>, fixedCenters: seq<nat>)
    requires Consistent(row, centers) && k <= |row| && |centers| != k
    ensures (fixed, fixedCenters) == RepairStep(row, centers, k, draw)
  {
    if |centers| > k {
      var idx := draw % |centers|;
      var pos := centers[idx];
      fixedCenters := centers[..idx] + centers[idx + 1..];
      fixed := row[pos := 0];
    } else {
      var free := Vacant(row);
      var pos := free[draw % |free|];
      fixedCenters := centers + [pos];
      fixed := row[pos := 1];
    }
  }

  /** The repair loop of fitness for one chromosome: `while current_number_centers[i] != k`,
      recounting the ones after every pass. */
  method RepairChromosome(row: seq<int>, centers: seq<nat>, k: nat, ds: seq<nat>)
    returns (fixed: seq<int>, fixedCenters: seq<nat>)
    requires Consistent(row, centers) && k <= |row| && |ds| >= Gap(|centers|, k)
    ensures (fixed, fixedCenters) == Repaired(row, centers, k, ds)
    ensures Consistent(fixed, fixedCenters) && |fixed| == |row| && |fixedCenters| == k
  {
    RepairRestoresK(row, centers, k, ds);
    fixed, fixedCenters := row, centers;
    var count := CountOnes(fixed);
    var t := 0;
    while count != k
      invariant Consistent(fixed, fixedCenters) && count == |fixedCenters| && |fixed| == |row|
      invariant t <= |ds| && |ds| - t >= Gap(count, k)
      invariant Repaired(fixed, fixedCenters, k, ds[t..]) == Repaired(row, centers, k, ds)
      decreases Gap(count, k)
    {
      assert ds[t..][1..] == ds[t + 1..];
      fixed, fixedCenters := RepairOnce(fixed, fixedCenters, k, ds[t]);
      count := CountOnes(fixed);
      t := t + 1;
    }
  }

  /** One round of the second loop of fitness: repair the chromosome, then score the
      repaired center list with the objective. */
  method RepairAndScore(row: seq<int>, centers: seq<nat>, dist: seq<seq<nat>>, k: nat, ds: seq<nat>)
    returns (fixed: seq<int>, fixedCenters: seq<nat>, score: nat)
    requires IsDistanceMatrix(dist) && |dist| > 0 && k <= |row| == |dist| && |ds| >= |row|
    requires centers == OnesOf(row)
    ensures fixed == RepairedRow(row, k, ds) && fixedCenters == RepairedCenters(row, k, ds)
    ensures score == Score(dist, k, fixedCenters) == Evaluated(dist, k, row, ds)
  {
    fixed, fixedCenters := RepairChromosome(row, centers, k, ds);
    score := ObjectiveValue(dist, k, fixedCenters);
  }

  /** The first loop of fitness: the center list of every chromosome. */
  method ListCenters(pop: array<seq<int>>) returns (centers: array<seq<nat>>)
    ensures fresh(centers) && centers.Length == pop.Length
    ensures forall q :: 0 <= q < pop.Length ==> centers[q] == OnesOf(pop[q])
  {
    centers := new seq<nat>[pop.Length];
    for p := 0 to pop.Length
      invariant forall q :: 0 <= q < p ==> centers[q] == OnesOf(pop[q])
    {
      centers[p] := CollectCenters(pop[p]);
    }
  }

  /** Repairs chromosome i of the population in place and returns its score. */
  method RepairSlot(pop: array<seq<int>>, i: nat, centers: seq<nat>, dist: seq<seq<nat>>, k: nat, ds: seq<nat>)
    returns (score: nat)
    requires i < pop.Length && IsDistanceMatrix(dist) && |dist| > 0
    requires k <= |pop[i]| == |dist| && |ds| >= |dist| && centers == OnesOf(pop[i])
    modifies pop
    ensures pop[i] == RepairedRow(old(pop[i]), k, ds) && score == Evaluated(dist, k, old(pop[i]), ds)
    ensures forall q :: 0 <= q < pop.Length && q != i ==> pop[q] == old(pop[q])
  {
    var row, cs;
    row, cs, score := RepairAndScore(pop[i], centers, dist, k, ds);
    pop[i] := row;
  }

  /** `fitness(Graph, chromosomes)`: lists the centers of every chromosome, then repairs each
      chromosome in place and scores it; returns the scores. */
  method Fitness(pop: array<seq<int>>, dist: seq<seq<nat>>, k: nat, draws: seq<seq<nat>>)
    returns (score: seq<nat>)
    requires IsDistanceMatrix(dist) && |dist| > 0 && k <= |dist|
    requires forall p :: 0 <= p < pop.Length ==> |pop[p]| == |dist|
    requires |draws| == pop.Length && forall p :: 0 <= p < pop.Length ==> |draws[p]| >= |dist|
    modifies pop
    ensures |score| == pop.Length
    ensures forall p :: 0 <= p < pop.Length ==>
      pop[p] == RepairedRow(old(pop[p]), k, draws[p])
      && score[p] == Evaluated(dist, k, old(pop[p]), draws[p])
    ensures forall p :: 0 <= p < pop.Length ==> |pop[p]| == |dist| && CountOnes(pop[p]) == k
  {
    var centers := ListCenters(pop);
    score := [];
    for i := 0 to pop.Length
      modifies pop
      invariant |score| == i
      invariant forall q :: i <= q < pop.Length ==> pop[q] == old(pop[q])
      invariant forall q :: 0 <= q < i ==> pop[q] == RepairedRow(old(pop[q]), k, draws[q])
      invariant forall q :: 0 <= q < i ==> score[q] == Evaluated(dist, k, old(pop[q]), draws[q])
    {
      var s := RepairSlot(pop, i, centers[i], dist, k, draws[i]);
      score := score + [s];
    }
  }
}
