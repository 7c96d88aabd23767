/** Chromosome encoding: a list of genes over the nodes of the graph, where gene j == 1
    means that node j is a center. Genes are Python ints, so nothing here assumes 0/1
    unless it says so. */
module Genes {

  /** Every gene is 0 or 1. */
  predicate Binary(c: seq<int>) {
    forall j :: 0 <= j < |c| ==> c[j] == 0 || c[j] == 1
  }

  /** No value occurs twice. */
  predicate Distinct(s: seq<nat>) {
    forall a, b :: 0 <= a < b < |s| ==> s[a] != s[b]
  }

  /** Strictly increasing, hence duplicate-free. */
  predicate Increasing(s: seq<nat>) {
    forall a, b :: 0 <= a < b < |s| ==> s[a] < s[b]
  }

  /** What `random.sample(range(0, n), k)` can return: k distinct positions below n. */
  predicate IsSample(pos: seq<nat>, n: nat, k: nat) {
    |pos| == k && Distinct(pos) && forall x :: x in pos ==> x < n
  }

  /** `list.count(1)`: the number of genes equal to 1. */
  function CountOnes(c: seq<int>): (r: nat)
    ensures r <= |c|
  {
    if c == [] then 0 else CountOnes(c[..|c| - 1]) + (if c[|c| - 1] == 1 then 1 else 0)
  }

  /** Writing one gene changes the count by what left and what arrived at that position. */
  lemma {:induction false} CountOnesUpdate(c: seq<int>, p: nat, v: int)
    requires p < |c|
    ensures CountOnes(c[p := v]) == CountOnes(c) - (if c[p] == 1 then 1 else 0) + (if v == 1 then 1 else 0)
  {
    var n := |c|;
    if p == n - 1 {
      assert c[p := v][..n - 1] == c[..n - 1];
    } else {
      assert c[p := v][..n - 1] == c[..n - 1][p := v];
      CountOnesUpdate(c[..n - 1], p, v);
    }
  }

  /** A chromosome without a 1 counts none. */
  lemma {:induction false} CountOnesNone(c: seq<int>)
    requires forall j :: 0 <= j < |c| ==> c[j] != 1
    ensures CountOnes(c) == 0
  {
    if c != [] {
      CountOnesNone(c[..|c| - 1]);
    }
  }

  /** The positions that hold a 1, in increasing order: the center list that fitness
      builds by scanning the chromosome. */
  function OnesOf(c: seq<int>): (r: seq<nat>)
    ensures |r| == CountOnes(c)
    ensures Increasing(r)
    ensures forall t :: 0 <= t < |r| ==> r[t] < |c|
    ensures forall j :: 0 <= j < |c| ==> (c[j] == 1 <==> j in r)
  {
    if c == [] then []
    else
      var init := OnesOf(c[..|c| - 1]);
      assert forall j :: 0 <= j < |c| - 1 ==> c[..|c| - 1][j] == c[j];
      init + (if c[|c| - 1] == 1 then [|c| - 1] else [])
  }

  /** The positions that do not hold a 1 (the nodes that are not centers), in increasing order. */
  function Vacant(c: seq<int>): (r: seq<nat>)
    ensures |r| == |c| - CountOnes(c)
    ensures forall t :: 0 <= t < |r| ==> r[t] < |c|
    ensures forall j :: 0 <= j < |c| ==> (c[j] != 1 <==> j in r)
  {
    if c == [] then []
    else
      var init := Vacant(c[..|c| - 1]);
      assert forall j :: 0 <= j < |c| - 1 ==> c[..|c| - 1][j] == c[j];
      init + (if c[|c| - 1] != 1 then [|c| - 1] else [])
  }

  /** `list.pop(idx)` on a center list: the list without its element at idx. */
  function PopAt(s: seq<nat>, idx: nat): (r: seq<nat>)
    requires idx < |s|
    ensures |r| == |s| - 1
    ensures forall x :: x in r ==> x in s
    ensures Distinct(s) ==> Distinct(r) && s[idx] !in r
    ensures forall x :: x in s && x != s[idx] ==> x in r
  {
    var r := s[..idx] + s[idx + 1..];
    assert forall t :: 0 <= t < |r| ==> r[t] == if t < idx then s[t] else s[t + 1];
    assert forall t :: 0 <= t < |s| && t != idx ==> s[t] == r[if t < idx then t else t - 1];
    r
  }

  /** A chromosome and a center list agree: the list holds each position of a 1 exactly once,
      and nothing else (the state fitness keeps between `centers[i]` and `chromosomes[i]`). */
  predicate Consistent(c: seq<int>, centers: seq<nat>) {
    Distinct(centers)
    && (forall t :: 0 <= t < |centers| ==> centers[t] < |c|)
    && (forall j :: 0 <= j < |c| ==> (c[j] == 1 <==> j in centers))
    && |centers| == CountOnes(c)
  }

  /** `[0] * n`. */
  function Zeros(n: nat): (c: seq<int>)
    ensures |c| == n && forall j :: 0 <= j < n ==> c[j] == 0
  {
    seq(n, _ => 0)
  }

  /** The chromosome c after a 1 has been written at every position of pos. */
  ghost function SetOnes(c: seq<int>, pos: seq<nat>): (r: seq<int>)
    ensures |r| == |c|
  {
    seq(|c|, j requires 0 <= j < |c| => if j in pos then 1 else c[j])
  }

  /** A freshly seeded chromosome (all zeros, then a 1 at each sampled position) is binary,
      holds exactly k ones and has them exactly at the sampled positions. */
  lemma {:induction false} SeededChromosome(n: nat, k: nat, pos: seq<nat>)
    requires IsSample(pos, n, k)
    ensures |SetOnes(Zeros(n), pos)| == n
    ensures Binary(SetOnes(Zeros(n), pos))
    ensures CountOnes(SetOnes(Zeros(n), pos)) == k
    ensures Consistent(SetOnes(Zeros(n), pos), pos)
  {
    if pos != [] {
      var m := |pos| - 1;
      var init := pos[..m];
      assert pos == init + [pos[m]];
      assert pos[m] !in init && pos[m] in pos;
      assert forall x :: x in init ==> x in pos;
      SeededChromosome(n, m, init);
      var c := SetOnes(Zeros(n), init);
      assert c[pos[m]] == 0;
      assert SetOnes(Zeros(n), pos) == c[pos[m] := 1];
      CountOnesUpdate(c, pos[m], 1);
    } else {
      CountOnesNone(SetOnes(Zeros(n), pos));
    }
  }

  /** The scan at the start of fitness that lists the positions holding a 1. */
  method CollectCenters(c: seq<int>) returns (centers: seq<nat>)
    ensures centers == OnesOf(c)
  {
    centers := [];
    for j := 0 to |c|
      invariant centers == OnesOf(c[..j])
    {
      assert c[..j + 1][..j] == c[..j];
      if c[j] == 1 {
        centers := centers + [j];
      }
    }
    assert c[..|c|] == c;
  }

  /** `for j in pos: chromosome[j] = 1`. */
  method PlaceCenters(c: seq<int>, pos: seq<nat>) returns (r: seq<int>)
    requires forall x :: x in pos ==> x < |c|
    ensures r == SetOnes(c, pos)
  {
    r := c;
    for t := 0 to |pos|
      invariant r == SetOnes(c, pos[..t])
    {
      assert pos[..t + 1] == pos[..t] + [pos[t]];
      assert pos[t] in pos;
      r := r[pos[t] := 1];
    }
    assert pos[..|pos|] == pos;
  }
}
