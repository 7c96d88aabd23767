/** Ranking the population by score: `sorted(index_and_scores.items(), key=lambda kv: kv[1])`
    and the rearrangement that follows it. Python's sort is stable and the dictionary lists
    indices in increasing order, so equal scores keep their index order. */
module Ranking {
  import opened Genes

  /** Index a comes before index b: a lower score, or the same score and a lower index. */
  predicate Precedes(score: seq<nat>, a: nat, b: nat)
    requires a < |score| && b < |score|
  {
    score[a] < score[b] || (score[a] == score[b] && a < b)
  }

  /** The indices are listed in strictly increasing (score, index) order. */
  predicate Ranked(score: seq<nat>, order: seq<nat>) {
    (forall t :: 0 <= t < |order| ==> order[t] < |score|)
    && forall s, t :: 0 <= s < t < |order| ==> Precedes(score, order[s], order[t])
  }

  /** Every index below n exactly once. */
  predicate IsPermutation(order: seq<nat>, n: nat) {
    |order| == n
    && Distinct(order)
    && (forall t :: 0 <= t < |order| ==> order[t] < n)
    && (forall j :: 0 <= j < n ==> j in order)
  }

  /** Index x put into a ranked list at its place. */
  function Insert(score: seq<nat>, x: nat, order: seq<nat>): (r: seq<nat>)
    requires x < |score| && forall t :: 0 <= t < |order| ==> order[t] < |score|
    ensures |r| == |order| + 1
    ensures forall t :: 0 <= t < |r| ==> r[t] < |score|
    ensures forall y :: y in r <==> y == x || y in order
  {
    if order == [] then [x]
    else if Precedes(score, x, order[0]) then [x] + order
    else [order[0]] + Insert(score, x, order[1..])
  }

  /** Inserting an index that is not in a ranked list keeps it ranked. */
  lemma {:induction false} InsertKeepsRanked(score: seq<nat>, x: nat, order: seq<nat>)
    requires x < |score| && Ranked(score, order) && x !in order
    ensures Ranked(score, Insert(score, x, order))
  {
    if order != [] && !Precedes(score, x, order[0]) {
      assert Ranked(score, order[1..]);
      assert x !in order[1..];
      InsertKeepsRanked(score, x, order[1..]);
      var tail := Insert(score, x, order[1..]);
      forall t | 0 <= t < |tail|
        ensures Precedes(score, order[0], tail[t])
      {
        assert tail[t] in tail;
        if tail[t] != x {
          var u :| 0 <= u < |order[1..]| && order[1..][u] == tail[t];
          assert order[u + 1] == tail[t];
        }
      }
    }
  }

  /** The indices 0 .. m - 1 in ranked order. */
  function RankPrefix(score: seq<nat>, m: nat): (r: seq<nat>)
    requires m <= |score|
    ensures |r| == m && forall t :: 0 <= t < m ==> r[t] < m
    ensures forall j :: 0 <= j < m ==> j in r
  {
    if m == 0 then []
    else
      var prev := RankPrefix(score, m - 1);
      var r := Insert(score, m - 1, prev);
      assert forall t :: 0 <= t < m ==> r[t] in r;
      r
  }

  /** `sorted_indexes`: every index of the population in (score, index) order. */
  function StableOrder(score: seq<nat>): seq<nat> {
    RankPrefix(score, |score|)
  }

  /** The ranked prefix is ranked. */
  lemma {:induction false} RankPrefixRanked(score: seq<nat>, m: nat)
    requires m <= |score|
    ensures Ranked(score, RankPrefix(score, m))
  {
    if m > 0 {
      RankPrefixRanked(score, m - 1);
      var prev := RankPrefix(score, m - 1);
      assert m - 1 !in prev;
      InsertKeepsRanked(score, m - 1, prev);
    }
  }

  /** The sort lists every index once, scores never decrease along it, equal scores keep
      their original order, and it starts at a best (lowest) score. */
  lemma StableOrderSorts(score: seq<nat>)
    ensures IsPermutation(StableOrder(score), |score|)
    ensures var order := StableOrder(score);
      forall s, t :: 0 <= s < t < |order| ==>
        score[order[s]] <= score[order[t]]
        && (score[order[s]] == score[order[t]] ==> order[s] < order[t])
    ensures |score| > 0 ==> forall j :: 0 <= j < |score| ==> score[StableOrder(score)[0]] <= score[j]
  {
    var order := StableOrder(score);
    RankPrefixRanked(score, |score|);
    if |score| > 0 {
      forall j | 0 <= j < |score|
        ensures score[order[0]] <= score[j]
      {
        assert j in order;
        var t :| 0 <= t < |order| && order[t] == j;
        assert t == 0 || Precedes(score, order[0], order[t]);
      }
    }
  }

  /** The population listed in a given order of indices. */
  function Reorder(pop: seq<seq<int>>, order: seq<nat>): (r: seq<seq<int>>)
    requires forall t :: 0 <= t < |order| ==> order[t] < |pop|
    ensures |r| == |order|
  {
    seq(|order|, t requires 0 <= t < |order| => pop[order[t]])
  }

  /** Taking the largest index out of a permutation leaves a permutation of the smaller ones. */
  lemma DropLargest(order: seq<nat>, p: nat, last: nat)
    requires IsPermutation(order, last + 1) && p < |order| && order[p] == last
    ensures IsPermutation(PopAt(order, p), last)
  {
    var rest := PopAt(order, p);
    assert forall t :: 0 <= t < |rest| ==> rest[t] == if t < p then order[t] else order[t + 1];
    assert forall t :: 0 <= t < |rest| ==> rest[t] != last;
  }

  /** Listing by a permutation puts the last chromosome where the largest index sits, and the
      others in the order of the remaining indices. */
  lemma ReorderSplit(pop: seq<seq<int>>, order: seq<nat>, p: nat)
    requires |pop| > 0 && IsPermutation(order, |pop|) && p < |order| && order[p] == |pop| - 1
    requires IsPermutation(PopAt(order, p), |pop| - 1)
    ensures var shorter := Reorder(pop[..|pop| - 1], PopAt(order, p));
      Reorder(pop, order) == shorter[..p] + [pop[|pop| - 1]] + shorter[p..]
  {
    var rest := PopAt(order, p);
    assert forall t :: 0 <= t < |rest| ==> rest[t] == if t < p then order[t] else order[t + 1];
  }

  /** Listing a population in the order of a permutation of its indices gives back the same
      chromosomes, each as often as before. */
  lemma {:induction false} ReorderPermutes(pop: seq<seq<int>>, order: seq<nat>)
    requires IsPermutation(order, |pop|)
    ensures multiset(Reorder(pop, order)) == multiset(pop)
    decreases |pop|
  {
    if |pop| > 0 {
      var last := |pop| - 1;
      assert last in order;
      var p :| 0 <= p < |order| && order[p] == last;
      var rest := PopAt(order, p);
      DropLargest(order, p, last);
      ReorderPermutes(pop[..last], rest);
      ReorderSplit(pop, order, p);
      MultisetInsert(Reorder(pop[..last], rest), p, pop[last]);
      assert pop == pop[..last] + [pop[last]];
    }
  }

  /** Putting one more element anywhere into a list adds it once to the list's multiset. */
  lemma MultisetInsert(s: seq<seq<int>>, p: nat, v: seq<int>)
    requires p <= |s|
    ensures multiset(s[..p] + [v] + s[p..]) == multiset(s) + multiset{v}
  {
    assert s == s[..p] + s[p..];
  }

  /** `chromosomes = [index_and_chromosomes[i] for i in sorted_indexes]`: a new list holding
      the chromosomes in ranked order. */
  method Rearrange(pop: array<seq<int>>, order: seq<nat>) returns (ranked: array<seq<int>>)
    requires forall t :: 0 <= t < |order| ==> order[t] < pop.Length
    ensures fresh(ranked)
    ensures ranked[..] == Reorder(pop[..], order)
  {
    ranked := new seq<int>[|order|];
    for t := 0 to |order|
      invariant forall u :: 0 <= u < t ==> ranked[u] == pop[order[u]]
    {
      ranked[t] := pop[order[t]];
    }
  }
}
