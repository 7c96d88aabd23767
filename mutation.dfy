/** The mutation step (`mutation`): each event flips one gene of one chromosome. */
module Mutation {
  import opened Genes

  /** Every event names a chromosome of the population (`randint(0, population - 1)`) and a
      node (`randint(0, total_nodes - 1)`). */
  predicate EventsFit(events: seq<(nat, nat)>, size: nat, n: nat) {
    forall e :: 0 <= e < |events| ==> events[e].0 < size && events[e].1 < n
  }

  /** Every chromosome spans the n nodes. */
  predicate Spans(pop: seq<seq<int>>, n: nat) {
    forall q :: 0 <= q < |pop| ==> |pop[q]| == n
  }

  /** `chromosomes[xx][yy] = 1 - chromosomes[xx][yy]`: that gene is flipped and no other gene
      changes. */
  function Flip(pop: seq<seq<int>>, x: nat, y: nat): (r: seq<seq<int>>)
    requires x < |pop| && y < |pop[x]|
    ensures |r| == |pop| && forall q :: 0 <= q < |pop| ==> |r[q]| == |pop[q]|
    ensures r[x][y] == 1 - pop[x][y]
    ensures forall q, j :: 0 <= q < |pop| && 0 <= j < |pop[q]| && (q != x || j != y) ==> r[q][j] == pop[q][j]
  {
    pop[x := pop[x][y := 1 - pop[x][y]]]
  }

  /** The population after the events, applied in order. */
  ghost function Mutated(pop: seq<seq<int>>, n: nat, events: seq<(nat, nat)>): (r: seq<seq<int>>)
    requires Spans(pop, n) && EventsFit(events, |pop|, n)
    ensures |r| == |pop| && Spans(r, n)
  {
    if events == [] then pop
    else
      var m := |events| - 1;
      Flip(Mutated(pop, n, events[..m]), events[m].0, events[m].1)
  }

  /** How many of the events hit gene y of chromosome x. */
  function Hits(events: seq<(nat, nat)>, x: nat, y: nat): (h: nat)
    ensures h <= |events|
    ensures h == 0 <==> forall e :: 0 <= e < |events| ==> events[e] != (x, y)
  {
    if events == [] then 0
    else
      var m := |events| - 1;
      assert forall e :: 0 <= e < m ==> events[..m][e] == events[e];
      Hits(events[..m], x, y) + (if events[m] == (x, y) then 1 else 0)
  }

  /** A gene ends up flipped exactly when an odd number of events hit it; a gene no event hits
      keeps its value. */
  lemma {:induction false} MutationParity(pop: seq<seq<int>>, n: nat, events: seq<(nat, nat)>, x: nat, y: nat)
    requires Spans(pop, n) && EventsFit(events, |pop|, n)
    requires x < |pop| && y < n
    ensures Mutated(pop, n, events)[x][y] == if Hits(events, x, y) % 2 == 0 then pop[x][y] else 1 - pop[x][y]
  {
    if events != [] {
      var m := |events| - 1;
      assert EventsFit(events[..m], |pop|, n);
      MutationParity(pop, n, events[..m], x, y);
    }
  }

  /** Flipping 0/1 genes leaves them 0/1. */
  lemma {:induction false} MutationKeepsBinary(pop: seq<seq<int>>, n: nat, events: seq<(nat, nat)>)
    requires Spans(pop, n) && EventsFit(events, |pop|, n)
    requires forall q :: 0 <= q < |pop| ==> Binary(pop[q])
    ensures forall q :: 0 <= q < |pop| ==> Binary(Mutated(pop, n, events)[q])
  {
    if events != [] {
      var m := |events| - 1;
      assert EventsFit(events[..m], |pop|, n);
      MutationKeepsBinary(pop, n, events[..m]);
    }
  }

  /** `mutation(chromosomes)`: one flip per event. */
  method Mutation(pop: array<seq<int>>, n: nat, events: seq<(nat, nat)>)
    requires Spans(pop[..], n) && EventsFit(events, pop.Length, n)
    modifies pop
    ensures pop[..] == Mutated(old(pop[..]), n, events)
  {
    ghost var orig := pop[..];
    for e := 0 to |events|
      invariant EventsFit(events[..e], |orig|, n)
      invariant pop[..] == Mutated(orig, n, events[..e])
    {
      assert events[..e + 1][..e] == events[..e];
      var xx, yy := events[e].0, events[e].1;
      pop[xx] := pop[xx][yy := 1 - pop[xx][yy]];
    }
    assert events[..|events|] == events;
  }
}
