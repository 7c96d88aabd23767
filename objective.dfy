/** The k-center objective of one center list (`k_centers_objective_value`). The graph is a
    distance matrix: dist[i][j] is the weight of the edge between nodes i and j. */
module Objective {

  /** The initial value of `minimum`: distances at or above it are never recorded. */
  const Sentinel: nat := 100000

  /** An N x N matrix. */
  predicate IsDistanceMatrix(dist: seq<seq<nat>>) {
    forall i :: 0 <= i < |dist| ==> |dist[i]| == |dist|
  }

  /** The first k entries of the center list are nodes of the graph. */
  predicate CentersInGraph(dist: seq<seq<nat>>, k: nat, centers: seq<nat>) {
    k <= |centers| && forall t :: 0 <= t < k ==> centers[t] < |dist|
  }

  /** Python's `max` of a non-empty list. */
  function MaxOf(s: seq<nat>): (r: nat)
    requires |s| > 0
    ensures r in s && forall x :: x in s ==> x <= r
  {
    if |s| == 1 then s[0]
    else
      var m := MaxOf(s[1..]);
      assert s == [s[0]] + s[1..];
      if s[0] > m then s[0] else m
  }

  /** The least element of a non-empty list. */
  function MinOf(s: seq<nat>): (r: nat)
    requires |s| > 0
    ensures r in s && forall x :: x in s ==> r <= x
  {
    if |s| == 1 then s[0]
    else
      var m := MinOf(s[1..]);
      assert s == [s[0]] + s[1..];
      if s[0] < m then s[0] else m
  }

  /** The value `minimum` holds after scanning ds: the sentinel, lowered by every strictly
      smaller distance. */
  function RunningMin(ds: seq<nat>): (m: nat)
    ensures m <= Sentinel
    ensures forall x :: x in ds ==> m <= x
    ensures m == Sentinel || m in ds
  {
    if ds == [] then Sentinel
    else
      var m := RunningMin(ds[..|ds| - 1]);
      assert ds == ds[..|ds| - 1] + [ds[|ds| - 1]];
      if ds[|ds| - 1] < m then ds[|ds| - 1] else m
  }

  /** The distances from node i to the first k centers, in list order. */
  function CenterDistances(dist: seq<seq<nat>>, i: nat, centers: seq<nat>): (ds: seq<nat>)
    requires IsDistanceMatrix(dist) && i < |dist|
    requires forall t :: 0 <= t < |centers| ==> centers[t] < |dist|
    ensures |ds| == |centers| && forall t :: 0 <= t < |centers| ==> ds[t] == dist[i][centers[t]]
  {
    seq(|centers|, t requires 0 <= t < |centers| => dist[i][centers[t]])
  }

  /** `closest_center_distance[i]` once the loop over nodes is done: 0 for a center, otherwise
      the smallest distance to one of the first k centers when that is below the sentinel,
      and 0 (the initial value) when no distance is. */
  function Nearest(dist: seq<seq<nat>>, k: nat, centers: seq<nat>, i: nat): (d: nat)
    requires IsDistanceMatrix(dist) && i < |dist| && CentersInGraph(dist, k, centers)
    ensures i in centers ==> d == 0
    ensures d < Sentinel
    ensures i !in centers ==>
      forall t :: 0 <= t < k && dist[i][centers[t]] < Sentinel ==> d <= dist[i][centers[t]]
    ensures d == 0 || exists t :: 0 <= t < k && d == dist[i][centers[t]]
    ensures i !in centers && (exists t :: 0 <= t < k && dist[i][centers[t]] < Sentinel) ==>
      exists t :: 0 <= t < k && d == dist[i][centers[t]]
    ensures (forall t :: 0 <= t < k ==> dist[i][centers[t]] >= Sentinel) ==> d == 0
  {
    if i in centers then 0
    else
      var ds := CenterDistances(dist, i, centers[..k]);
      var m := RunningMin(ds);
      assert forall t :: 0 <= t < k ==> ds[t] in ds;
      if m < Sentinel then m else 0
  }

  /** `closest_center_distance` as a whole. */
  ghost function NearestAll(dist: seq<seq<nat>>, k: nat, centers: seq<nat>): (ds: seq<nat>)
    requires IsDistanceMatrix(dist) && CentersInGraph(dist, k, centers)
    ensures |ds| == |dist|
    ensures forall i :: 0 <= i < |dist| ==> ds[i] == Nearest(dist, k, centers, i)
  {
    seq(|dist|, i requires 0 <= i < |dist| => Nearest(dist, k, centers, i))
  }

  /** The score of a center list: the largest nearest-center distance over all nodes. */
  ghost function Score(dist: seq<seq<nat>>, k: nat, centers: seq<nat>): nat
    requires IsDistanceMatrix(dist) && |dist| > 0 && CentersInGraph(dist, k, centers)
  {
    MaxOf(NearestAll(dist, k, centers))
  }

  /** The score is reached by some node, bounds every node's recorded distance, and stays
      below the sentinel. */
  lemma ScoreIsWorstNode(dist: seq<seq<nat>>, k: nat, centers: seq<nat>)
    requires IsDistanceMatrix(dist) && |dist| > 0 && CentersInGraph(dist, k, centers)
    ensures forall i :: 0 <= i < |dist| ==> Nearest(dist, k, centers, i) <= Score(dist, k, centers)
    ensures exists i :: 0 <= i < |dist| && Score(dist, k, centers) == Nearest(dist, k, centers, i)
    ensures Score(dist, k, centers) < Sentinel
  {
    var ds := NearestAll(dist, k, centers);
    var s := MaxOf(ds);
    assert forall i :: 0 <= i < |ds| ==> ds[i] in ds;
    assert exists i :: 0 <= i < |ds| && ds[i] == s;
  }

  /** A node's nearest-center value depends only on which nodes are centers: two lists of k
      centers holding the same nodes, in any order, give it the same value. */
  lemma NearestDependsOnCenterSet(dist: seq<seq<nat>>, k: nat, c1: seq<nat>, c2: seq<nat>, i: nat)
    requires IsDistanceMatrix(dist) && i < |dist|
    requires |c1| == |c2| == k && CentersInGraph(dist, k, c1) && CentersInGraph(dist, k, c2)
    requires forall x :: x in c1 <==> x in c2
    ensures Nearest(dist, k, c1, i) == Nearest(dist, k, c2, i)
  {
    if i !in c1 {
      var a := Nearest(dist, k, c1, i);
      var b := Nearest(dist, k, c2, i);
      if t :| 0 <= t < k && dist[i][c1[t]] < Sentinel {
        assert c1[t] in c2;
        var u :| 0 <= u < k && c2[u] == c1[t];
        var ta :| 0 <= ta < k && a == dist[i][c1[ta]];
        var ub :| 0 <= ub < k && b == dist[i][c2[ub]];
        assert c1[ta] in c2;
        var ua :| 0 <= ua < k && c2[ua] == c1[ta];
        assert b <= a;
        assert c2[ub] in c1;
        var tb :| 0 <= tb < k && c1[tb] == c2[ub];
        assert a <= b;
      } else {
        forall u | 0 <= u < k
          ensures dist[i][c2[u]] >= Sentinel
        {
          assert c2[u] in c1;
          var t :| 0 <= t < k && c1[t] == c2[u];
        }
      }
    }
  }

  /** The score depends only on which nodes are centers: two lists of k centers holding the
      same nodes, in any order, score the same. */
  lemma ScoreDependsOnCenterSet(dist: seq<seq<nat>>, k: nat, c1: seq<nat>, c2: seq<nat>)
    requires IsDistanceMatrix(dist) && |dist| > 0
    requires |c1| == |c2| == k && CentersInGraph(dist, k, c1) && CentersInGraph(dist, k, c2)
    requires forall x :: x in c1 <==> x in c2
    ensures Score(dist, k, c1) == Score(dist, k, c2)
  {
    forall i | 0 <= i < |dist|
      ensures Nearest(dist, k, c1, i) == Nearest(dist, k, c2, i)
    {
      NearestDependsOnCenterSet(dist, k, c1, c2, i);
    }
    assert NearestAll(dist, k, c1) == NearestAll(dist, k, c2);
  }

  /** The k-center cost of a center list, independent of the code: the largest, over all
      nodes, of the distance to the closest center. */
  ghost function KCenterCost(dist: seq<seq<nat>>, centers: seq<nat>): nat
    requires IsDistanceMatrix(dist) && |dist| > 0 && |centers| > 0
    requires forall t :: 0 <= t < |centers| ==> centers[t] < |dist|
  {
    MaxOf(seq(|dist|, i requires 0 <= i < |dist| => MinOf(CenterDistances(dist, i, centers))))
  }

  /** When a node is at distance 0 from itself, every distance is below the sentinel and the
      list holds exactly k centers, the score is the true k-center cost. */
  lemma ScoreIsKCenterCost(dist: seq<seq<nat>>, k: nat, centers: seq<nat>)
    requires IsDistanceMatrix(dist) && |dist| > 0 && 0 < k == |centers|
    requires CentersInGraph(dist, k, centers)
    requires forall i :: 0 <= i < |dist| ==> dist[i][i] == 0
    requires forall i, j :: 0 <= i < |dist| && 0 <= j < |dist| ==> dist[i][j] < Sentinel
    ensures Score(dist, k, centers) == KCenterCost(dist, centers)
  {
    var near := NearestAll(dist, k, centers);
    var cost := seq(|dist|, i requires 0 <= i < |dist| => MinOf(CenterDistances(dist, i, centers)));
    assert centers[..k] == centers;
    forall i | 0 <= i < |dist|
      ensures near[i] == cost[i]
    {
      var ds := CenterDistances(dist, i, centers);
      assert ds[0] in ds;
      if i in centers {
        var t :| 0 <= t < k && centers[t] == i;
        assert ds[t] == 0 && ds[t] in ds;
      } else {
        var m := RunningMin(ds);
        assert m <= ds[0] < Sentinel;
        assert MinOf(ds) <= m;
      }
    }
    assert near == cost;
  }

  /** `k_centers_objective_value(Graph, centers)`: fills `closest_center_distance` node by node
      and returns its maximum. */
  method ObjectiveValue(dist: seq<seq<nat>>, k: nat, centers: seq<nat>) returns (objVal: nat)
    requires IsDistanceMatrix(dist) && |dist| > 0 && CentersInGraph(dist, k, centers)
    ensures objVal == Score(dist, k, centers)
  {
    var n := |dist|;
    var closest := new nat[n](_ => 0);
    for i := 0 to n
      invariant forall x :: 0 <= x < i ==> closest[x] == Nearest(dist, k, centers, x)
      invariant forall x :: i <= x < n ==> closest[x] == 0
    {
      var minimum := Sentinel;
      if i in centers {
        closest[i] := 0;
      } else {
        ghost var ds := CenterDistances(dist, i, centers[..k]);
        for j := 0 to k
          invariant minimum == RunningMin(ds[..j])
          invariant closest[i] == if minimum < Sentinel then minimum else 0
          invariant forall x :: 0 <= x < i ==> closest[x] == Nearest(dist, k, centers, x)
          invariant forall x :: i < x < n ==> closest[x] == 0
        {
          assert ds[..j + 1] == ds[..j] + [ds[j]];
          var d := dist[i][centers[j]];
          if d < minimum {
            minimum := d;
            closest[i] := d;
          }
        }
        assert ds[..k] == ds;
      }
    }
    assert closest[..] == NearestAll(dist, k, centers);
    objVal := MaxOf(closest[..]);
  }
}
