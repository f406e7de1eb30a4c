/**
 The state of the routing computation and what it promises: tentative
 distances, predecessors and the frontier, and the predicates that relate
 them to the cost matrix.
 */
module RoutingState {
  import opened Topology

  /** A frontier entry (tentative distance, router), compared like std::pair. */
  type Entry = (int, int)

  /** The state of runDijkstra: tentative distances, predecessors, and the frontier. */
  datatype State = State(dist: seq<int>, prev: seq<int>, frontier: seq<Entry>)

  /** No tentative distance is negative. */
  predicate NonNegative(dist: seq<int>) {
    forall i :: 0 <= i < |dist| ==> dist[i] >= 0
  }

  /** Sum of all tentative distances; it shrinks with every successful relaxation. */
  function TotalDistance(dist: seq<int>): nat
    requires NonNegative(dist)
  {
    if |dist| == 0 then 0 else dist[0] + TotalDistance(dist[1..])
  }

  lemma {:induction false} TotalDistanceUpdate(dist: seq<int>, v: nat, x: int)
    requires NonNegative(dist)
    requires v < |dist| && x >= 0
    ensures NonNegative(dist[v := x])
    ensures TotalDistance(dist[v := x]) == TotalDistance(dist) - dist[v] + x
    decreases |dist|
  {
    if v > 0 {
      assert dist[v := x][1..] == dist[1..][v - 1 := x];
      TotalDistanceUpdate(dist[1..], v - 1, x);
    } else {
      assert dist[v := x][1..] == dist[1..];
    }
  }

  // ---------------------------------------------------------------------------
  // What a routing result promises
  // ---------------------------------------------------------------------------

  /** Every distance is a non-negative cost or the INF sentinel. */
  predicate DistancesInRange(dist: seq<int>) {
    forall v :: 0 <= v < |dist| ==> 0 <= dist[v] <= INF
  }

  /** The source is at distance 0 and has no predecessor. */
  predicate Rooted(s: int, dist: seq<int>, prev: seq<int>) {
    |prev| == |dist| && 0 <= s < |dist| && dist[s] == 0 && prev[s] == -1
  }

  /** Router u has no outgoing link that would still shorten a tentative distance. */
  predicate Relaxed(m: Matrix, dist: seq<int>, u: int)
    requires ValidTopology(m) && |dist| == |m| && IsNode(m, u)
  {
    forall v :: 0 <= v < |m| && m[u][v] != INF ==> dist[v] <= dist[u] + m[u][v]
  }

  /** No link out of a reached router can be relaxed any more. */
  predicate NoRelaxableEdge(m: Matrix, dist: seq<int>)
    requires ValidTopology(m) && |dist| == |m|
  {
    forall u :: 0 <= u < |m| && dist[u] < INF ==> Relaxed(m, dist, u)
  }

  /**
   Every reached router other than the source names a predecessor over a real
   link, and the predecessor's distance plus that link is at most its own.
   */
  predicate PredecessorBound(m: Matrix, s: int, dist: seq<int>, prev: seq<int>)
    requires ValidTopology(m) && |dist| == |m| && |prev| == |m|
  {
    forall v {:trigger prev[v]} :: 0 <= v < |m| && v != s && dist[v] < INF ==>
      && IsNode(m, prev[v]) && prev[v] != v && m[prev[v]][v] != INF
      && dist[prev[v]] + m[prev[v]][v] <= dist[v]
  }

  /** As PredecessorBound, with the distance exactly the predecessor's plus the link. */
  predicate PredecessorExact(m: Matrix, s: int, dist: seq<int>, prev: seq<int>)
    requires ValidTopology(m) && |dist| == |m| && |prev| == |m|
  {
    forall v {:trigger prev[v]} :: 0 <= v < |m| && v != s && dist[v] < INF ==>
      && IsNode(m, prev[v]) && prev[v] != v && m[prev[v]][v] != INF
      && dist[v] == dist[prev[v]] + m[prev[v]][v]
  }

  /** Routers never reached keep the "no predecessor" marker -1. */
  predicate UnreachedHaveNoPredecessor(m: Matrix, s: int, dist: seq<int>, prev: seq<int>)
    requires |dist| == |m| && |prev| == |m|
  {
    forall v :: 0 <= v < |m| && v != s && dist[v] == INF ==> prev[v] == -1
  }

  /** Each finite distance is the cost of some walk from the source. */
  ghost predicate Witnessed(m: Matrix, s: int, dist: seq<int>)
    requires ValidTopology(m) && |dist| == |m|
  {
    forall v :: 0 <= v < |m| && dist[v] < INF ==> WalkCosting(m, s, v, dist[v])
  }

  /** The distances and predecessors of the loop state, apart from the walks that witness them. */
  predicate Tentative(m: Matrix, s: int, dist: seq<int>, prev: seq<int>)
  {
    && ValidTopology(m) && |dist| == |m| && Rooted(s, dist, prev)
    && DistancesInRange(dist)
    && PredecessorBound(m, s, dist, prev)
    && UnreachedHaveNoPredecessor(m, s, dist, prev)
  }

  /** Frontier entries name routers, are finite, and are never below the current distance. */
  predicate FrontierSound(dist: seq<int>, q: seq<Entry>) {
    forall j :: 0 <= j < |q| ==> 0 <= q[j].1 < |dist| && dist[q[j].1] <= q[j].0 < INF
  }

  /** A reached router either still has its current distance queued or is relaxed. */
  predicate Covered(m: Matrix, dist: seq<int>, q: seq<Entry>, w: int)
    requires ValidTopology(m) && |dist| == |m| && IsNode(m, w)
  {
    dist[w] < INF ==> (dist[w], w) in q || Relaxed(m, dist, w)
  }

  /** Every router other than u is covered. */
  predicate CoveredExcept(m: Matrix, dist: seq<int>, q: seq<Entry>, u: int)
    requires ValidTopology(m) && |dist| == |m|
  {
    forall w :: 0 <= w < |m| && w != u ==> Covered(m, dist, q, w)
  }

  // ---------------------------------------------------------------------------
  // How one relaxation pass relates two states
  // ---------------------------------------------------------------------------

  /**
   Distances never grow, and a predecessor only changes together with a
   strict decrease of the distance.
   */
  predicate OnlyImproves(dist: seq<int>, prev: seq<int>, dist': seq<int>, prev': seq<int>) {
    && |dist'| == |dist| && |prev'| == |prev| == |dist|
    && forall x :: 0 <= x < |dist| ==> dist'[x] <= dist[x] && (prev'[x] != prev[x] ==> dist'[x] < dist[x])
  }

  /** Every real link out of u to a router below v has been relaxed with distance d. */
  predicate RelaxedBelow(m: Matrix, dist: seq<int>, u: int, d: int, v: int)
    requires ValidTopology(m) && |dist| == |m| && IsNode(m, u) && v <= |m|
  {
    forall x :: 0 <= x < v && m[u][x] != INF ==> dist[x] <= d + m[u][x]
  }

  /** Either some distance went down (and with it the total), or nothing changed at all. */
  predicate Progress(dist: seq<int>, q: seq<Entry>, dist': seq<int>, q': seq<Entry>)
    requires NonNegative(dist) && NonNegative(dist')
  {
    TotalDistance(dist') < TotalDistance(dist) || (dist' == dist && q' == q)
  }
}
