/**
 The routing computation: Dijkstra's single-source shortest paths over the
 cost matrix, with a min-priority frontier of (distance, router) pairs from
 which stale entries are skipped instead of being decreased in place.
 */
module Dijkstra {
  import opened Topology
  import opened RoutingState

  /** The order of std::pair: by distance, then by router. */
  predicate EntryLeq(a: Entry, b: Entry) {
    a.0 < b.0 || (a.0 == b.0 && a.1 <= b.1)
  }

  /** Position of the smallest entry: the top of a min-priority queue of pairs. */
  function MinIndex(q: seq<Entry>): (k: nat)
    requires |q| > 0
    ensures k < |q|
    ensures forall j :: 0 <= j < |q| ==> EntryLeq(q[k], q[j])
  {
    if |q| == 1 then 0
    else
      var k := MinIndex(q[1..]) + 1;
      assert forall j :: 1 <= j < |q| ==> q[j] == q[1..][j - 1];
      if EntryLeq(q[0], q[k]) then 0 else k
  }

  /** The frontier with the entry at position k taken out (one occurrence only). */
  function RemoveAt(q: seq<Entry>, k: nat): (r: seq<Entry>)
    requires k < |q|
    ensures multiset(r) + multiset{q[k]} == multiset(q)
    ensures forall x :: x in q && x != q[k] ==> x in r
  {
    assert q == q[..k] + [q[k]] + q[k + 1..];
    var r := q[..k] + q[k + 1..];
    assert forall x :: x in q && x != q[k] ==> x in r by {
      forall x | x in q && x != q[k]
        ensures x in r
      {
        var j :| 0 <= j < |q| && q[j] == x;
        if j < k { assert r[j] == x; } else { assert r[j - 1] == x; }
      }
    }
    r
  }

  // ---------------------------------------------------------------------------
  // The algorithm
  // ---------------------------------------------------------------------------

  /** A shorter distance elsewhere keeps an already relaxed router relaxed. */
  lemma RelaxedAfterDecrease(m: Matrix, dist: seq<int>, dist': seq<int>, w: int)
    requires ValidTopology(m) && |dist| == |m| && |dist'| == |m| && IsNode(m, w)
    requires forall x :: 0 <= x < |m| ==> dist'[x] <= dist[x]
    requires dist'[w] == dist[w] && Relaxed(m, dist, w)
    ensures Relaxed(m, dist', w)
  {
  }

  /** Lowering dist[v] to dist[u] + m[u][v] with u as its predecessor keeps every predecessor link sound. */
  lemma PredecessorBoundAfterRelax(m: Matrix, s: int, dist: seq<int>, prev: seq<int>, u: int, v: int, nd: int)
    requires ValidTopology(m) && |dist| == |m| && |prev| == |m| && PredecessorBound(m, s, dist, prev)
    requires IsNode(m, u) && IsNode(m, v) && u != v && m[u][v] != INF
    requires nd == dist[u] + m[u][v] < dist[v]
    ensures PredecessorBound(m, s, dist[v := nd], prev[v := u])
  {
    var dist', prev' := dist[v := nd], prev[v := u];
    forall x | 0 <= x < |m| && x != s && dist'[x] < INF
      ensures IsNode(m, prev'[x]) && prev'[x] != x && m[prev'[x]][x] != INF
      ensures dist'[prev'[x]] + m[prev'[x]][x] <= dist'[x]
    {
      if x != v {
        assert dist[x] < INF;
      }
    }
  }

  /** A walk to u extended by the link u -> v is a walk to v. */
  lemma WalkCostingExtend(m: Matrix, s: int, u: int, v: int, c: int)
    requires ValidTopology(m) && WalkCosting(m, s, u, c)
    requires IsNode(m, v) && IsNode(m, u) && m[u][v] != INF
    ensures WalkCosting(m, s, v, c + m[u][v])
  {
    var p :| IsWalk(m, s, u, p) && Cost(m, p) == c;
    WalkExtend(m, s, u, v, p);
    assert IsWalk(m, s, v, p + [v]) && Cost(m, p + [v]) == c + m[u][v];
  }

  /** Lowering dist[v] to dist[u] + m[u][v] keeps every finite distance the cost of a walk. */
  lemma WitnessedAfterRelax(m: Matrix, s: int, dist: seq<int>, u: int, v: int, nd: int)
    requires ValidTopology(m) && |dist| == |m| && Witnessed(m, s, dist)
    requires IsNode(m, u) && IsNode(m, v) && dist[u] < INF && m[u][v] != INF
    requires nd == dist[u] + m[u][v]
    ensures Witnessed(m, s, dist[v := nd])
  {
    var dist' := dist[v := nd];
    assert WalkCosting(m, s, u, dist[u]);
    WalkCostingExtend(m, s, u, v, dist[u]);
    forall x | 0 <= x < |m| && dist'[x] < INF
      ensures WalkCosting(m, s, x, dist'[x])
    {
      if x != v {
        assert dist[x] < INF;
      }
    }
  }

  /** After relaxing u -> v every router other than u is still queued or relaxed. */
  lemma CoveredAfterRelax(m: Matrix, dist: seq<int>, q: seq<Entry>, u: int, v: int, nd: int)
    requires ValidTopology(m) && |dist| == |m| && IsNode(m, u) && IsNode(m, v)
    requires nd < dist[v]
    requires CoveredExcept(m, dist, q, u)
    ensures CoveredExcept(m, dist[v := nd], q + [(nd, v)], u)
  {
    var dist', q' := dist[v := nd], q + [(nd, v)];
    forall w | 0 <= w < |m| && w != u
      ensures Covered(m, dist', q', w)
    {
      assert Covered(m, dist, q, w);
      if w != v && dist[w] < INF && (dist[w], w) !in q {
        RelaxedAfterDecrease(m, dist, dist', w);
      }
    }
  }

  lemma FrontierSoundAfterPush(dist: seq<int>, q: seq<Entry>, v: int, nd: int)
    requires FrontierSound(dist, q) && 0 <= v < |dist| && nd < dist[v] <= INF
    ensures FrontierSound(dist[v := nd], q + [(nd, v)])
  {
  }

  lemma RelaxedBelowAfterRelax(m: Matrix, dist: seq<int>, u: int, d: int, v: int, nd: int)
    requires ValidTopology(m) && |dist| == |m| && IsNode(m, u) && 0 <= v < |m|
    requires RelaxedBelow(m, dist, u, d, v) && nd < dist[v] && nd == d + m[u][v]
    ensures RelaxedBelow(m, dist[v := nd], u, d, v + 1)
  {
  }

  /**
   The inner loop of runDijkstra from router v on, for the popped entry (d, u):
   every real link u -> x with x >= v whose cost added to d shortens dist[x]
   lowers dist[x], makes u the predecessor of x and pushes the new pair.
   */
  function RelaxFrom(m: Matrix, u: int, d: int, v: nat, dist: seq<int>, prev: seq<int>, q: seq<Entry>): (r: State)
    requires ValidTopology(m) && IsNode(m, u) && |dist| == |m| && |prev| == |m| && v <= |m|
    ensures |r.dist| == |m| && |r.prev| == |m|
    ensures |q| <= |r.frontier| && forall j :: 0 <= j < |q| ==> r.frontier[j] == q[j]
    decreases |m| - v
  {
    if v == |m| then State(dist, prev, q)
    else if m[u][v] != INF && d + m[u][v] < dist[v] then
      RelaxFrom(m, u, d, v + 1, dist[v := d + m[u][v]], prev[v := u], q + [(d + m[u][v], v)])
    else
      RelaxFrom(m, u, d, v + 1, dist, prev, q)
  }

  /** The inner loop's state at v, in terms of its state at v + 1. */
  lemma RelaxFromStep(m: Matrix, u: int, d: int, v: nat, dist: seq<int>, prev: seq<int>, q: seq<Entry>)
    requires ValidTopology(m) && IsNode(m, u) && |dist| == |m| && |prev| == |m| && v <= |m|
    ensures RelaxFrom(m, u, d, v, dist, prev, q)
         == if v == |m| then State(dist, prev, q)
            else if m[u][v] != INF && d + m[u][v] < dist[v] then
              RelaxFrom(m, u, d, v + 1, dist[v := d + m[u][v]], prev[v := u], q + [(d + m[u][v], v)])
            else
              RelaxFrom(m, u, d, v + 1, dist, prev, q)
  {
  }

  /**
   Every reached router keeps a sound predecessor link, the source keeps
   distance 0 and no predecessor, and u keeps its own distance d.
   */
  lemma {:induction false} RelaxFromPredecessors(m: Matrix, s: int, u: int, d: int, v: nat, dist: seq<int>,
                                                 prev: seq<int>, q: seq<Entry>)
    requires ValidTopology(m) && IsNode(m, u) && |dist| == |m| && |prev| == |m| && v <= |m|
    requires PredecessorBound(m, s, dist, prev) && IsNode(m, s) && dist[s] == 0 && 0 <= d && d == dist[u] < INF
    ensures var r := RelaxFrom(m, u, d, v, dist, prev, q);
            && PredecessorBound(m, s, r.dist, r.prev)
            && r.dist[s] == 0 && r.prev[s] == prev[s] && r.dist[u] == d
    decreases |m| - v
  {
    RelaxFromStep(m, u, d, v, dist, prev, q);
    if v < |m| {
      if m[u][v] != INF && d + m[u][v] < dist[v] {
        PredecessorBoundAfterRelax(m, s, dist, prev, u, v, d + m[u][v]);
        RelaxFromPredecessors(m, s, u, d, v + 1, dist[v := d + m[u][v]], prev[v := u], q + [(d + m[u][v], v)]);
      } else {
        RelaxFromPredecessors(m, s, u, d, v + 1, dist, prev, q);
      }
    }
  }

  /** Every finite distance stays the cost of some walk from the source, and u's distance stays d. */
  lemma {:induction false} RelaxFromWitnessed(m: Matrix, s: int, u: int, d: int, v: nat, dist: seq<int>, prev: seq<int>,
                                              q: seq<Entry>)
    requires ValidTopology(m) && IsNode(m, u) && |dist| == |m| && |prev| == |m| && v <= |m|
    requires Witnessed(m, s, dist) && 0 <= d && d == dist[u] < INF
    ensures var r := RelaxFrom(m, u, d, v, dist, prev, q);
            Witnessed(m, s, r.dist) && r.dist[u] == d
    decreases |m| - v
  {
    RelaxFromStep(m, u, d, v, dist, prev, q);
    if v < |m| {
      if m[u][v] != INF && d + m[u][v] < dist[v] {
        WitnessedAfterRelax(m, s, dist, u, v, d + m[u][v]);
        RelaxFromWitnessed(m, s, u, d, v + 1, dist[v := d + m[u][v]], prev[v := u], q + [(d + m[u][v], v)]);
      } else {
        RelaxFromWitnessed(m, s, u, d, v + 1, dist, prev, q);
      }
    }
  }

  /** Distances stay in range and every frontier entry stays at or above its router's distance. */
  lemma {:induction false} RelaxFromFrontier(m: Matrix, u: int, d: int, v: nat, dist: seq<int>, prev: seq<int>,
                                             q: seq<Entry>)
    requires ValidTopology(m) && IsNode(m, u) && |dist| == |m| && |prev| == |m| && v <= |m|
    requires DistancesInRange(dist) && FrontierSound(dist, q) && 0 <= d
    ensures var r := RelaxFrom(m, u, d, v, dist, prev, q);
            DistancesInRange(r.dist) && FrontierSound(r.dist, r.frontier)
    decreases |m| - v
  {
    RelaxFromStep(m, u, d, v, dist, prev, q);
    if v < |m| {
      if m[u][v] != INF && d + m[u][v] < dist[v] {
        FrontierSoundAfterPush(dist, q, v, d + m[u][v]);
        RelaxFromFrontier(m, u, d, v + 1, dist[v := d + m[u][v]], prev[v := u], q + [(d + m[u][v], v)]);
      } else {
        RelaxFromFrontier(m, u, d, v + 1, dist, prev, q);
      }
    }
  }

  /** Routers other than u stay covered, and all links out of u end up relaxed. */
  lemma {:induction false} RelaxFromCovered(m: Matrix, u: int, d: int, v: nat, dist: seq<int>, prev: seq<int>,
                                            q: seq<Entry>)
    requires ValidTopology(m) && IsNode(m, u) && |dist| == |m| && |prev| == |m| && v <= |m|
    requires CoveredExcept(m, dist, q, u) && RelaxedBelow(m, dist, u, d, v)
    ensures var r := RelaxFrom(m, u, d, v, dist, prev, q);
            CoveredExcept(m, r.dist, r.frontier, u) && RelaxedBelow(m, r.dist, u, d, |m|)
    decreases |m| - v
  {
    RelaxFromStep(m, u, d, v, dist, prev, q);
    if v < |m| {
      if m[u][v] != INF && d + m[u][v] < dist[v] {
        CoveredAfterRelax(m, dist, q, u, v, d + m[u][v]);
        RelaxedBelowAfterRelax(m, dist, u, d, v, d + m[u][v]);
        RelaxFromCovered(m, u, d, v + 1, dist[v := d + m[u][v]], prev[v := u], q + [(d + m[u][v], v)]);
      } else {
        assert RelaxedBelow(m, dist, u, d, v + 1);
        RelaxFromCovered(m, u, d, v + 1, dist, prev, q);
      }
    }
  }

  /** Either some distance went down, and with it their total, or nothing changed at all. */
  lemma {:induction false} RelaxFromProgress(m: Matrix, u: int, d: int, v: nat, dist: seq<int>, prev: seq<int>,
                                             q: seq<Entry>)
    requires ValidTopology(m) && IsNode(m, u) && |dist| == |m| && |prev| == |m| && v <= |m|
    requires NonNegative(dist) && 0 <= d
    ensures var r := RelaxFrom(m, u, d, v, dist, prev, q);
            NonNegative(r.dist) && Progress(dist, q, r.dist, r.frontier)
    decreases |m| - v
  {
    RelaxFromStep(m, u, d, v, dist, prev, q);
    if v < |m| {
      if m[u][v] != INF && d + m[u][v] < dist[v] {
        TotalDistanceUpdate(dist, v, d + m[u][v]);
        RelaxFromProgress(m, u, d, v + 1, dist[v := d + m[u][v]], prev[v := u], q + [(d + m[u][v], v)]);
      } else {
        RelaxFromProgress(m, u, d, v + 1, dist, prev, q);
      }
    }
  }

  /** Distances never grow, and the only new predecessor is u, set together with a strict decrease. */
  lemma {:induction false} RelaxFromImproves(m: Matrix, u: int, d: int, v: nat, dist: seq<int>, prev: seq<int>,
                                             q: seq<Entry>)
    requires ValidTopology(m) && IsNode(m, u) && |dist| == |m| && |prev| == |m| && v <= |m|
    ensures var r := RelaxFrom(m, u, d, v, dist, prev, q);
            && OnlyImproves(dist, prev, r.dist, r.prev)
            && forall x :: 0 <= x < |m| && r.prev[x] != prev[x] ==> r.prev[x] == u
    decreases |m| - v
  {
    RelaxFromStep(m, u, d, v, dist, prev, q);
    if v < |m| {
      if m[u][v] != INF && d + m[u][v] < dist[v] {
        RelaxFromImproves(m, u, d, v + 1, dist[v := d + m[u][v]], prev[v := u], q + [(d + m[u][v], v)]);
      } else {
        RelaxFromImproves(m, u, d, v + 1, dist, prev, q);
      }
    }
  }

  /** A router still at INF was never relaxed, so it still has no predecessor. */
  lemma UnreachedAfterImproves(m: Matrix, s: int, dist: seq<int>, prev: seq<int>, dist': seq<int>, prev': seq<int>)
    requires |dist| == |m| && |prev| == |m| && DistancesInRange(dist)
    requires UnreachedHaveNoPredecessor(m, s, dist, prev) && OnlyImproves(dist, prev, dist', prev')
    ensures UnreachedHaveNoPredecessor(m, s, dist', prev')
  {
  }

  /**
   The whole inner loop, started at router 0 for a current entry (d, u): the
   tentative state is kept, the frontier stays sound, every router is covered
   (u itself because all its links are now relaxed), and the total of the
   distances went down unless nothing changed.
   */
  lemma RelaxNeighbours(m: Matrix, s: int, dist: seq<int>, prev: seq<int>, q: seq<Entry>, d: int, u: int)
    requires Tentative(m, s, dist, prev) && Witnessed(m, s, dist) && FrontierSound(dist, q)
    requires IsNode(m, u) && d == dist[u] < INF
    requires CoveredExcept(m, dist, q, u)
    ensures var r := RelaxFrom(m, u, d, 0, dist, prev, q);
            && Tentative(m, s, r.dist, r.prev) && Witnessed(m, s, r.dist) && FrontierSound(r.dist, r.frontier)
            && (forall w :: 0 <= w < |m| ==> Covered(m, r.dist, r.frontier, w))
            && NonNegative(dist) && NonNegative(r.dist) && Progress(dist, q, r.dist, r.frontier)
  {
    var r := RelaxFrom(m, u, d, 0, dist, prev, q);
    assert 0 <= d;
    RelaxFromPredecessors(m, s, u, d, 0, dist, prev, q);
    RelaxFromImproves(m, u, d, 0, dist, prev, q);
    UnreachedAfterImproves(m, s, dist, prev, r.dist, r.prev);
    RelaxFromWitnessed(m, s, u, d, 0, dist, prev, q);
    RelaxFromFrontier(m, u, d, 0, dist, prev, q);
    RelaxFromCovered(m, u, d, 0, dist, prev, q);
    RelaxFromProgress(m, u, d, 0, dist, prev, q);
    assert Relaxed(m, r.dist, u);
  }

  /**
   Popping the frontier's entry k leaves every router covered, except the
   popped router itself when the entry was current.
   */
  lemma CoveredAfterPop(m: Matrix, dist: seq<int>, q: seq<Entry>, k: nat)
    requires ValidTopology(m) && |dist| == |m| && k < |q|
    requires forall w :: 0 <= w < |m| ==> Covered(m, dist, q, w)
    ensures forall w :: 0 <= w < |m| && (w != q[k].1 || q[k].0 != dist[q[k].1]) ==>
              Covered(m, dist, RemoveAt(q, k), w)
  {
    var rest := RemoveAt(q, k);
    forall w | 0 <= w < |m| && (w != q[k].1 || q[k].0 != dist[q[k].1])
      ensures Covered(m, dist, rest, w)
    {
      assert Covered(m, dist, q, w);
      if dist[w] < INF && (dist[w], w) in q {
        assert (dist[w], w) != q[k];
      }
    }
  }

  /**
   Once the frontier is empty every reached router is relaxed, so no link can
   shorten a distance and each predecessor bound is met with equality.
   */
  lemma Settled(m: Matrix, s: int, dist: seq<int>, prev: seq<int>)
    requires Tentative(m, s, dist, prev)
    requires forall w :: 0 <= w < |m| ==> Covered(m, dist, [], w)
    ensures NoRelaxableEdge(m, dist)
    ensures PredecessorExact(m, s, dist, prev)
  {
    forall u | 0 <= u < |m| && dist[u] < INF
      ensures Relaxed(m, dist, u)
    {
      assert Covered(m, dist, [], u);
    }
  }

  /**
   With no relaxable link left, the tentative distances are final: no walk
   from the source to v costs less than dist[v].
   */
  lemma SettledShortest(m: Matrix, s: int, dist: seq<int>, prev: seq<int>, v: int, p: seq<int>)
    requires Tentative(m, s, dist, prev) && NoRelaxableEdge(m, dist)
    requires 0 <= v < |m| && IsWalk(m, s, v, p)
    ensures dist[v] <= Cost(m, p)
  {
    forall a, b | 0 <= a < |m| && 0 <= b < |m| && m[a][b] != INF
      ensures dist[b] <= dist[a] + m[a][b]
    {
      if dist[a] < INF {
        assert Relaxed(m, dist, a);
      }
    }
    PotentialBound(m, dist, s, v, p);
  }

  /**
   The state runDijkstra starts from: every router at INF without a
   predecessor, except the source at distance 0, which is the only frontier
   entry.
   */
  lemma InitialState(m: Matrix, s: int)
    requires ValidTopology(m) && IsNode(m, s)
    ensures var dist, prev := seq(|m|, _ => INF)[s := 0], seq(|m|, _ => -1);
            && Tentative(m, s, dist, prev) && Witnessed(m, s, dist) && FrontierSound(dist, [(0, s)])
            && forall w :: 0 <= w < |m| ==> Covered(m, dist, [(0, s)], w)
  {
    assert IsWalk(m, s, s, [s]) && Cost(m, [s]) == 0;
  }

  /**
   runDijkstra(sourceRouter): tentative distances start at INF except the
   source, and the loop pops the smallest (distance, router) pair until the
   frontier is empty, skipping entries whose distance is stale.
   */
  method RunDijkstra(m: Matrix, s: int) returns (dist: seq<int>, prev: seq<int>)
    requires ValidTopology(m) && IsNode(m, s)
    ensures |dist| == |m| && |prev| == |m|
    ensures dist[s] == 0 && prev[s] == -1
    ensures DistancesInRange(dist)
    ensures PredecessorExact(m, s, dist, prev)
    ensures UnreachedHaveNoPredecessor(m, s, dist, prev)
    ensures NoRelaxableEdge(m, dist)
    ensures forall v, p :: 0 <= v < |m| && IsWalk(m, s, v, p) ==> dist[v] <= Cost(m, p)
    ensures forall v :: 0 <= v < |m| && dist[v] < INF ==> exists p :: IsWalk(m, s, v, p) && Cost(m, p) == dist[v]
  {
    var n := |m|;
    dist := seq(n, _ => INF)[s := 0];
    prev := seq(n, _ => -1);
    var q: seq<Entry> := [(0, s)];
    InitialState(m, s);
    while |q| > 0
      invariant Tentative(m, s, dist, prev) && Witnessed(m, s, dist) && FrontierSound(dist, q)
      invariant forall w :: 0 <= w < n ==> Covered(m, dist, q, w)
      decreases TotalDistance(dist), |q|
    {
      var k := MinIndex(q);
      var (d, u) := q[k];
      var rest := RemoveAt(q, k);
      CoveredAfterPop(m, dist, q, k);
      q := rest;
      if d > dist[u] {
        continue;
      }
      RelaxNeighbours(m, s, dist, prev, q, d, u);
      var r := RelaxFrom(m, u, d, 0, dist, prev, q);
      dist, prev, q := r.dist, r.prev, r.frontier;
    }
    Settled(m, s, dist, prev);
    forall v, p | 0 <= v < n && IsWalk(m, s, v, p)
      ensures dist[v] <= Cost(m, p)
    {
      SettledShortest(m, s, dist, prev, v, p);
    }
  }
}
