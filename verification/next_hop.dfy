/**
 Next-hop derivation for a routing table row: starting at a destination,
 follow the predecessor array back until reaching a router whose predecessor
 is the source. That router is the first hop of the shortest path.
 */
module NextHop {
  import opened Topology
  import opened RoutingState
  import opened Dijkstra

  /** One routing-table row: "-" / "INF" when unreachable, else next hop and total cost. */
  datatype RouteEntry = NoRoute | Route(hop: int, cost: int)

  /**
   A routing result in which every reached router other than the source has a
   predecessor of strictly smaller distance. Following prev from such a router
   therefore always ends at the source.
   */
  predicate Descending(dist: seq<int>, prev: seq<int>, s: int) {
    && Rooted(s, dist, prev) && DistancesInRange(dist)
    && (forall v {:trigger prev[v]} :: 0 <= v < |dist| && v != s && dist[v] < INF ==>
          0 <= prev[v] < |dist| && dist[prev[v]] < dist[v])
  }

  /**
   The loop of printRoutingTable: move to the predecessor while it is neither
   the source nor -1. It stops at a direct child of the source in the
   predecessor tree.
   */
  function Climb(dist: seq<int>, prev: seq<int>, s: int, curr: int): (r: int)
    requires Descending(dist, prev, s)
    requires 0 <= curr < |dist| && curr != s && dist[curr] < INF
    ensures 0 <= r < |dist| && r != s && dist[r] < INF && dist[r] <= dist[curr]
    ensures prev[r] == s
    decreases dist[curr]
  {
    if prev[curr] != s && prev[curr] != -1 then Climb(dist, prev, s, prev[curr]) else curr
  }

  /** The next hop and cost a routing table row reports for destination i. */
  function NextHop(dist: seq<int>, prev: seq<int>, s: int, i: int): (r: RouteEntry)
    requires Descending(dist, prev, s) && 0 <= i < |dist|
    ensures r.NoRoute? <==> dist[i] == INF
    ensures i == s ==> r == Route(s, 0)
    ensures i != s && r.Route? ==> r.cost == dist[i] && 0 <= r.hop < |dist| && r.hop != s && prev[r.hop] == s
  {
    if dist[i] == INF then NoRoute
    else if i == s then Route(i, 0)
    else Route(Climb(dist, prev, s, i), dist[i])
  }

  /**
   Reference definition: the path of the predecessor tree from the source to v.
   Distances strictly increase along it, so it visits no router twice.
   */
  function TreePath(dist: seq<int>, prev: seq<int>, s: int, v: int): (p: seq<int>)
    requires Descending(dist, prev, s) && 0 <= v < |dist| && dist[v] < INF
    ensures |p| >= 1 && p[0] == s && p[|p| - 1] == v
    ensures forall j :: 0 <= j < |p| ==> 0 <= p[j] < |dist| && dist[p[j]] < INF
    ensures forall j :: 1 <= j < |p| ==> prev[p[j]] == p[j - 1]
    ensures forall j, k :: 0 <= j < k < |p| ==> dist[p[j]] < dist[p[k]]
    decreases dist[v]
  {
    if v == s then [s] else TreePath(dist, prev, s, prev[v]) + [v]
  }

  /** The tree path visits every router at most once. */
  lemma TreePathSimple(dist: seq<int>, prev: seq<int>, s: int, v: int)
    requires Descending(dist, prev, s) && 0 <= v < |dist| && dist[v] < INF
    ensures var p := TreePath(dist, prev, s, v);
            forall j, k :: 0 <= j < k < |p| ==> p[j] != p[k]
  {
  }

  /** The walk of printRoutingTable ends at the second router of the tree path. */
  lemma {:induction false} ClimbIsFirstTreeHop(dist: seq<int>, prev: seq<int>, s: int, i: int)
    requires Descending(dist, prev, s) && 0 <= i < |dist| && i != s && dist[i] < INF
    ensures |TreePath(dist, prev, s, i)| >= 2
    ensures Climb(dist, prev, s, i) == TreePath(dist, prev, s, i)[1]
    decreases dist[i]
  {
    var p := prev[i];
    if p != s {
      ClimbIsFirstTreeHop(dist, prev, s, p);
    }
  }

  /** A reachable destination other than the source reports the tree path's first hop and its distance. */
  lemma NextHopIsFirstTreeHop(dist: seq<int>, prev: seq<int>, s: int, i: int)
    requires Descending(dist, prev, s) && 0 <= i < |dist| && i != s && dist[i] < INF
    ensures |TreePath(dist, prev, s, i)| >= 2
    ensures NextHop(dist, prev, s, i) == Route(TreePath(dist, prev, s, i)[1], dist[i])
  {
    ClimbIsFirstTreeHop(dist, prev, s, i);
  }

  // ---------------------------------------------------------------------------
  // Results of RunDijkstra
  // ---------------------------------------------------------------------------

  /** What RunDijkstra guarantees about the predecessor array. */
  predicate ShortestPathTree(m: Matrix, s: int, dist: seq<int>, prev: seq<int>)
    requires ValidTopology(m)
  {
    && |dist| == |m| && Rooted(s, dist, prev)
    && DistancesInRange(dist)
    && PredecessorExact(m, s, dist, prev)
  }

  /** With positive links a predecessor is always strictly closer, so the next-hop walk terminates. */
  lemma ShortestPathTreeDescends(m: Matrix, s: int, dist: seq<int>, prev: seq<int>)
    requires ValidTopology(m) && PositiveLinks(m) && ShortestPathTree(m, s, dist, prev)
    ensures Descending(dist, prev, s)
  {
    forall v | 0 <= v < |dist| && v != s && dist[v] < INF
      ensures 0 <= prev[v] < |dist| && dist[prev[v]] < dist[v]
    {
      assert IsNode(m, prev[v]) && prev[v] != v;
    }
  }

  /** The tree path of a routing result is a walk whose cost is exactly the reported distance. */
  lemma {:induction false} TreePathCost(m: Matrix, s: int, dist: seq<int>, prev: seq<int>, v: int)
    requires ValidTopology(m) && ShortestPathTree(m, s, dist, prev)
    requires Descending(dist, prev, s)
    requires 0 <= v < |m| && dist[v] < INF
    ensures IsWalk(m, s, v, TreePath(dist, prev, s, v))
    ensures Cost(m, TreePath(dist, prev, s, v)) == dist[v]
    decreases dist[v]
  {
    if v != s {
      var u := prev[v];
      assert IsNode(m, u) && m[u][v] != INF && dist[v] == dist[u] + m[u][v];
      var pu := TreePath(dist, prev, s, u);
      assert TreePath(dist, prev, s, v) == pu + [v];
      TreePathCost(m, s, dist, prev, u);
      WalkExtend(m, s, u, v, pu);
    }
  }

  /**
   runDijkstra followed by the next-hop walk: for every destination, the row
   reports the first hop of a shortest walk, and that walk is no costlier
   than any other walk from the source.
   */
  method RoutingTableRow(m: Matrix, s: int, i: int) returns (r: RouteEntry)
    requires ValidTopology(m) && PositiveLinks(m) && IsNode(m, s) && IsNode(m, i)
    ensures r.NoRoute? <==> forall p :: IsWalk(m, s, i, p) ==> Cost(m, p) >= INF
    ensures i == s ==> r == Route(s, 0)
    ensures i != s && r.Route? ==> exists p :: && IsWalk(m, s, i, p) && |p| >= 2 && p[1] == r.hop
                                              && Cost(m, p) == r.cost
                                              && forall p' :: IsWalk(m, s, i, p') ==> r.cost <= Cost(m, p')
  {
    var dist, prev := RunDijkstra(m, s);
    ShortestPathTreeDescends(m, s, dist, prev);
    r := NextHop(dist, prev, s, i);
    if dist[i] < INF {
      var p := TreePath(dist, prev, s, i);
      TreePathCost(m, s, dist, prev, i);
      if i != s {
        NextHopIsFirstTreeHop(dist, prev, s, i);
        assert IsWalk(m, s, i, p) && |p| >= 2 && p[1] == r.hop && Cost(m, p) == r.cost;
      } else {
        assert r.NoRoute? == false;
      }
    }
  }

  // ---------------------------------------------------------------------------
  // The example network
  // ---------------------------------------------------------------------------

  /** Shortest distances from router 0 in the example network, as a potential. */
  const FixtureDistances: seq<int> := [0, 10, 20, 30]

  /** No link of the example network can shorten FixtureDistances. */
  lemma FixtureDistancesFeasible(m: Matrix)
    requires m == FixtureTopology()
    ensures ValidTopology(m) && |m| == 4
    ensures forall a, b :: 0 <= a < 4 && 0 <= b < 4 && m[a][b] != INF ==>
              FixtureDistances[b] <= FixtureDistances[a] + m[a][b]
  {
    FixtureEntries();
  }

  /** Relaxed links bound the distances of the example network from above. */
  lemma FixtureDistancesAtMost(m: Matrix, dist: seq<int>)
    requires m == FixtureTopology() && |dist| == 4 && dist[0] == 0
    requires NoRelaxableEdge(m, dist)
    ensures dist[1] <= 10 && dist[2] <= 20 && dist[3] <= 30
  {
    FixtureEntries();
    assert Relaxed(m, dist, 0);
    assert Relaxed(m, dist, 1);
  }

  /** A distance that is the cost of a walk is at least the fixture distance. */
  lemma FixtureDistanceAtLeast(m: Matrix, v: int, c: int)
    requires m == FixtureTopology() && 0 <= v < 4 && WalkCosting(m, 0, v, c)
    ensures FixtureDistances[v] <= c
  {
    FixtureDistancesFeasible(m);
    var p :| IsWalk(m, 0, v, p) && Cost(m, p) == c;
    PotentialBound(m, FixtureDistances, 0, v, p);
  }

  /** Any result meeting RunDijkstra's contract on the example network has the fixture distances. */
  lemma FixtureDistancesForced(m: Matrix, dist: seq<int>)
    requires m == FixtureTopology() && |dist| == 4 && dist[0] == 0
    requires NoRelaxableEdge(m, dist)
    requires forall v :: 0 <= v < 4 && dist[v] < INF ==> exists p :: IsWalk(m, 0, v, p) && Cost(m, p) == dist[v]
    ensures dist == FixtureDistances
  {
    FixtureDistancesAtMost(m, dist);
    forall v | 0 <= v < 4
      ensures FixtureDistances[v] <= dist[v]
    {
      assert dist[v] < INF && WalkCosting(m, 0, v, dist[v]);
      FixtureDistanceAtLeast(m, v, dist[v]);
    }
    assert forall v :: 0 <= v < 4 ==> dist[v] == FixtureDistances[v];
  }

  /**
   runDijkstra(0) on the example network: distances [0, 10, 20, 30]. Router 3
   is reached at cost 30 both through 1 and through 2; the contract admits
   either predecessor, so its next hop is reported as 1 or 2.
   */
  method FixtureRoutingFromR0() returns (dist: seq<int>, prev: seq<int>)
    ensures dist == FixtureDistances && |prev| == 4
    ensures prev[0] == -1 && prev[1] == 0 && prev[2] == 0 && (prev[3] == 1 || prev[3] == 2)
    ensures Descending(dist, prev, 0)
    ensures NextHop(dist, prev, 0, 0) == Route(0, 0)
    ensures NextHop(dist, prev, 0, 1) == Route(1, 10)
    ensures NextHop(dist, prev, 0, 2) == Route(2, 20)
    ensures NextHop(dist, prev, 0, 3) == Route(prev[3], 30)
  {
    var m := FixtureTopology();
    dist, prev := RunDijkstra(m, 0);
    FixtureDistancesForced(m, dist);
    FixtureEntries();
    assert PredecessorExact(m, 0, dist, prev);
    ShortestPathTreeDescends(m, 0, dist, prev);
  }
}
