/**
 The network topology of the label-switching simulator: an N x N matrix of
 integer link costs in which the sentinel INF marks "no direct link" and the
 diagonal is zero. Also defines walks through the matrix and their cost, which
 is the yardstick against which the routing computation is judged.
 */
module Topology {

  /** Link cost sentinel for "no link" / "unreachable". */
  const INF: int := 9999

  /** Number of routers of the fixed example network. */
  const NUM_ROUTERS: nat := 4

  type Matrix = seq<seq<int>>

  /** Square, and every entry is a non-negative cost or the INF sentinel. */
  predicate ValidTopology(m: Matrix) {
    && (forall i :: 0 <= i < |m| ==> |m[i]| == |m|)
    && (forall i, j :: 0 <= i < |m| && 0 <= j < |m[i]| ==> 0 <= m[i][j] <= INF)
  }

  predicate IsNode(m: Matrix, v: int) {
    0 <= v < |m|
  }

  predicate Symmetric(m: Matrix)
    requires ValidTopology(m)
  {
    forall i, j :: 0 <= i < |m| && 0 <= j < |m| ==> m[i][j] == m[j][i]
  }

  predicate ZeroDiagonal(m: Matrix)
    requires ValidTopology(m)
  {
    forall i :: 0 <= i < |m| ==> m[i][i] == 0
  }

  /** Every real link between two distinct routers has a strictly positive cost. */
  predicate PositiveLinks(m: Matrix)
    requires ValidTopology(m)
  {
    forall i, j :: 0 <= i < |m| && 0 <= j < |m| && i != j && m[i][j] != INF ==> m[i][j] > 0
  }

  /** An n x n matrix with a zero diagonal and no links at all. */
  function Unlinked(n: nat): (m: Matrix)
    ensures |m| == n && ValidTopology(m)
    ensures ZeroDiagonal(m) && Symmetric(m)
    ensures forall i, j :: 0 <= i < n && 0 <= j < n && i != j ==> m[i][j] == INF
  {
    seq(n, i => seq(n, j => if i == j then 0 else INF))
  }

  /** Records an undirected link of cost c between a and b (both directions). */
  function AddLink(m: Matrix, a: int, b: int, c: int): (m': Matrix)
    requires ValidTopology(m) && IsNode(m, a) && IsNode(m, b)
    requires 0 <= c <= INF
    ensures ValidTopology(m') && |m'| == |m|
    ensures m'[a][b] == c && m'[b][a] == c
    ensures forall i, j :: 0 <= i < |m| && 0 <= j < |m| && !(i == a && j == b) && !(i == b && j == a)
                       ==> m'[i][j] == m[i][j]
    ensures Symmetric(m) ==> Symmetric(m')
    ensures a != b && ZeroDiagonal(m) ==> ZeroDiagonal(m')
  {
    var m1 := m[a := m[a][b := c]];
    m1[b := m1[b][a := c]]
  }

  /** The example network: links 0-1 (10), 0-2 (20), 1-3 (20), 2-3 (10). */
  function FixtureTopology(): (m: Matrix)
    ensures |m| == NUM_ROUTERS && ValidTopology(m)
    ensures Symmetric(m) && ZeroDiagonal(m) && PositiveLinks(m)
  {
    var m0 := Unlinked(NUM_ROUTERS);
    var m1 := AddLink(m0, 0, 1, 10);
    var m2 := AddLink(m1, 0, 2, 20);
    var m3 := AddLink(m2, 1, 3, 20);
    AddLink(m3, 2, 3, 10)
  }

  /** The example network written out entry by entry. */
  lemma FixtureEntries()
    ensures FixtureTopology() == [[0, 10, 20, INF], [10, 0, INF, 20], [20, INF, 0, 10], [INF, 20, 10, 0]]
  {
    var m := FixtureTopology();
    var e := [[0, 10, 20, INF], [10, 0, INF, 20], [20, INF, 0, 10], [INF, 20, 10, 0]];
    assert forall i :: 0 <= i < 4 ==> m[i] == e[i];
  }

  // ---------------------------------------------------------------------------
  // Walks
  // ---------------------------------------------------------------------------

  /** Step j of p, from p[j - 1] to p[j], is over a real (non-INF) link. */
  ghost predicate LinkedStep(m: Matrix, p: seq<int>, j: int)
    requires ValidTopology(m) && 1 <= j < |p| && IsNode(m, p[j - 1]) && IsNode(m, p[j])
  {
    m[p[j - 1]][p[j]] != INF
  }

  /** p is a sequence of routers from s to v, each step over a real (non-INF) link. */
  ghost predicate IsWalk(m: Matrix, s: int, v: int, p: seq<int>)
    requires ValidTopology(m)
  {
    && |p| >= 1 && p[0] == s && p[|p| - 1] == v
    && (forall j :: 0 <= j < |p| ==> IsNode(m, p[j]))
    && (forall j :: 1 <= j < |p| ==> LinkedStep(m, p, j))
  }

  /** Sum of the link costs along p. */
  ghost function Cost(m: Matrix, p: seq<int>): int
    requires ValidTopology(m)
    requires forall j :: 0 <= j < |p| ==> IsNode(m, p[j])
    decreases |p|
  {
    if |p| <= 1 then 0
    else
      var u, v := p[|p| - 2], p[|p| - 1];
      assert IsNode(m, u) && IsNode(m, v);
      Cost(m, p[..|p| - 1]) + m[u][v]
  }

  /** Some walk from s to v costs exactly c. */
  ghost predicate WalkCosting(m: Matrix, s: int, v: int, c: int)
    requires ValidTopology(m)
  {
    exists p :: IsWalk(m, s, v, p) && Cost(m, p) == c
  }

  /** Extending a walk by one link adds that link's cost. */
  lemma WalkExtend(m: Matrix, s: int, u: int, v: int, p: seq<int>)
    requires ValidTopology(m) && IsWalk(m, s, u, p)
    requires IsNode(m, v) && m[u][v] != INF
    ensures IsWalk(m, s, v, p + [v])
    ensures Cost(m, p + [v]) == Cost(m, p) + m[u][v]
  {
    var p' := p + [v];
    assert p'[..|p|] == p;
    forall j | 1 <= j < |p'|
      ensures LinkedStep(m, p', j)
    {
      if j < |p| {
        assert LinkedStep(m, p, j);
      }
    }
  }

  /**
   A feasible potential bounds every walk from below: if D[s] <= 0 and no link
   u -> v has D[v] > D[u] + cost(u, v), then every walk from s to v costs at
   least D[v].
   */
  lemma {:induction false} PotentialBound(m: Matrix, D: seq<int>, s: int, v: int, p: seq<int>)
    requires ValidTopology(m) && |D| == |m|
    requires IsNode(m, s) && D[s] <= 0
    requires forall a, b :: 0 <= a < |m| && 0 <= b < |m| && m[a][b] != INF ==> D[b] <= D[a] + m[a][b]
    requires IsWalk(m, s, v, p)
    ensures D[v] <= Cost(m, p)
    decreases |p|
  {
    if |p| > 1 {
      var q := p[..|p| - 1];
      forall j | 1 <= j < |q|
        ensures LinkedStep(m, q, j)
      {
        assert LinkedStep(m, p, j);
      }
      PotentialBound(m, D, s, p[|p| - 2], q);
      assert LinkedStep(m, p, |p| - 1);
    }
  }
}
