# MPLS simulator core in Dafny

A model of the core of `mpls_sim.cpp`, a small MPLS (label-switching) network
simulator. The model covers four parts:

- **Topology** (`topology.dfy`): the cost matrix of `initializeTopology`.
  INF (9999) marks "no link" and the diagonal is zero. The module also defines
  walks through the matrix and their cost, which is the yardstick for routing.
- **Routing** (`routing_state.dfy`, `dijkstra.dfy`): `runDijkstra` over a
  min-priority frontier of `(distance, router)` pairs.
  - An entry popped with a distance above the router's current one is stale
    and is skipped.
  - The inner `for` loop over neighbours is the recursive function
    `RelaxFrom`.
  - The result is proved to be a shortest-path tree: every finite distance
    is the cost of some walk, no walk is cheaper, a router stays at INF
    exactly when every walk to it costs at least INF, and every predecessor
    lies on such a walk.
- **Next hop** (`next_hop.dfy`): the `while` loop in `printRoutingTable`.
  From a destination it follows `prev` until the predecessor is the source
  (or -1). The model proves that this loop stops at the first hop of the
  predecessor-tree path, which is a shortest walk.
- **Labels and forwarding** (`labels.dfy`, `forwarding.dfy`): the FEC ordering
  (`FEC::operator<`), the fixed LFIBs of `initializeLFIB`, and the hard-wired
  forwarding chain `processR0` → `processR2` → `processR3`.
  - `LFIB` means "label forwarding information base", the table each router
    looks labels up in.
  - `FEC` means "forwarding equivalence class", here one source–destination
    pair.
  - A lookup miss is a throwing `std::map::at` in the source. Here it is the
    status `NoBinding(router)`: the packet keeps what earlier routers did to it.

The code validates nothing when it builds the topology: it assigns fixed
matrix entries, and `AddLink` takes any cost in [0, INF] between two routers
in range. Forwarding is the fixed chain above, not a general per-hop loop.

The number of routers is `|m|` rather than the constant 4. The example
network (`FixtureTopology`, `FixtureLfib`) is the 4-router instance used by
`main`.

## Model

| member | source | states |
|---|---|---|
| Topology.Unlinked | mpls_sim.cpp:98-102 | The initial matrix is n x n with 0 on the diagonal and INF everywhere else, so it is valid and symmetric. |
| Topology.AddLink | mpls_sim.cpp:103-114 | A link assignment sets both directions to the cost and changes no other entry. It keeps the matrix valid, symmetric and zero on the diagonal. |
| Topology.FixtureTopology | mpls_sim.cpp:97-115 | The example network has 4 routers, is a valid symmetric matrix with a zero diagonal, and every real link has a positive cost. |
| Topology.FixtureEntries | mpls_sim.cpp:97-115 | The example network written out entry by entry: 0-1 costs 10, 0-2 costs 20, 1-3 costs 20, 2-3 costs 10, every other pair INF. |
| Topology.PotentialBound | mpls_sim.cpp:138-147 | If no link can lower a distance array D (no relaxation applies) and D[s] <= 0, every walk from s to v costs at least D[v]. |
| Labels.FecLessIsLexicographic | mpls_sim.cpp:38-43 | `FecLess` is the model of `FEC::operator<`. It compares by source first, then by destination. |
| Labels.FecLessIsStrictTotalOrder | mpls_sim.cpp:38-43 | The FEC order is irreflexive, transitive and total on distinct FECs, as a std::map key order must be. |
| Labels.FecEquivalenceIsEquality | mpls_sim.cpp:38-43 | Two FECs are equivalent under the order exactly when they are equal, so map keys are FEC values. |
| Labels.FixtureLfib | mpls_sim.cpp:202-214 | The tables bind only FEC (0,3), pushing 300 towards router 2; router 2 binds only 300, swapping to 777 towards router 3; router 3 binds only 777, popping; routers 0 and 1 bind nothing. Together they switch FEC (0,3) along 0 -> 2 -> 3. |
| Forwarding.NewPacket | mpls_sim.cpp:71 | A new packet carries no label and belongs to the FEC of its source and destination. |
| Forwarding.ProcessR3 | mpls_sim.cpp:260-272 | The packet is delivered exactly when router 3 binds its label. A POP entry leaves it unlabelled and any other entry leaves it unchanged. A miss stops it untouched at router 3. |
| Forwarding.ProcessR2 | mpls_sim.cpp:241-255 | A miss at router 2 is reported exactly when the label is unbound there, with the packet untouched. Otherwise the first event is the swap to the entry's label and next hop. |
| Forwarding.ProcessR0 | mpls_sim.cpp:221-236 | A miss at router 0 is reported exactly when the packet's FEC is unbound, with the packet untouched. Otherwise the first event is the push of the entry's label and next hop. Source and destination never change. |
| Forwarding.ForwardingOutcome | mpls_sim.cpp:221-272 | The chain stops at the first router whose lookup misses. The packet then holds the label the last successful router gave it, and the trace has one event per successful router. |
| Forwarding.DeliveredLabel | mpls_sim.cpp:260-268 | A delivered packet is unlabelled exactly when router 3's entry is POP; otherwise it keeps the label router 2 swapped in. |
| Forwarding.SwitchedPathDelivers | mpls_sim.cpp:221-272 | When the tables switch the FEC along 0 -> 2 -> 3 with real labels, the packet is pushed, swapped and popped, and arrives unlabelled. |
| Forwarding.FixtureForwarding | mpls_sim.cpp:286-295 | main's packet from 0 to 3 starts unlabelled, is pushed 300, swapped 300 -> 777 and popped 777, and is delivered unlabelled. |
| Forwarding.FixtureUnboundFecFails | mpls_sim.cpp:223-225 | With the example tables, a packet of any other FEC fails the ingress lookup and stays untouched. |
| Dijkstra.MinIndex | mpls_sim.cpp:132-133 | The frontier's top is a pair no greater than any other pair in the (distance, router) order. |
| Dijkstra.RemoveAt | mpls_sim.cpp:134 | Popping removes exactly one occurrence of the top pair and keeps every other pair. |
| Dijkstra.RelaxFrom | mpls_sim.cpp:138-147 | The neighbour loop keeps the array sizes and only appends to the frontier. |
| Dijkstra.RelaxFromPredecessors | mpls_sim.cpp:138-147 | After the neighbour loop, every reached router still has a predecessor over a real link whose distance plus the link is at most its own. The source keeps distance 0 and no predecessor, and u keeps its distance. |
| Dijkstra.RelaxFromWitnessed | mpls_sim.cpp:138-147 | Every finite distance stays the cost of some walk from the source. |
| Dijkstra.RelaxFromFrontier | mpls_sim.cpp:138-147 | Distances stay within [0, INF], and every frontier pair stays finite and at or above its router's current distance. |
| Dijkstra.RelaxFromCovered | mpls_sim.cpp:138-147 | Every other reached router is still queued with its current distance or already relaxed, and every real link out of u ends up relaxed. |
| Dijkstra.RelaxFromProgress | mpls_sim.cpp:138-147 | The sum of the distances goes down, or nothing changed at all. This is the termination argument of the outer loop. |
| Dijkstra.RelaxFromImproves | mpls_sim.cpp:141-143 | Distances never grow. A predecessor changes only with a strict decrease of the distance, and only to u. |
| Dijkstra.RelaxNeighbours | mpls_sim.cpp:136-147 | Processing a current entry keeps the whole loop invariant: sound predecessors, witnessed distances, sound frontier, every router covered. Either the total distance drops or nothing changes. |
| Dijkstra.CoveredAfterPop | mpls_sim.cpp:131-136 | Popping the top pair leaves every router covered, except the popped router itself when its pair was current. |
| Dijkstra.InitialState | mpls_sim.cpp:123-129 | The start state (all INF and -1, except the source at 0 with the frontier holding only (0, source)) satisfies the loop invariant. |
| Dijkstra.Settled | mpls_sim.cpp:131-148 | Once the frontier is empty, no link can be relaxed and each reached distance is exactly its predecessor's plus the link. |
| Dijkstra.SettledShortest | mpls_sim.cpp:131-148 | With no relaxable link left, no walk from the source to v costs less than dist[v], so the tentative distances are final. |
| Dijkstra.RunDijkstra | mpls_sim.cpp:122-148 | The result is rooted at the source and distances lie in [0, INF]. Each reached router's distance equals its predecessor's plus the link, and unreached routers keep -1. No link can be relaxed. dist[v] is at most the cost of every walk and, when finite, exactly the cost of some walk. |
| NextHop.Climb | mpls_sim.cpp:184-187 | Following prev from a reached router stops at a reached router whose predecessor is the source, never farther than where it started. |
| NextHop.NextHop | mpls_sim.cpp:172-190 | A row shows no route exactly when the distance is INF. The source row is (source, 0). Any other row shows the distance and a hop that is a direct child of the source. |
| NextHop.TreePath | mpls_sim.cpp:184-187 | The predecessor-tree path from the source to v: it starts at the source, ends at v, each step follows prev, and distances strictly increase along it. |
| NextHop.ClimbIsFirstTreeHop | mpls_sim.cpp:184-187 | The predecessor walk stops at the second router of the tree path from the source. |
| NextHop.NextHopIsFirstTreeHop | mpls_sim.cpp:169-190 | For a reachable destination other than the source, the row reports the tree path's first hop and the destination's distance. |
| NextHop.ShortestPathTreeDescends | mpls_sim.cpp:141-143 | With positive links, every predecessor runDijkstra records is strictly closer to the source, so the predecessor walk terminates. |
| NextHop.TreePathCost | mpls_sim.cpp:138-147 | The tree path is a walk through real links whose cost is exactly the reported distance. |
| NextHop.RoutingTableRow | mpls_sim.cpp:122-190 | A row shows no route exactly when every walk costs at least INF. Otherwise the next hop starts a walk costing exactly the reported cost, and no walk from the source costs less. |
| NextHop.FixtureDistancesForced | mpls_sim.cpp:97-148 | On the example network, any result meeting runDijkstra's contract has distances [0, 10, 20, 30]. |
| NextHop.FixtureRoutingFromR0 | mpls_sim.cpp:281-283 | runDijkstra(0) on the example network gives distances [0, 10, 20, 30] and predecessors -1, 0, 0 and 1 or 2. Its routing rows are R0 (0), R1 (10), R2 (20) and R3 via the predecessor of 3 (30). |

## Left out

- Console output: the routing-table header and rows, and the forwarding
  messages, are text formatting. The model returns the values they print
  (`RouteEntry`, the `Event` trace).
- main's loop runs runDijkstra from every router. The model proves
  RunDijkstra for any source and works out only source 0 of the example
  network.
- The priority queue is a sequence. Pop takes the smallest (distance, router)
  pair, as `std::priority_queue` with `greater<>` does. Its heap layout is
  not modelled.
- The program terminating on an uncaught `std::out_of_range` is modelled as
  the `NoBinding(router)` status, with the packet as the caller would hold it.
- 32-bit `int` arithmetic is not modelled. Every sum the source forms is at
  most INF + INF, which cannot overflow, so unbounded integers agree with it.
- NextHop.Climb: requires that every predecessor be strictly closer than its
  router (Descending). For a runDijkstra result this holds when every real
  link between distinct routers has a positive cost, as in the example
  network. With zero-cost links it is not established.
- NextHop.RoutingTableRow: requires positive links, for the same reason.
- NextHop.FixtureRoutingFromR0: does not pin prev[3] to 1. Router 3 is
  reached at cost 30 through both 1 and 2. The source's pop order makes it
  pick 1, but the contract of RunDijkstra states only what any tie-break
  guarantees, so the next hop of R3 is proved to be 1 or 2.
- The default constructors are not modelled. `LabelOp()` is called only by
  `std::map::operator[]` in initializeLFIB, and the assignment overwrites its
  value at once, so it has no observable effect. `FEC()` is never called.
