/**
 Label forwarding state: forwarding equivalence classes (FECs) and their
 ordering, label operations, and the ingress and per-router transit label
 forwarding information bases (LFIBs).
 */
module Labels {
  import opened Topology

  /** Label value of a packet that carries no label. */
  const NO_LABEL: int := 0

  /** outLabel value meaning "pop the label" at the egress router. */
  const POP_LABEL: int := -1

  /** A forwarding equivalence class: all packets from source to destination. */
  datatype Fec = Fec(source: int, destination: int)

  /** FEC::operator<, the key order of the ingress std::map. */
  predicate FecLess(a: Fec, b: Fec) {
    if a.source != b.source then a.source < b.source else a.destination < b.destination
  }

  /** The order is lexicographic on (source, destination). */
  lemma FecLessIsLexicographic(a: Fec, b: Fec)
    ensures FecLess(a, b) <==> a.source < b.source || (a.source == b.source && a.destination < b.destination)
  {
  }

  /** FecLess is a strict total order: irreflexive, transitive, and total on distinct FECs. */
  lemma FecLessIsStrictTotalOrder(a: Fec, b: Fec, c: Fec)
    ensures !FecLess(a, a)
    ensures FecLess(a, b) && FecLess(b, c) ==> FecLess(a, c)
    ensures a != b ==> (FecLess(a, b) <==> !FecLess(b, a))
  {
  }

  /**
   Two FECs are equivalent under the map's order exactly when they are equal,
   so a map keyed by Fec values has the same keys as the std::map.
   */
  lemma FecEquivalenceIsEquality(a: Fec, b: Fec)
    ensures !FecLess(a, b) && !FecLess(b, a) <==> a == b
  {
  }

  /** An LFIB entry: the outgoing label (or POP_LABEL) and the next hop router. */
  datatype LabelOp = LabelOp(outLabel: int, nextHop: int)

  /** The ingress LFIB keyed by FEC and one transit/egress LFIB per router keyed by in-label. */
  datatype Lfib = Lfib(ingress: map<Fec, LabelOp>, transit: seq<map<int, LabelOp>>)

  /** A label that a router may push or swap in: neither "no label" nor the pop marker. */
  predicate RealLabel(l: int) {
    l != NO_LABEL && l != POP_LABEL
  }

  /**
   The tables switch fec along ingress -> h1 -> h2: the ingress pushes a real
   label and sends to h1, h1 knows that label and swaps in a real label towards
   h2, h2 knows that label and pops it, and h2 is the FEC's destination.
   */
  predicate SwitchedPath(t: Lfib, fec: Fec, h1: int, h2: int) {
    && 0 <= h1 < |t.transit| && 0 <= h2 < |t.transit|
    && fec in t.ingress
    && var push := t.ingress[fec];
       && RealLabel(push.outLabel) && push.nextHop == h1
       && push.outLabel in t.transit[h1]
       && var swap := t.transit[h1][push.outLabel];
          && RealLabel(swap.outLabel) && swap.nextHop == h2
          && swap.outLabel in t.transit[h2]
          && t.transit[h2][swap.outLabel].outLabel == POP_LABEL
          && h2 == fec.destination
  }

  /**
   initializeLFIB: FEC (0, 3) pushes 300 towards router 2, router 2 swaps 300
   for 777 towards router 3, router 3 pops 777; no other binding exists.
   */
  function FixtureLfib(): (t: Lfib)
    ensures |t.transit| == NUM_ROUTERS
    ensures t.ingress.Keys == {Fec(0, 3)}
    ensures t.transit[0] == map[] && t.transit[1] == map[]
    ensures t.transit[2].Keys == {300} && t.transit[3].Keys == {777}
    ensures SwitchedPath(t, Fec(0, 3), 2, 3)
  {
    var empty: map<int, LabelOp> := map[];
    Lfib(map[Fec(0, 3) := LabelOp(300, 2)],
         [empty, empty, empty[300 := LabelOp(777, 3)], empty[777 := LabelOp(POP_LABEL, -1)]])
  }
}
