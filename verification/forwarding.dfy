/**
 Label-switched forwarding of one packet along the hard-wired chain
 router 0 (ingress, push) -> router 2 (transit, swap) -> router 3 (egress, pop).
 A lookup miss (std::map::at throwing) stops the packet where it is.
 */
module Forwarding {
  import opened Topology
  import opened Labels

  datatype Packet = Packet(source: int, destination: int, labelValue: int)

  /** The Packet constructor: a new packet carries no label, so it belongs to the FEC (src, dst) alone. */
  function NewPacket(src: int, dst: int): (p: Packet)
    ensures FecOf(p) == Fec(src, dst)
    ensures p.labelValue == NO_LABEL && !RealLabel(p.labelValue)
  {
    Packet(src, dst, NO_LABEL)
  }

  /** The values each router reports for the packet it handled. */
  datatype Event =
    | Pushed(router: int, outLabel: int, nextHop: int)
    | Swapped(router: int, inLabel: int, outLabel: int, nextHop: int)
    | Popped(router: int, inLabel: int)

  /** Delivered once the egress router has handled the packet; NoBinding when a router's lookup missed. */
  datatype Status = Delivered | NoBinding(router: int)

  /** The packet as the caller sees it afterwards, what each router reported, and how it ended. */
  datatype Run = Run(packet: Packet, trace: seq<Event>, status: Status)

  /** The ingress key of a packet. */
  function FecOf(p: Packet): Fec {
    Fec(p.source, p.destination)
  }

  /**
   processR3: look the in-label up in router 3's table; if the entry's
   outLabel is POP_LABEL the packet becomes unlabelled, otherwise it keeps
   its label. A missing entry leaves the packet untouched.
   */
  function ProcessR3(t: Lfib, p: Packet): (r: Run)
    requires |t.transit| == NUM_ROUTERS
    ensures r.packet.source == p.source && r.packet.destination == p.destination
    ensures r.status == Delivered <==> p.labelValue in t.transit[3]
    ensures r.status != Delivered ==> r.status == NoBinding(3) && r.packet == p && r.trace == []
    ensures r.status == Delivered ==> r.trace == [Popped(3, p.labelValue)]
    ensures r.status == Delivered && t.transit[3][p.labelValue].outLabel == POP_LABEL ==> r.packet.labelValue == NO_LABEL
    ensures r.status == Delivered && t.transit[3][p.labelValue].outLabel != POP_LABEL ==> r.packet == p
  {
    if p.labelValue !in t.transit[3] then Run(p, [], NoBinding(3))
    else
      var op := t.transit[3][p.labelValue];
      var p' := if op.outLabel == POP_LABEL then p.(labelValue := NO_LABEL) else p;
      Run(p', [Popped(3, p.labelValue)], Delivered)
  }

  /**
   processR2: look the in-label up in router 2's table, swap in the entry's
   outLabel and hand the packet to processR3.
   */
  function ProcessR2(t: Lfib, p: Packet): (r: Run)
    requires |t.transit| == NUM_ROUTERS
    ensures r.packet.source == p.source && r.packet.destination == p.destination
    ensures p.labelValue !in t.transit[2] <==> r.status == NoBinding(2)
    ensures p.labelValue !in t.transit[2] ==> r.packet == p && r.trace == []
    ensures p.labelValue in t.transit[2] ==>
              var op := t.transit[2][p.labelValue];
              && |r.trace| >= 1 && r.trace[0] == Swapped(2, p.labelValue, op.outLabel, op.nextHop)
  {
    if p.labelValue !in t.transit[2] then Run(p, [], NoBinding(2))
    else
      var op := t.transit[2][p.labelValue];
      var r3 := ProcessR3(t, p.(labelValue := op.outLabel));
      r3.(trace := [Swapped(2, p.labelValue, op.outLabel, op.nextHop)] + r3.trace)
  }

  /**
   processR0: look the packet's FEC up in the ingress table, push the entry's
   outLabel and hand the packet to processR2.
   */
  function ProcessR0(t: Lfib, p: Packet): (r: Run)
    requires |t.transit| == NUM_ROUTERS
    ensures r.packet.source == p.source && r.packet.destination == p.destination
    ensures FecOf(p) !in t.ingress <==> r.status == NoBinding(0)
    ensures FecOf(p) !in t.ingress ==> r.packet == p && r.trace == []
    ensures FecOf(p) in t.ingress ==>
              var op := t.ingress[FecOf(p)];
              && |r.trace| >= 1 && r.trace[0] == Pushed(0, op.outLabel, op.nextHop)
  {
    if FecOf(p) !in t.ingress then Run(p, [], NoBinding(0))
    else
      var op := t.ingress[FecOf(p)];
      var r2 := ProcessR2(t, p.(labelValue := op.outLabel));
      r2.(trace := [Pushed(0, op.outLabel, op.nextHop)] + r2.trace)
  }

  // ---------------------------------------------------------------------------
  // The chain as a whole
  // ---------------------------------------------------------------------------

  /** The label router 0 pushes, when the packet's FEC is bound. */
  function IngressLabel(t: Lfib, p: Packet): int
    requires FecOf(p) in t.ingress
  {
    t.ingress[FecOf(p)].outLabel
  }

  /**
   Reference outcome of the chain, lookup by lookup: the first router whose
   table lacks the key is where the packet stops, with the label it arrived
   with; otherwise it is delivered.
   */
  function ExpectedStatus(t: Lfib, p: Packet): Status
    requires |t.transit| == NUM_ROUTERS
  {
    if FecOf(p) !in t.ingress then NoBinding(0)
    else
      var l1 := t.ingress[FecOf(p)].outLabel;
      if l1 !in t.transit[2] then NoBinding(2)
      else
        var l2 := t.transit[2][l1].outLabel;
        if l2 !in t.transit[3] then NoBinding(3) else Delivered
  }

  /**
   The chain stops exactly where the first lookup misses, and the packet then
   holds the label of the last router that succeeded (its own label if the
   ingress lookup missed). The trace has one event per router that succeeded.
   */
  lemma ForwardingOutcome(t: Lfib, p: Packet)
    requires |t.transit| == NUM_ROUTERS
    ensures var r := ProcessR0(t, p);
            && r.status == ExpectedStatus(t, p)
            && (r.status == NoBinding(0) ==> r.packet == p && |r.trace| == 0)
            && (r.status == NoBinding(2) ==> r.packet == p.(labelValue := IngressLabel(t, p)) && |r.trace| == 1)
            && (r.status == NoBinding(3) ==>
                  r.packet == p.(labelValue := t.transit[2][IngressLabel(t, p)].outLabel) && |r.trace| == 2)
            && (r.status == Delivered ==> |r.trace| == 3)
  {
  }

  /**
   A delivered packet is unlabelled exactly because router 3's entry says
   POP_LABEL; any other entry leaves the swapped-in label on the packet.
   */
  lemma DeliveredLabel(t: Lfib, p: Packet)
    requires |t.transit| == NUM_ROUTERS
    requires ProcessR0(t, p).status == Delivered
    ensures var l2 := t.transit[2][IngressLabel(t, p)].outLabel;
            && l2 in t.transit[3]
            && ProcessR0(t, p).packet.labelValue == (if t.transit[3][l2].outLabel == POP_LABEL then NO_LABEL else l2)
  {
    ForwardingOutcome(t, p);
  }

  /**
   When the tables switch the packet's FEC along 0 -> 2 -> 3, the hard-wired
   chain visits exactly the routers the tables name as next hops, and the
   packet arrives at its destination unlabelled.
   */
  lemma SwitchedPathDelivers(t: Lfib, p: Packet)
    requires |t.transit| == NUM_ROUTERS
    requires SwitchedPath(t, FecOf(p), 2, 3)
    ensures var l1 := t.ingress[FecOf(p)].outLabel;
            var l2 := t.transit[2][l1].outLabel;
            ProcessR0(t, p) == Run(p.(labelValue := NO_LABEL),
                                   [Pushed(0, l1, 2), Swapped(2, l1, l2, 3), Popped(3, l2)],
                                   Delivered)
  {
  }

  /**
   main's simulation: a new packet from router 0 to router 3 is pushed label
   300 at router 0, swapped 300 -> 777 at router 2, popped at router 3, and
   ends unlabelled with its source and destination unchanged.
   */
  lemma FixtureForwarding()
    ensures NewPacket(0, 3).labelValue == NO_LABEL
    ensures ProcessR0(FixtureLfib(), NewPacket(0, 3))
         == Run(Packet(0, 3, NO_LABEL), [Pushed(0, 300, 2), Swapped(2, 300, 777, 3), Popped(3, 777)], Delivered)
  {
    SwitchedPathDelivers(FixtureLfib(), NewPacket(0, 3));
  }

  /** With the example tables, a packet of any other FEC fails at the ingress lookup, untouched. */
  lemma FixtureUnboundFecFails(p: Packet)
    requires FecOf(p) != Fec(0, 3)
    ensures ProcessR0(FixtureLfib(), p) == Run(p, [], NoBinding(0))
  {
  }
}
