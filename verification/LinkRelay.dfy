/** The packets of a link, and the proof that establishes it, on the chain of nodes its request went along. */
module LinkRelay {
  import opened Basics
  import opened PacketFormat
  import opened Relay
  import opened RelayChain

  /** Any packet of an established link: data, resources, keepalives, proofs over the link. */
  predicate IsLinkPacket(raw: Raw)
    requires WellFormed(raw)
  {
    && !InTransport(raw[0]) && DestinationType(raw) == LINK
    && (PacketType(raw) == DATA || PacketType(raw) == PROOF) && Context(raw) != LRPROOF
  }

  /** No station takes the packet for a duplicate. */
  ghost predicate Admitted(c: Primitives, stations: seq<Station>, raw: Raw)
    requires WellFormed(raw)
  {
    Exempt(Context(raw)) || Unseen(c, stations, HashablePart(raw))
  }

  lemma {:induction false} StationRelays(c: Primitives, station: Station, raw: Raw, destination: Raw, remaining: Byte, hops: Byte, outbound: bool)
    requires WellFormed(raw) && IsLinkPacket(raw) && Admitted(c, [station], raw)
    requires LinkedAt(station, Destination(raw), destination, remaining, hops)
    requires Destination(raw) !in station.node.reverses
    requires raw[1] + 1 == if outbound then hops else remaining
    ensures Inbound(c, station.node, if outbound then station.inward else station.outward, raw)
            == Outcome(station.node.(seen := station.node.seen + {PacketHash(c, raw)}),
                       [Send(if outbound then station.outward else station.inward, Bumped(raw))])
  {
    var on := if outbound then station.inward else station.outward;
    assert station in [station];
    assert Passes(c, station.node, raw);
    assert Remembered(c, station.node, raw) == station.node;
    var second := LinkTransport(c, station.node, on, raw);
    assert second.sends == [Send(if outbound then station.outward else station.inward, Bumped(raw))];
    assert ProofTransport(c, second.node, on, raw) == Outcome(second.node, []);
    assert [] + second.sends + [] == second.sends;
  }

  lemma {:induction false} LinkPacketGoesOut(c: Primitives, stations: seq<Station>, destination: Raw, raw: Raw)
    requires WellFormed(raw) && IsLinkPacket(raw) && Admitted(c, stations, raw)
    requires Linked(stations, Destination(raw), destination, raw[1]) && Unreturned(stations, Destination(raw))
    ensures var journey := CarryOut(c, stations, raw);
            journey.Carried? && WellFormed(journey.raw) && journey.raw[0] == raw[0] && Body(journey.raw) == Body(raw)
    decreases |stations|
  {
    if stations != [] {
      StationRelays(c, stations[0], raw, destination, Distance(stations), raw[1] + 1, true);
      LinkPacketGoesOut(c, stations[1..], destination, Bumped(raw));
    }
  }

  /** The packet as it was, so many hops later. */
  predicate Returning(packet: Raw, raw: Raw, hops: Byte)
    requires WellFormed(packet)
  {
    WellFormed(raw) && raw[0] == packet[0] && Body(raw) == Body(packet) && raw[1] == hops
  }

  lemma {:induction false} StationRelaysBack(c: Primitives, station: Station, packet: Raw, raw: Raw, destination: Raw, taken: Byte, hops: Byte)
    requires WellFormed(packet) && IsLinkPacket(packet) && Admitted(c, [station], packet)
    requires Returning(packet, raw, taken)
    requires LinkedAt(station, Destination(packet), destination, taken + 1, hops)
    requires Destination(packet) !in station.node.reverses
    ensures var outcome := Inbound(c, station.node, station.outward, raw);
            SendsOn(outcome, station.inward) && Returning(packet, outcome.sends[0].raw, taken + 1)
  {
    StationRelays(c, station, raw, destination, taken + 1, hops, false);
  }

  lemma {:induction false} BackOneStation(c: Primitives, stations: seq<Station>, packet: Raw)
    requires stations != [] && CarryBack(c, stations[1..], packet).Carried?
    requires SendsOn(Inbound(c, stations[0].node, stations[0].outward, CarryBack(c, stations[1..], packet).raw), stations[0].inward)
    ensures var outcome := Inbound(c, stations[0].node, stations[0].outward, CarryBack(c, stations[1..], packet).raw);
            CarryBack(c, stations, packet).Carried? && CarryBack(c, stations, packet).raw == outcome.sends[0].raw
  {
  }

  /** A chain ready to relay a packet of the link. */
  ghost predicate Relaying(c: Primitives, stations: seq<Station>, destination: Raw, taken: Byte, raw: Raw)
    requires WellFormed(raw)
  {
    Admitted(c, stations, raw) && Linked(stations, Destination(raw), destination, taken) && Unreturned(stations, Destination(raw))
  }

  lemma {:induction false} RelayingParts(c: Primitives, stations: seq<Station>, destination: Raw, taken: Byte, raw: Raw)
    requires WellFormed(raw) && stations != [] && Relaying(c, stations, destination, taken, raw)
    ensures Relaying(c, stations[1..], destination, taken + 1, raw)
    ensures Admitted(c, [stations[0]], raw) && Destination(raw) !in stations[0].node.reverses
    ensures LinkedAt(stations[0], Destination(raw), destination, Distance(stations[1..]) + 1, taken + 1)
  {
    assert stations[0] in stations;
  }

  lemma {:induction false} LinkPacketComesBack(c: Primitives, stations: seq<Station>, destination: Raw, taken: Byte, raw: Raw)
    requires WellFormed(raw) && IsLinkPacket(raw) && raw[1] == 0 && Relaying(c, stations, destination, taken, raw)
    ensures CarryBack(c, stations, raw).Carried? && Returning(raw, CarryBack(c, stations, raw).raw, Distance(stations))
    decreases |stations|
  {
    if stations != [] {
      RelayingParts(c, stations, destination, taken, raw);
      LinkPacketComesBack(c, stations[1..], destination, taken + 1, raw);
      StationRelaysBack(c, stations[0], raw, CarryBack(c, stations[1..], raw).raw, destination, Distance(stations[1..]), taken + 1);
      BackOneStation(c, stations, raw);
    }
  }

  lemma {:induction false} LaterKeepsLinked(before: seq<Station>, after: seq<Station>, id: Raw, destination: Raw, taken: Byte)
    requires Later(before, after) && Linked(before, id, destination, taken)
    ensures Linked(after, id, destination, taken) && Distance(after) == Distance(before)
    decreases |before|
  {
    if before != [] {
      assert Continues(before[0], after[0]);
      forall i | 0 <= i < |before[1..]| ensures Continues(before[1..][i], after[1..][i]) {
        assert Continues(before[i + 1], after[i + 1]);
      }
      LaterKeepsLinked(before[1..], after[1..], id, destination, taken + 1);
    }
  }

  /**
   The entries left by a link request make every later packet of the link, from either end,
   match the hop check at each node and reach the other end unchanged, whatever other
   traffic has passed, and whether or not a node's two interfaces differ.
   */
  lemma {:induction false} LinkCarriesBothWays(c: Primitives, stations: seq<Station>, request: Raw, traffic: seq<Arrival>, packet: Raw)
    requires Ready(c, stations, request) && request[1] == 0
    requires WellFormed(packet) && IsLinkPacket(packet) && packet[1] == 0 && Destination(packet) == LinkId(c, request)
    ensures var there := CarryOut(c, stations, request);
            && there.Carried?
            && var later := After(c, there.stations, traffic);
               (Admitted(c, later, packet) && Unreturned(later, Destination(packet)) ==>
                  && Reaches(CarryOut(c, later, packet), packet)
                  && Reaches(CarryBack(c, later, packet), packet))
  {
    RequestArrives(c, stations, request);
    var there := CarryOut(c, stations, request);
    var later := After(c, there.stations, traffic);
    TrafficIsLater(c, there.stations, traffic);
    LaterKeepsLinked(there.stations, later, Destination(packet), Destination(request), 0);
    if Admitted(c, later, packet) && Unreturned(later, Destination(packet)) {
      LinkPacketGoesOut(c, later, Destination(request), packet);
      LinkPacketComesBack(c, later, Destination(request), 0, packet);
    }
  }

  ghost predicate Reaches(journey: Journey, packet: Raw)
    requires WellFormed(packet)
  {
    journey.Carried? && WellFormed(journey.raw) && journey.raw[0] == packet[0] && Body(journey.raw) == Body(packet)
  }

  // ------------------------------------------------------- link request proofs

  predicate IsRequestProof(raw: Raw)
    requires WellFormed(raw)
  {
    !InTransport(raw[0]) && PacketType(raw) == PROOF && DestinationType(raw) == LINK && Context(raw) == LRPROOF
  }

  ghost predicate Recalls(stations: seq<Station>, destination: Raw, signingKey: Raw) {
    forall s :: s in stations ==> destination in s.node.identities && s.node.identities[destination] == signingKey
  }

  lemma {:induction false} StationReturnsRequestProof(c: Primitives, station: Station, raw: Raw, destination: Raw, signingKey: Raw, remaining: Byte, hops: Byte)
    requires WellFormed(raw) && IsRequestProof(raw) && Unseen(c, [station], HashablePart(raw))
    requires LinkedAt(station, Destination(raw), destination, remaining, hops)
    requires Recalls([station], destination, signingKey) && Vouched(c, signingKey, Destination(raw), Data(raw))
    ensures Inbound(c, station.node, station.outward, raw).sends == [Send(station.inward, Bumped(raw))]
  {
    assert station in [station];
    assert Passes(c, station.node, raw);
    assert Remembered(c, station.node, raw) == station.node;
    assert LinkTransport(c, station.node, station.outward, raw) == Outcome(station.node, []);
    assert [] + [] + [Send(station.inward, Bumped(raw))] == [Send(station.inward, Bumped(raw))];
  }

  /** A valid proof of a link request comes back along the chain. */
  lemma {:induction false} RequestProofComesBack(c: Primitives, stations: seq<Station>, destination: Raw, signingKey: Raw, taken: Byte, raw: Raw)
    requires WellFormed(raw) && IsRequestProof(raw) && Unseen(c, stations, HashablePart(raw))
    requires Linked(stations, Destination(raw), destination, taken)
    requires Recalls(stations, destination, signingKey) && Vouched(c, signingKey, Destination(raw), Data(raw))
    ensures Reaches(CarryBack(c, stations, raw), raw)
    decreases |stations|
  {
    if stations != [] {
      RequestProofComesBack(c, stations[1..], destination, signingKey, taken + 1, raw);
      var rest := CarryBack(c, stations[1..], raw);
      StationReturnsRequestProof(c, stations[0], rest.raw, destination, signingKey, Distance(stations), taken + 1);
    }
  }
}
