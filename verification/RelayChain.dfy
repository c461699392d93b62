/** Packets carried by a chain of transport nodes, of any length, in both directions. */
module RelayChain {
  import opened Basics
  import opened PacketFormat
  import opened Signalling
  import opened Relay

  /** A node between its interface towards the origin and the one towards the destination. */
  datatype Station = Station(node: Node, inward: Interface, outward: Interface)

  datatype Journey = Lost | Carried(stations: seq<Station>, raw: Raw)

  /** A station must send the packet on once, over the expected interface. */
  predicate SendsOn(outcome: Outcome, via: Interface) {
    |outcome.sends| == 1 && outcome.sends[0].via == via
  }

  /** From the origin to the destination. */
  function CarryOut(c: Primitives, stations: seq<Station>, raw: Raw): Journey
    decreases |stations|
  {
    if stations == [] then Carried([], raw)
    else
      var outcome := Inbound(c, stations[0].node, stations[0].inward, raw);
      if !SendsOn(outcome, stations[0].outward) then Lost
      else
        var rest := CarryOut(c, stations[1..], outcome.sends[0].raw);
        if rest.Lost? then Lost else Carried([stations[0].(node := outcome.node)] + rest.stations, rest.raw)
  }

  /** From the destination back to the origin. */
  function CarryBack(c: Primitives, stations: seq<Station>, raw: Raw): Journey
    decreases |stations|
  {
    if stations == [] then Carried([], raw)
    else
      var rest := CarryBack(c, stations[1..], raw);
      if rest.Lost? then Lost
      else
        var outcome := Inbound(c, stations[0].node, stations[0].outward, rest.raw);
        if !SendsOn(outcome, stations[0].inward) then Lost
        else Carried([stations[0].(node := outcome.node)] + rest.stations, outcome.sends[0].raw)
  }

  /** Hops to the destination from the front of the chain, as a byte counts them. */
  function Distance(stations: seq<Station>): Byte
    decreases |stations|
  {
    if stations == [] then 0 else Distance(stations[1..]) + 1
  }

  /** Each station has a path to the destination by way of the next, one hop shorter at each. */
  ghost predicate Routed(stations: seq<Station>, destination: Raw)
    decreases |stations|
  {
    stations == [] ||
    (var here := stations[0];
     && destination in here.node.paths
     && here.node.paths[destination].via == here.outward
     && here.node.paths[destination].hops == Distance(stations)
     && (|stations| > 1 ==> Distance(stations) > 1 && here.node.paths[destination].nextHop == stations[1].node.id)
     && Routed(stations[1..], destination))
  }

  /** A packet on its way to the front of the chain, addressed to the first station. */
  predicate Entering(stations: seq<Station>, raw: Raw) {
    && WellFormed(raw)
    && if stations == [] then !InTransport(raw[0])
       else InTransport(raw[0]) && TransportId(raw) == Some(stations[0].node.id)
  }

  ghost predicate Unseen(c: Primitives, stations: seq<Station>, part: Raw) {
    forall s :: s in stations ==> c.hash(part) !in s.node.seen
  }

  // ------------------------------------------------------------ one hop forward

  /** A packet in transport leaves a station addressed to the next, or to nobody after the last. */
  lemma {:induction false} HeaderReaches(stations: seq<Station>, path: Path, raw: Raw)
    requires stations != [] && Entering(stations, raw)
    requires path.hops == Distance(stations)
    requires |stations| > 1 ==> Distance(stations) > 1 && path.nextHop == stations[1].node.id
    ensures Entering(stations[1..], Forwarded(path, raw))
    ensures Forwarded(path, raw)[1] == raw[1] + 1
    ensures Forwarded(path, raw)[0] & 0x0F == raw[0] & 0x0F
  {
    var w := HeaderRewrite(path, raw);
    HeaderRewriteKeepsBody(w, raw);
    FlagBits(raw[0]);
    var r := Apply(w, raw);
    if |stations| > 1 {
      assert r[2..2 + ADDRESS] == path.nextHop;
      assert stations[1..][0] == stations[1];
    } else {
      assert stations[1..] == [];
      assert Distance([]) == 0;
      assert path.hops == 1;
    }
  }

  lemma {:induction false} SameKind(raw: Raw, raw': Raw)
    requires WellFormed(raw) && WellFormed(raw') && raw[0] & 0x0F == raw'[0] & 0x0F
    ensures PacketType(raw) == PacketType(raw') && DestinationType(raw) == DestinationType(raw')
  {
    assert raw[0] & 0x03 == (raw[0] & 0x0F) & 0x03;
    assert raw'[0] & 0x03 == (raw'[0] & 0x0F) & 0x03;
    assert raw[0] & 0x0C == (raw[0] & 0x0F) & 0x0C;
    assert raw'[0] & 0x0C == (raw'[0] & 0x0F) & 0x0C;
  }

  // -------------------------------------------------- data packets and their proofs

  predicate IsData(raw: Raw)
    requires WellFormed(raw)
  {
    PacketType(raw) == DATA && DestinationType(raw) == SINGLE
  }

  ghost predicate Unlinked(stations: seq<Station>, key: Raw) {
    forall s :: s in stations ==> key !in s.node.links
  }

  ghost predicate Unreturned(stations: seq<Station>, key: Raw) {
    forall s :: s in stations ==> key !in s.node.reverses
  }

  /** Every station knows where a proof with this address goes back to. */
  ghost predicate Returns(stations: seq<Station>, key: Raw) {
    forall s :: s in stations ==> key in s.node.reverses && s.node.reverses[key] == ReverseEntry(s.inward, s.outward)
  }

  lemma {:induction false} StationForwardsData(c: Primitives, stations: seq<Station>, raw: Raw)
    requires stations != [] && Entering(stations, raw) && IsData(raw)
    requires Routed(stations, Destination(raw))
    requires Destination(raw) !in stations[0].node.links && PacketHash(c, raw) !in stations[0].node.seen
    ensures var node := stations[0].node;
            Inbound(c, node, stations[0].inward, raw)
            == Outcome(node.(seen := node.seen + {PacketHash(c, raw)},
                             reverses := Inserted(node.reverses, TruncatedHash(c, raw), ReverseEntry(stations[0].inward, stations[0].outward))),
                       [Send(stations[0].outward, Forwarded(node.paths[Destination(raw)], raw))])
  {
    var node := stations[0].node;
    assert Passes(c, node, raw);
    var known := Remembered(c, node, raw);
    assert PacketType(raw) != LINKREQUEST;
    assert known == node.(seen := node.seen + {PacketHash(c, raw)});
    var first := Forward(c, known, stations[0].inward, raw);
    assert LinkTransport(c, first.node, stations[0].inward, raw) == Outcome(first.node, []);
    assert ProofTransport(c, first.node, stations[0].inward, raw) == Outcome(first.node, []);
    assert first.sends + [] + [] == first.sends;
  }

  /** A data packet reaches its destination as it was, and every station can return its proof. */
  lemma {:induction false} DataArrives(c: Primitives, stations: seq<Station>, raw: Raw)
    requires Entering(stations, raw) && IsData(raw) && Routed(stations, Destination(raw))
    requires Unseen(c, stations, HashablePart(raw)) && Unlinked(stations, Destination(raw))
    requires Unreturned(stations, TruncatedHash(c, raw))
    ensures var journey := CarryOut(c, stations, raw);
            && journey.Carried? && |journey.stations| == |stations| && Returns(journey.stations, TruncatedHash(c, raw))
            && WellFormed(journey.raw) && !InTransport(journey.raw[0])
            && HashablePart(journey.raw) == HashablePart(raw)
    decreases |stations|
  {
    if stations != [] {
      var path := stations[0].node.paths[Destination(raw)];
      StationForwardsData(c, stations, raw);
      HeaderReaches(stations, path, raw);
      var next := Forwarded(path, raw);
      SameKind(raw, next);
      assert HashablePart(next) == HashablePart(raw);
      DataArrives(c, stations[1..], next);
      var outcome := Inbound(c, stations[0].node, stations[0].inward, raw);
      var journey := CarryOut(c, stations, raw);
      var rest := CarryOut(c, stations[1..], next);
      assert journey == Carried([stations[0].(node := outcome.node)] + rest.stations, rest.raw);
    }
  }

  function Bumped(raw: Raw): (r: Raw)
    requires WellFormed(raw)
    ensures WellFormed(r) && Body(r) == Body(raw) && r[0] == raw[0] && r[1] == raw[1] + 1
  {
    HeaderRewriteKeepsBody(Bump(raw[1] + 1), raw);
    Apply(Bump(raw[1] + 1), raw)
  }

  /** A proof of a packet, as its destination sends it. */
  predicate IsPacketProof(raw: Raw)
    requires WellFormed(raw)
  {
    && !InTransport(raw[0]) && PacketType(raw) == PROOF && DestinationType(raw) == SINGLE
    && Context(raw) != LRPROOF && Context(raw) != RESOURCE_PRF
  }

  lemma {:induction false} StationReturnsProof(c: Primitives, station: Station, raw: Raw)
    requires WellFormed(raw) && IsPacketProof(raw)
    requires PacketHash(c, raw) !in station.node.seen && Destination(raw) !in station.node.links
    requires Returns([station], Destination(raw))
    ensures var node := station.node;
            Inbound(c, node, station.outward, raw)
            == Outcome(node.(seen := node.seen + {PacketHash(c, raw)}), [Send(station.inward, Bumped(raw))])
  {
    var node := station.node;
    assert station in [station];
    var known := Remembered(c, node, raw);
    assert LinkTransport(c, known, station.outward, raw) == Outcome(known, []);
    assert [] + [] + [Send(station.inward, Bumped(raw))] == [Send(station.inward, Bumped(raw))];
  }

  lemma {:induction false} ProofArrives(c: Primitives, stations: seq<Station>, proof: Raw)
    requires WellFormed(proof) && IsPacketProof(proof) && Returns(stations, Destination(proof))
    requires Unseen(c, stations, HashablePart(proof)) && Unlinked(stations, Destination(proof))
    ensures var journey := CarryBack(c, stations, proof);
            && journey.Carried? && WellFormed(journey.raw) && journey.raw[0] == proof[0] && Body(journey.raw) == Body(proof)
    decreases |stations|
  {
    if stations != [] {
      ProofArrives(c, stations[1..], proof);
      var rest := CarryBack(c, stations[1..], proof);
      assert Returns([stations[0]], Destination(proof));
      StationReturnsProof(c, stations[0], rest.raw);
    }
  }

  // ------------------------------------------------------------------- later on

  /** The same stations after more traffic of any kind. */
  ghost predicate Later(before: seq<Station>, after: seq<Station>) {
    && |before| == |after|
    && forall i :: 0 <= i < |before| ==> Continues(before[i], after[i])
  }

  ghost predicate Continues(before: Station, after: Station) {
    after.inward == before.inward && after.outward == before.outward && Extends(before.node, after.node)
  }

  datatype Arrival = Arrival(station: nat, on: Interface, raw: Raw)

  /** Any packets arriving anywhere. */
  function After(c: Primitives, stations: seq<Station>, traffic: seq<Arrival>): (r: seq<Station>)
    ensures |r| == |stations|
    decreases |traffic|
  {
    if traffic == [] then stations
    else
      var a := traffic[0];
      if a.station < |stations| then
        var here := stations[a.station];
        After(c, stations[a.station := here.(node := Inbound(c, here.node, a.on, a.raw).node)], traffic[1..])
      else After(c, stations, traffic[1..])
  }

  lemma {:induction false} TrafficIsLater(c: Primitives, stations: seq<Station>, traffic: seq<Arrival>)
    ensures Later(stations, After(c, stations, traffic))
    decreases |traffic|
  {
    if traffic != [] {
      var a := traffic[0];
      if a.station < |stations| {
        var here := stations[a.station];
        var next := stations[a.station := here.(node := Inbound(c, here.node, a.on, a.raw).node)];
        InboundExtends(c, here.node, a.on, a.raw);
        TrafficIsLater(c, next, traffic[1..]);
        LaterTransitive(stations, next, After(c, stations, traffic));
      } else {
        TrafficIsLater(c, stations, traffic[1..]);
      }
    }
  }

  lemma {:induction false} LaterTransitive(first: seq<Station>, second: seq<Station>, third: seq<Station>)
    requires Later(first, second) && Later(second, third)
    ensures Later(first, third)
  {
    forall i | 0 <= i < |first| ensures Continues(first[i], third[i]) {
      assert Continues(first[i], second[i]) && Continues(second[i], third[i]);
      ExtendsTransitive(first[i].node, second[i].node, third[i].node);
    }
  }

  lemma {:induction false} JourneyIsLater(c: Primitives, stations: seq<Station>, raw: Raw)
    ensures var journey := CarryOut(c, stations, raw);
            journey.Carried? ==> Later(stations, journey.stations)
    decreases |stations|
  {
    if stations != [] && CarryOut(c, stations, raw).Carried? {
      var outcome := Inbound(c, stations[0].node, stations[0].inward, raw);
      InboundExtends(c, stations[0].node, stations[0].inward, raw);
      JourneyIsLater(c, stations[1..], outcome.sends[0].raw);
      var rest := CarryOut(c, stations[1..], outcome.sends[0].raw);
      LaterInFront(stations, stations[0].(node := outcome.node), rest.stations);
    }
  }

  lemma {:induction false} LaterInFront(before: seq<Station>, first: Station, rest: seq<Station>)
    requires before != [] && Continues(before[0], first) && Later(before[1..], rest)
    ensures Later(before, [first] + rest)
  {
    forall i | 0 <= i < |before| ensures Continues(before[i], ([first] + rest)[i]) {
      if i > 0 { assert before[i] == before[1..][i - 1]; }
    }
  }

  lemma {:induction false} LaterKeepsReturns(before: seq<Station>, after: seq<Station>, key: Raw)
    requires Later(before, after) && Returns(before, key)
    ensures Returns(after, key)
  {
    forall s | s in after
      ensures key in s.node.reverses && s.node.reverses[key] == ReverseEntry(s.inward, s.outward)
    {
      var i :| 0 <= i < |after| && after[i] == s;
      assert Continues(before[i], after[i]) && before[i] in before;
    }
  }

  /** A packet as it leaves its sender: in transport unless the destination is next. */
  function Sent(stations: seq<Station>, packed: Raw): (r: Raw)
    requires WellFormed(packed) && !InTransport(packed[0])
    ensures WellFormed(r) && Body(r) == Body(packed) && r[0] & 0x0F == packed[0] & 0x0F && r[1] == packed[1]
    ensures Entering(stations, r)
  {
    if stations == [] then packed
    else
      var w := Insert(stations[0].node.id);
      HeaderRewriteKeepsBody(w, packed);
      FlagBits(packed[0]);
      var r := Apply(w, packed);
      assert r[2..2 + ADDRESS] == stations[0].node.id;
      r
  }

  /**
   Proofs find their way back. The sender waits for the hash of the packet it packed. The
   destination addresses its proof by the hash of the packet it received; however much
   traffic has passed since, the two are one, and the address leads through every station
   back to the sender.
   */
  lemma {:induction false} ProofReturnsToSender(c: Primitives, stations: seq<Station>, packed: Raw, traffic: seq<Arrival>, proof: Raw)
    requires WellFormed(packed) && !InTransport(packed[0]) && IsData(packed) && Routed(stations, Destination(packed))
    requires Unseen(c, stations, HashablePart(packed)) && Unlinked(stations, Destination(packed))
    requires Unreturned(stations, TruncatedHash(c, packed))
    requires WellFormed(proof) && IsPacketProof(proof)
    ensures var there := CarryOut(c, stations, Sent(stations, packed));
            && there.Carried? && WellFormed(there.raw) && PacketHash(c, there.raw) == PacketHash(c, packed)
            && Data(there.raw) == Data(packed)
            && var later := After(c, there.stations, traffic);
               (Destination(proof) == TruncatedHash(c, there.raw)
                && Unseen(c, later, HashablePart(proof)) && Unlinked(later, Destination(proof)) ==>
                  var back := CarryBack(c, later, proof);
                  && Destination(proof) == TruncatedHash(c, packed)
                  && back.Carried? && WellFormed(back.raw) && Body(back.raw) == Body(proof))
  {
    var sent := Sent(stations, packed);
    SameKind(packed, sent);
    assert HashablePart(sent) == HashablePart(packed);
    DataArrives(c, stations, sent);
    var there := CarryOut(c, stations, sent);
    var later := After(c, there.stations, traffic);
    TrafficIsLater(c, there.stations, traffic);
    LaterKeepsReturns(there.stations, later, TruncatedHash(c, packed));
    SamePartSameData(there.raw, packed);
    if && Destination(proof) == TruncatedHash(c, there.raw)
       && Unseen(c, later, HashablePart(proof)) && Unlinked(later, Destination(proof)) {
      ProofArrives(c, later, proof);
    }
  }

  lemma {:induction false} SamePartSameData(raw: Raw, raw': Raw)
    requires WellFormed(raw) && WellFormed(raw') && HashablePart(raw) == HashablePart(raw')
    ensures Body(raw) == Body(raw')
  {
    assert Body(raw) == HashablePart(raw)[1..];
    assert Body(raw') == HashablePart(raw')[1..];
  }

  // ------------------------------------------------------------- link requests

  predicate IsRequest(raw: Raw)
    requires WellFormed(raw)
  {
    && PacketType(raw) == LINKREQUEST && DestinationType(raw) == SINGLE
    && (|Data(raw)| == ECPUBSIZE || |Data(raw)| == ECPUBSIZE + LINK_MTU_SIZE)
    && Enabled(RequestMode(Data(raw)))
  }

  /** Every station holds the entry that a request leaves which had taken so many hops. */
  ghost predicate Linked(stations: seq<Station>, id: Raw, destination: Raw, taken: Byte)
    decreases |stations|
  {
    stations == [] ||
    (&& LinkedAt(stations[0], id, destination, Distance(stations), taken + 1)
     && Linked(stations[1..], id, destination, taken + 1))
  }

  ghost predicate LinkedAt(station: Station, id: Raw, destination: Raw, remaining: Byte, hops: Byte) {
    && id in station.node.links
    && var e := station.node.links[id];
       && e.outbound == station.outward && e.receiving == station.inward
       && e.remaining == remaining && e.hops == hops && e.destination == destination
  }

  function Hops(stations: seq<Station>): (r: seq<Hop>)
    ensures |r| == |stations|
    ensures forall i :: 0 <= i < |r| ==> r[i] == Hop(stations[i].inward, stations[i].outward)
    decreases |stations|
  {
    if stations == [] then [] else [Hop(stations[0].inward, stations[0].outward)] + Hops(stations[1..])
  }

  lemma {:induction false} StationForwardsRequest(c: Primitives, stations: seq<Station>, raw: Raw)
    requires stations != [] && Entering(stations, raw) && IsRequest(raw)
    requires Routed(stations, Destination(raw))
    requires Destination(raw) !in stations[0].node.links && PacketHash(c, raw) !in stations[0].node.seen
    ensures var node := stations[0].node.(seen := stations[0].node.seen + {PacketHash(c, raw)});
            Inbound(c, stations[0].node, stations[0].inward, raw)
            == ForwardRequest(c, node, stations[0].inward, node.paths[Destination(raw)], raw)
  {
    var node := stations[0].node;
    assert Passes(c, node, raw);
    var known := Remembered(c, node, raw);
    assert known == node.(seen := node.seen + {PacketHash(c, raw)});
    var first := Forward(c, known, stations[0].inward, raw);
    assert LinkTransport(c, first.node, stations[0].inward, raw) == Outcome(first.node, []);
    assert ProofTransport(c, first.node, stations[0].inward, raw) == Outcome(first.node, []);
    assert first.sends + [] + [] == first.sends;
  }

  /** What of the request is as it was, and what it signals now. */
  ghost predicate SameRequest(raw: Raw, next: Raw)
    requires WellFormed(raw) && WellFormed(next)
  {
    && IsRequest(next) && Destination(next) == Destination(raw) && LinkIdPart(next) == LinkIdPart(raw)
    && Data(next)[..ECPUBSIZE] == Data(raw)[..ECPUBSIZE]
  }

  /** A request goes from the front station to the next with its keys, signalling the MTU of the hop. */
  ghost predicate PassesOn(stations: seq<Station>, raw: Raw, next: Raw)
    requires stations != [] && WellFormed(raw)
  {
    && Entering(stations[1..], next) && next[1] == raw[1] + 1 && SameRequest(raw, next)
    && RequestMtu(Data(next)) == HopMtu(RequestMtu(Data(raw)), Hop(stations[0].inward, stations[0].outward))
  }

  lemma {:induction false} RequestPassedOn(stations: seq<Station>, path: Path, raw: Raw)
    requires stations != [] && Entering(stations, raw) && IsRequest(raw)
    requires path.hops == Distance(stations) && path.via == stations[0].outward
    requires |stations| > 1 ==> Distance(stations) > 1 && path.nextHop == stations[1].node.id
    ensures var next := ClampedRequest(stations[0].inward, path, raw);
            next.Some? && PassesOn(stations, raw, next.value)
  {
    var headed := Forwarded(path, raw);
    HeaderReaches(stations, path, raw);
    SameKind(raw, headed);
    assert Data(headed) == Data(raw);
    var mtu, mode := RequestMtu(Data(raw)), RequestMode(Data(raw));
    ClampIsHopMtu(mtu, mode, stations[0].inward, path.via);
    var decision := ClampDecision(mtu, mode, stations[0].inward, path.via);
    if decision.Edit? {
      EditPassesOn(decision.rewrite, headed, mtu, mode, Hop(stations[0].inward, path.via));
    }
  }

  lemma {:induction false} EditPassesOn(w: Rewrite, headed: Raw, mtu: Mtu, mode: Byte, hop: Hop)
    requires WellFormed(headed) && |Data(headed)| == ECPUBSIZE + LINK_MTU_SIZE && IsMtuRewrite(w) && Enabled(mode)
    requires IsRequest(headed)
    requires w.ClampMtu? ==> w.signalling == SignallingBytes(HopMtu(mtu, hop), mode)
    requires w.StripMtu? ==> HopMtu(mtu, hop) == 0
    ensures Applies(w, headed) && WellFormed(Apply(w, headed))
    ensures var next := Apply(w, headed);
            && next[0] == headed[0] && next[1] == headed[1] && TransportId(next) == TransportId(headed)
            && SameRequest(headed, next) && RequestMtu(Data(next)) == HopMtu(mtu, hop)
  {
    EditedRequest(w, headed, mtu, mode, hop);
    MtuRewriteKeepsKeys(w, headed);
    var next := Apply(w, headed);
    assert next[0] == next[..2][0] && next[1] == next[..2][1] && headed[0] == headed[..2][0] && headed[1] == headed[..2][1];
    SameKind(headed, next);
  }

  lemma {:induction false} EditedRequest(w: Rewrite, raw: Raw, mtu: Mtu, mode: Byte, hop: Hop)
    requires WellFormed(raw) && |Data(raw)| == ECPUBSIZE + LINK_MTU_SIZE && IsMtuRewrite(w) && Enabled(mode)
    requires w.ClampMtu? ==> w.signalling == SignallingBytes(HopMtu(mtu, hop), mode)
    requires w.StripMtu? ==> HopMtu(mtu, hop) == 0
    ensures Applies(w, raw) && WellFormed(Apply(w, raw)) && Apply(w, raw)[..2] == raw[..2]
    ensures TransportId(Apply(w, raw)) == TransportId(raw)
    ensures var data := Data(Apply(w, raw));
            && |data| in {ECPUBSIZE, ECPUBSIZE + LINK_MTU_SIZE} && data[..ECPUBSIZE] == Data(raw)[..ECPUBSIZE]
            && RequestMtu(data) == HopMtu(mtu, hop) && RequestMode(data) == mode
  {
    var next, start := Apply(w, raw), BodyStart(raw[0]);
    Layout(raw, start);
    Layout(next, start);
    assert next[..|raw| - LINK_MTU_SIZE] == raw[..|raw| - LINK_MTU_SIZE];
    var cut := |raw| - LINK_MTU_SIZE;
    SamePrefix(raw, next, cut, 0, 2);
    SamePrefix(raw, next, cut, 2, start);
    SamePrefix(raw, next, cut, start + ADDRESS + 1, cut);
    assert Data(next)[..ECPUBSIZE] == next[start + ADDRESS + 1..cut];
    assert Data(raw)[..ECPUBSIZE] == raw[start + ADDRESS + 1..cut];
    if w.ClampMtu? {
      SignallingRoundTrip(HopMtu(mtu, hop), mode);
      assert Data(next)[ECPUBSIZE..] == w.signalling;
    }
  }

  /** No station has seen a packet with the keys of this request; the signalling after them may change on the way. */
  ghost predicate NewKeys(c: Primitives, stations: seq<Station>, keys: Raw) {
    forall s, part :: s in stations && StartsWith(part, keys) ==> c.hash(part) !in s.node.seen
  }

  /** The keys, and no more after them than the signalling. */
  predicate StartsWith(part: Raw, keys: Raw) {
    |keys| <= |part| <= |keys| + LINK_MTU_SIZE && part[..|keys|] == keys
  }

  /** A new link request at the front of a chain that has paths to its destination. */
  ghost predicate Ready(c: Primitives, stations: seq<Station>, raw: Raw) {
    && Entering(stations, raw) && IsRequest(raw) && Routed(stations, Destination(raw))
    && NewKeys(c, stations, LinkIdPart(raw))
    && Unlinked(stations, Destination(raw)) && Unlinked(stations, LinkId(c, raw))
  }

  lemma {:induction false} RequestHop(c: Primitives, stations: seq<Station>, raw: Raw)
    requires stations != [] && Ready(c, stations, raw)
    ensures var outcome := Inbound(c, stations[0].node, stations[0].inward, raw);
            && SendsOn(outcome, stations[0].outward) && PassesOn(stations, raw, outcome.sends[0].raw)
            && LinkedAt(stations[0].(node := outcome.node), LinkId(c, raw), Destination(raw), Distance(stations), raw[1] + 1)
  {
    assert stations[0] in stations;
    assert StartsWith(HashablePart(raw), LinkIdPart(raw));
    StationForwardsRequest(c, stations, raw);
    RequestPassedOn(stations, stations[0].node.paths[Destination(raw)], raw);
  }

  lemma {:induction false} ReadyAtNext(c: Primitives, stations: seq<Station>, raw: Raw, next: Raw)
    requires stations != [] && Ready(c, stations, raw) && PassesOn(stations, raw, next)
    ensures Ready(c, stations[1..], next)
  {
  }

  /** What a request leaves along the chain and brings to its end. */
  ghost predicate Established(c: Primitives, stations: seq<Station>, raw: Raw, journey: Journey)
    requires WellFormed(raw)
  {
    && journey.Carried? && Distance(journey.stations) == Distance(stations)
    && Linked(journey.stations, LinkId(c, raw), Destination(raw), raw[1])
    && Entering([], journey.raw) && SameRequest(raw, journey.raw)
    && RequestMtu(Data(journey.raw)) == PathMtu(RequestMtu(Data(raw)), Hops(stations))
  }

  /**
   A link request reaches the destination with its keys and link id, signalling the MTU of the
   whole path, and every station on the way holds the entry for the link.
   */
  lemma {:induction false} RequestArrives(c: Primitives, stations: seq<Station>, raw: Raw)
    requires Ready(c, stations, raw)
    ensures Established(c, stations, raw, CarryOut(c, stations, raw))
    decreases |stations|
  {
    if stations != [] {
      RequestHop(c, stations, raw);
      var outcome := Inbound(c, stations[0].node, stations[0].inward, raw);
      var next := outcome.sends[0].raw;
      ReadyAtNext(c, stations, raw, next);
      RequestArrives(c, stations[1..], next);
      EstablishedInFront(c, stations, raw, outcome.node, next, CarryOut(c, stations[1..], next));
    }
  }

  lemma {:induction false} EstablishedInFront(c: Primitives, stations: seq<Station>, raw: Raw, node: Node, next: Raw, rest: Journey)
    requires stations != [] && WellFormed(raw) && PassesOn(stations, raw, next) && Established(c, stations[1..], next, rest)
    requires LinkedAt(stations[0].(node := node), LinkId(c, raw), Destination(raw), Distance(stations), raw[1] + 1)
    ensures Established(c, stations, raw, Carried([stations[0].(node := node)] + rest.stations, rest.raw))
  {
    var first := stations[0].(node := node);
    assert ([first] + rest.stations)[1..] == rest.stations;
    assert Hops(stations)[1..] == Hops(stations[1..]);
  }
}
