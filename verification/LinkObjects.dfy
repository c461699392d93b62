/** Link.cpp and the relaying half of Transport::inbound as code that updates its objects. */
module LinkObjects {
  import opened Basics
  import opened PacketFormat
  import opened Signalling
  import opened Relay
  import opened Handshake
  import opened HandshakePath

  /** The fields of a link that the handshake works on. */
  class LinkObject {
    const c: Primitives
    const k: Keys
    var initiator: bool
    var status: Status
    var linkId: Raw
    var mode: Byte
    var mtu: Mtu
    var privateKey: Raw
    var peerKey: Raw
    var derivedKey: Raw

    ghost function State(): Link
      reads this
    {
      Link(initiator, status, linkId, mode, mtu, privateKey, peerKey, derivedKey)
    }

    constructor (c: Primitives, k: Keys, initiator: bool, privateKey: Raw, peerKey: Raw, mode: Byte)
      ensures this.c == c && this.k == k
      ensures State() == Link(initiator, Pending, [], mode, DEFAULT_MTU, privateKey, peerKey, [])
    {
      this.c, this.k := c, k;
      this.initiator, this.privateKey, this.peerKey, this.mode := initiator, privateKey, peerKey, mode;
      status, linkId, mtu, derivedKey := Pending, [], DEFAULT_MTU, [];
    }

    /** The link id, MTU and mode of a request. */
    method Configure(raw: Raw, data: Raw)
      requires WellFormed(raw) && |data| >= KEY
      requires State() == Link(false, Pending, [], MODE_DEFAULT, DEFAULT_MTU, privateKey, data[..KEY], [])
      modifies this
      ensures State() == RequestedLink(c, old(privateKey), raw, data)
    {
      linkId := Left(c.hash(ResponderPart(raw, data)), ADDRESS);
      if |data| == ECPUBSIZE + LINK_MTU_SIZE {
        var signalled := RequestMtu(data);
        mtu := if signalled != 0 then signalled else DEFAULT_MTU;
      }
      mode := RequestMode(data);
    }

    /** handshake. */
    method ShakeHandsWithPeer() returns (threw: bool)
      modifies this
      ensures (State(), threw) == ShakeHands(k, old(State()))
    {
      threw := false;
      if status == Pending {
        status := Handshaking;
        var sharedKey := k.exchange(privateKey, peerKey);
        if mode == MODE_AES128_CBC {
          derivedKey := k.derive(32, sharedKey, linkId);
        } else if mode == MODE_AES256_CBC {
          derivedKey := k.derive(64, sharedKey, linkId);
        } else {
          threw := true;
        }
      }
    }

    /** validate_proof. Once active, the link has the MTU of the proof and the key both sides derive. */
    method Validate(signingKey: Raw, data: Raw)
      modifies this
      ensures State() == ValidateProof(c, k, old(State()), signingKey, data)
      ensures status == Active && old(status) != Active ==>
                old(status) == Pending && initiator && mtu != 0 && Vouched(c, signingKey, linkId, data)
    {
      if status != Pending {
        return;
      }
      var confirmed, signalling, body := 0, [], data;
      var proofMode := ProofMode(data);
      if proofMode != mode {
        status := Closed;
        return;
      }
      if |data| == SIGNATURE + KEY + LINK_MTU_SIZE {
        confirmed := ProofMtu(data);
        if !Enabled(proofMode) {
          status := Closed;
          return;
        }
        assert proofMode == SignalledMode(data[SIGNATURE + KEY..]);
        signalling := SignallingBytes(confirmed, proofMode);
        body := data[..SIGNATURE + KEY];
      }
      if initiator && |body| == SIGNATURE + KEY {
        peerKey := body[SIGNATURE..SIGNATURE + KEY];
        assert peerKey == data[SIGNATURE..SIGNATURE + KEY] && body[..SIGNATURE] == data[..SIGNATURE];
        var threw := ShakeHandsWithPeer();
        if threw {
          status := Closed;
          return;
        }
        if c.verify(signingKey, body[..SIGNATURE], linkId + peerKey + signingKey + signalling) {
          mtu := if confirmed != 0 then confirmed else DEFAULT_MTU;
          status := Active;
        }
      }
    }

    /**
     prove: the data of the proof; where signalling_bytes throws there is none. Any pending
     initiator of the same link and mode that receives it becomes active with this link's MTU.
     */
    method Prove(identity: Raw) returns (proof: Option<Raw>)
      ensures proof.Some? <==> Enabled(mode)
      ensures proof.Some? ==> proof.value == ProofData(k, identity, State())
      ensures proof.Some? && Lawful(c, k) && mtu != 0 && Signs(c, k, identity, State()) ==>
                forall peer: Link :: peer.initiator && peer.status == Pending && peer.mode == mode && peer.linkId == linkId ==>
                  var active := ValidateProof(c, k, peer, k.signingPublic(identity), proof.value);
                  active.status == Active && active.mtu == mtu && active.peerKey == k.publicOf(privateKey)
    {
      if !Enabled(mode) {
        return None;
      }
      ghost var link := State();
      if Lawful(c, k) && mtu != 0 && Signs(c, k, identity, link) {
        forall peer: Link | peer.initiator && peer.status == Pending && peer.mode == mode && peer.linkId == linkId
          ensures var active := ValidateProof(c, k, peer, k.signingPublic(identity), ProofData(k, identity, link));
                  active.status == Active && active.mtu == mtu && active.peerKey == k.publicOf(privateKey)
        {
          OwnProofActivates(c, k, identity, peer, link);
        }
      }
      var signalling := SignallingBytes(mtu, mode);
      var signed := linkId + k.publicOf(privateKey) + k.signingPublic(identity) + signalling;
      proof := Some(k.sign(identity, signed) + k.publicOf(privateKey) + signalling);
    }
  }

  /** validate_request: a link for an acceptable request, and its proof. */
  method ValidateRequest(c: Primitives, k: Keys, identity: Raw, privateKey: Raw, raw: Raw, data: Raw)
    returns (link: LinkObject?, proof: Raw)
    requires WellFormed(raw)
    ensures (link != null) == Accept(c, k, identity, privateKey, raw, data).Some?
    ensures link != null ==> fresh(link) && link.c == c && link.k == k
                             && Accept(c, k, identity, privateKey, raw, data).value == Session(link.State(), raw, data, proof)
  {
    if |data| != ECPUBSIZE && |data| != ECPUBSIZE + LINK_MTU_SIZE {
      return null, [];
    }
    var l := new LinkObject(c, k, false, privateKey, data[..KEY], MODE_DEFAULT);
    l.Configure(raw, data);
    var threw := l.ShakeHandsWithPeer();
    if threw {
      return null, [];
    }
    var proved := l.Prove(identity);
    if proved.None? {
      return null, [];
    }
    return l, proved.value;
  }

  /** The tables of a transport node that relays. */
  class TransportRelay {
    const c: Primitives
    const id: Address
    var paths: map<Raw, Path>
    var links: map<Raw, LinkEntry>
    var reverses: map<Raw, ReverseEntry>
    var seen: set<Raw>
    var identities: map<Raw, Raw>

    function State(): Node
      reads this
    {
      Node(id, paths, links, reverses, seen, identities)
    }

    constructor (c: Primitives, id: Address)
      ensures this.c == c && State() == Node(id, map[], map[], map[], {}, map[])
    {
      this.c, this.id := c, id;
      paths, links, reverses, seen, identities := map[], map[], map[], {}, map[];
    }

    /** A packet in transport for this node goes on to the next hop. */
    method ForwardNext(on: Interface, raw: Raw) returns (sends: seq<Send>)
      requires WellFormed(raw) && InTransport(raw[0])
      modifies this`links, this`reverses
      ensures Outcome(State(), sends) == Forward(c, old(State()), on, raw)
    {
      var destination := Destination(raw);
      if destination !in paths {
        return [];
      }
      var path := paths[destination];
      if PacketType(raw) == LINKREQUEST {
        var next := Clamp(on, path, raw);
        if next.None? {
          return [];
        }
        var linkId := LinkId(c, raw);
        if linkId !in links {
          links := links[linkId := LinkEntry(path.via, path.hops, on, raw[1] + 1, destination, false)];
        }
        return [Send(path.via, next.value)];
      }
      var key := TruncatedHash(c, raw);
      if key !in reverses {
        reverses := reverses[key := ReverseEntry(on, path.via)];
      }
      return [Send(path.via, Forwarded(path, raw))];
    }

    /** The header and signalling a link request goes on with; none where the original drops it. */
    static method Clamp(on: Interface, path: Path, raw: Raw) returns (next: Option<Raw>)
      requires WellFormed(raw) && InTransport(raw[0])
      ensures next == ClampedRequest(on, path, raw)
    {
      var headed := Forwarded(path, raw);
      var mtu, mode := RequestMtu(Data(raw)), RequestMode(Data(raw));
      next := Some(headed);
      if mtu != 0 {
        if path.via.hwMtu == 0 || (!path.via.autoconfigure && !path.via.fixedMtu) {
          next := Some(headed[..|headed| - LINK_MTU_SIZE]);
        } else if path.via.hwMtu < mtu || (on.hwMtu != 0 && on.hwMtu < mtu) {
          if !Enabled(mode) {
            return None;
          }
          var least := if on.hwMtu > 0 then Min(path.via.hwMtu, on.hwMtu) else path.via.hwMtu;
          next := Some(headed[..|headed| - LINK_MTU_SIZE] + SignallingBytes(least, mode));
        }
      }
    }

    /**
     A link packet goes on if and only if it has taken the hops expected on the side it came
     from, and then over the opposite interface; on a link with one interface either count will do.
     */
    static method Outward(entry: LinkEntry, on: Interface, hops: Byte) returns (outward: Option<Interface>)
      ensures outward == LinkDirection(entry, on, hops)
      ensures entry.outbound != entry.receiving ==>
                (outward.Some? <==> (on == entry.outbound && hops == entry.remaining) || (on == entry.receiving && hops == entry.hops))
                && (outward.Some? ==> outward.value != on && {on, outward.value} == {entry.outbound, entry.receiving})
      ensures entry.outbound == entry.receiving ==>
                (outward.Some? <==> hops == entry.remaining || hops == entry.hops)
                && (outward.Some? ==> outward.value == entry.outbound)
    {
      outward := None;
      if entry.outbound == entry.receiving {
        if hops == entry.remaining || hops == entry.hops {
          outward := Some(entry.outbound);
        }
      } else if on == entry.outbound {
        if hops == entry.remaining {
          outward := Some(entry.receiving);
        }
      } else if on == entry.receiving {
        if hops == entry.hops {
          outward := Some(entry.outbound);
        }
      }
    }

    /** A packet of a known link goes on over the opposite interface. */
    method RelayLink(on: Interface, raw: Raw) returns (sends: seq<Send>)
      requires WellFormed(raw)
      modifies this`seen
      ensures Outcome(State(), sends) == LinkTransport(c, old(State()), on, raw)
    {
      sends := [];
      if ForLinkTransport(raw) && Destination(raw) in links {
        var hops := raw[1] + 1;
        var outward := Outward(links[Destination(raw)], on, hops);
        if outward.Some? {
          sends := [Send(outward.value, Apply(Bump(hops), raw))];
          seen := seen + {PacketHash(c, raw)};
        }
      }
    }

    /** A proof goes back the way the packet or the link request came. */
    method RelayProof(on: Interface, raw: Raw) returns (sends: seq<Send>)
      requires WellFormed(raw)
      modifies this`links
      ensures Outcome(State(), sends) == ProofTransport(c, old(State()), on, raw)
    {
      sends := [];
      var destination := Destination(raw);
      if PacketType(raw) != PROOF || Context(raw) == RESOURCE_PRF {
        return;
      }
      if Context(raw) == LRPROOF {
        if destination in links {
          var entry := links[destination];
          if && on == entry.outbound && entry.destination in identities
             && Vouched(c, identities[entry.destination], destination, Data(raw)) {
            links := links[destination := entry.(validated := true)];
            sends := [Send(entry.receiving, Apply(Bump(raw[1] + 1), raw))];
          }
        }
      } else if destination in reverses && on == reverses[destination].outbound {
        sends := [Send(reverses[destination].receiving, Apply(Bump(raw[1] + 1), raw))];
      }
    }

    /** inbound: filter, remember, forward, relay. No entry is lost, whatever arrives. */
    method Receive(on: Interface, raw: Raw) returns (sends: seq<Send>)
      modifies this
      ensures Outcome(State(), sends) == Inbound(c, old(State()), on, raw)
      ensures Extends(old(State()), State())
    {
      InboundExtends(c, State(), on, raw);
      if !WellFormed(raw) || !Passes(c, State(), raw) {
        return [];
      }
      if !(Destination(raw) in links || (PacketType(raw) == PROOF && Context(raw) == LRPROOF)) {
        seen := seen + {PacketHash(c, raw)};
      }
      sends := [];
      if InTransport(raw[0]) && PacketType(raw) != ANNOUNCE {
        sends := ForwardNext(on, raw);
      }
      var more := RelayLink(on, raw);
      var last := RelayProof(on, raw);
      sends := sends + more + last;
    }
  }
}
