/**
 What a transport node does with packets that are not announces: it forwards packets in
 transport along the path table, link packets along the link table and proofs along the
 reverse table. No shared instance, no local clients; the node has no other part in the packet.
 */
module Relay {
  import opened Basics
  import opened PacketFormat
  import opened Signalling

  const SIGNATURE: nat := 64
  const KEY: nat := 32

  type Address = a: Raw | |a| == ADDRESS witness seq(ADDRESS, _ => 0)

  /** The primitives a node computes with: the full hash, and signature validation under a public key. */
  datatype Primitives = Primitives(hash: Raw -> Raw, verify: (Raw, Raw, Raw) -> bool)

  function Left(s: Raw, n: nat): Raw { if |s| <= n then s else s[..n] }

  function PacketHash(c: Primitives, raw: Raw): Raw
    requires WellFormed(raw)
  {
    c.hash(HashablePart(raw))
  }

  function TruncatedHash(c: Primitives, raw: Raw): Raw
    requires WellFormed(raw)
  {
    Left(PacketHash(c, raw), ADDRESS)
  }

  function LinkId(c: Primitives, raw: Raw): Raw
    requires WellFormed(raw)
  {
    Left(c.hash(LinkIdPart(raw)), ADDRESS)
  }

  function PacketType(raw: Raw): Byte
    requires WellFormed(raw)
  {
    TypeBits(raw[0])
  }

  function DestinationType(raw: Raw): Byte
    requires WellFormed(raw)
  {
    DestinationBits(raw[0])
  }

  function Context(raw: Raw): Byte
    requires WellFormed(raw)
  {
    Body(raw)[ADDRESS]
  }

  // ------------------------------------------------------------------- tables

  datatype Path = Path(nextHop: Address, hops: Byte, via: Interface)
  datatype LinkEntry = LinkEntry(outbound: Interface, remaining: Byte, receiving: Interface, hops: Byte,
                                 destination: Raw, validated: bool)
  datatype ReverseEntry = ReverseEntry(receiving: Interface, outbound: Interface)

  /** identities recalls the signing key of each destination heard of. */
  datatype Node = Node(
    id: Address,
    paths: map<Raw, Path>,
    links: map<Raw, LinkEntry>,
    reverses: map<Raw, ReverseEntry>,
    seen: set<Raw>,
    identities: map<Raw, Raw>)

  datatype Send = Send(via: Interface, raw: Raw)
  datatype Outcome = Outcome(node: Node, sends: seq<Send>)

  /** std::map::insert leaves an entry that is there. */
  function Inserted<T>(table: map<Raw, T>, key: Raw, entry: T): map<Raw, T> {
    if key in table then table else table[key := entry]
  }

  // ------------------------------------------------------------------- filter

  predicate Exempt(context: Byte) {
    context == KEEPALIVE || context == RESOURCE_REQ || context == RESOURCE_PRF || context == RESOURCE
    || context == CACHE_REQUEST || context == CHANNEL
  }

  /** packet_filter. */
  predicate Passes(c: Primitives, node: Node, raw: Raw)
    requires WellFormed(raw)
  {
    if InTransport(raw[0]) && PacketType(raw) != ANNOUNCE && TransportId(raw) != Some(node.id) then false
    else if Exempt(Context(raw)) then true
    else if DestinationType(raw) == PLAIN || DestinationType(raw) == GROUP then
      PacketType(raw) != ANNOUNCE && raw[1] + 1 <= 1
    else
      PacketHash(c, raw) !in node.seen || (PacketType(raw) == ANNOUNCE && DestinationType(raw) == SINGLE)
  }

  /** The hash is remembered at once, except for packets of relayed links and link request proofs. */
  function Remembered(c: Primitives, node: Node, raw: Raw): Node
    requires WellFormed(raw)
  {
    if Destination(raw) in node.links || (PacketType(raw) == PROOF && Context(raw) == LRPROOF) then node
    else node.(seen := node.seen + {PacketHash(c, raw)})
  }

  // --------------------------------------------------------------- forwarding

  /** The header a packet in transport leaves with. */
  function HeaderRewrite(path: Path, raw: Raw): Rewrite
    requires WellFormed(raw)
  {
    if path.hops > 1 then Replace(raw[1] + 1, path.nextHop)
    else if path.hops == 1 then Strip(raw[1] + 1)
    else Bump(raw[1] + 1)
  }

  function Forwarded(path: Path, raw: Raw): (r: Raw)
    requires WellFormed(raw) && InTransport(raw[0])
    ensures WellFormed(r) && Body(r) == Body(raw)
  {
    var w := HeaderRewrite(path, raw);
    HeaderRewriteKeepsBody(w, raw);
    Apply(w, raw)
  }

  function Forward(c: Primitives, node: Node, on: Interface, raw: Raw): Outcome
    requires WellFormed(raw) && InTransport(raw[0])
  {
    var destination := Destination(raw);
    if destination !in node.paths then Outcome(node, [])
    else
      var path := node.paths[destination];
      if PacketType(raw) == LINKREQUEST then ForwardRequest(c, node, on, path, raw)
      else
        Outcome(node.(reverses := Inserted(node.reverses, TruncatedHash(c, raw), ReverseEntry(on, path.via))),
                [Send(path.via, Forwarded(path, raw))])
  }

  /** The link request a node passes on, with its MTU clamped; none if it is dropped. */
  function ClampedRequest(on: Interface, path: Path, raw: Raw): Option<Raw>
    requires WellFormed(raw) && InTransport(raw[0])
  {
    var decision := ClampDecision(RequestMtu(Data(raw)), RequestMode(Data(raw)), on, path.via);
    var headed := Forwarded(path, raw);
    match decision
    case Drop => None
    case Keep => Some(headed)
    case Edit(rewrite) => Some(Apply(rewrite, headed))
  }

  /** A link request passed on leaves a link entry. */
  function ForwardRequest(c: Primitives, node: Node, on: Interface, path: Path, raw: Raw): Outcome
    requires WellFormed(raw) && InTransport(raw[0])
  {
    var next := ClampedRequest(on, path, raw);
    if next.None? then Outcome(node, [])
    else
      var entry := LinkEntry(path.via, path.hops, on, raw[1] + 1, Destination(raw), false);
      Outcome(node.(links := Inserted(node.links, LinkId(c, raw), entry)), [Send(path.via, next.value)])
  }

  // ---------------------------------------------------------------- link table

  /** Where a link packet goes on to, if its interface and hop count are as expected. */
  function LinkDirection(entry: LinkEntry, on: Interface, hops: Byte): Option<Interface> {
    if entry.outbound == entry.receiving then
      if hops == entry.remaining || hops == entry.hops then Some(entry.outbound) else None
    else if on == entry.outbound then
      if hops == entry.remaining then Some(entry.receiving) else None
    else if on == entry.receiving then
      if hops == entry.hops then Some(entry.outbound) else None
    else None
  }

  predicate ForLinkTransport(raw: Raw)
    requires WellFormed(raw)
  {
    PacketType(raw) != ANNOUNCE && PacketType(raw) != LINKREQUEST && Context(raw) != LRPROOF
  }

  function LinkTransport(c: Primitives, node: Node, on: Interface, raw: Raw): Outcome
    requires WellFormed(raw)
  {
    if !ForLinkTransport(raw) || Destination(raw) !in node.links then Outcome(node, [])
    else
      var direction := LinkDirection(node.links[Destination(raw)], on, raw[1] + 1);
      if direction.None? then Outcome(node, [])
      else Outcome(node.(seen := node.seen + {PacketHash(c, raw)}), [Send(direction.value, Apply(Bump(raw[1] + 1), raw))])
  }

  // -------------------------------------------------------------------- proofs

  /** What a responder signs: link id, its exchange key, its signing key, signalling. */
  function SignedData(linkId: Raw, key: Raw, signingKey: Raw, signalling: Raw): Raw {
    linkId + key + signingKey + signalling
  }

  /** The signalling of a link request proof, decoded and encoded again; none for a mode that is not enabled. */
  function ProofSignalling(data: Raw): Option<Raw>
    requires |data| == SIGNATURE + KEY || |data| == SIGNATURE + KEY + LINK_MTU_SIZE
  {
    if |data| == SIGNATURE + KEY then Some([])
    else
      var bytes := data[SIGNATURE + KEY..];
      if Enabled(SignalledMode(bytes)) then Some(SignallingBytes(SignalledMtu(bytes), SignalledMode(bytes))) else None
  }

  /** Whether the data of a link request proof carries a valid signature for the link. */
  predicate Vouched(c: Primitives, signingKey: Raw, linkId: Raw, data: Raw) {
    && (|data| == SIGNATURE + KEY || |data| == SIGNATURE + KEY + LINK_MTU_SIZE)
    && ProofSignalling(data).Some?
    && c.verify(signingKey, data[..SIGNATURE],
                SignedData(linkId, data[SIGNATURE..SIGNATURE + KEY], signingKey, ProofSignalling(data).value))
  }

  function ProofTransport(c: Primitives, node: Node, on: Interface, raw: Raw): Outcome
    requires WellFormed(raw)
  {
    var destination := Destination(raw);
    if PacketType(raw) != PROOF || Context(raw) == RESOURCE_PRF then Outcome(node, [])
    else if Context(raw) == LRPROOF then
      if destination !in node.links then Outcome(node, [])
      else
        var entry := node.links[destination];
        if && on == entry.outbound && entry.destination in node.identities
           && Vouched(c, node.identities[entry.destination], destination, Data(raw)) then
          Outcome(node.(links := node.links[destination := entry.(validated := true)]),
                  [Send(entry.receiving, Apply(Bump(raw[1] + 1), raw))])
        else Outcome(node, [])
    else if destination in node.reverses && on == node.reverses[destination].outbound then
      Outcome(node, [Send(node.reverses[destination].receiving, Apply(Bump(raw[1] + 1), raw))])
    else Outcome(node, [])
  }

  // ------------------------------------------------------------------- inbound

  function Inbound(c: Primitives, node: Node, on: Interface, raw: Raw): Outcome {
    if !WellFormed(raw) || !Passes(c, node, raw) then Outcome(node, [])
    else
      var known := Remembered(c, node, raw);
      var first := if InTransport(raw[0]) && PacketType(raw) != ANNOUNCE
                   then Forward(c, known, on, raw) else Outcome(known, []);
      var second := LinkTransport(c, first.node, on, raw);
      var third := ProofTransport(c, second.node, on, raw);
      Outcome(third.node, first.sends + second.sends + third.sends)
  }

  // ---------------------------------------------------------------- duplicates

  /** Packets that the hash list is consulted for. */
  predicate Filtered(raw: Raw)
    requires WellFormed(raw)
  {
    && PacketType(raw) != ANNOUNCE
    && Context(raw) !in {KEEPALIVE, RESOURCE_REQ, RESOURCE_PRF, RESOURCE, CACHE_REQUEST, CHANNEL}
    && DestinationType(raw) != PLAIN && DestinationType(raw) != GROUP
  }

  /**
   Duplicates are recognised: a node that remembers a packet does nothing with any copy of
   it, whatever header rewrites the copy has been through.
   */
  lemma {:induction false} DuplicateIsDropped(c: Primitives, node: Node, on: Interface, raw: Raw, ws: seq<Rewrite>)
    requires WellFormed(raw) && Filtered(raw) && PacketHash(c, raw) in node.seen
    requires AppliesAll(ws, raw) && forall i :: 0 <= i < |ws| ==> !IsMtuRewrite(ws[i])
    ensures Inbound(c, node, on, ApplyAll(ws, raw)) == Outcome(node, [])
  {
    var copy := ApplyAll(ws, raw);
    HashSurvivesTransit(ws, raw);
    KindOfPart(raw);
    KindOfPart(copy);
    assert !Passes(c, node, copy);
  }

  /** The hashed part tells the kind of a packet. */
  lemma {:induction false} KindOfPart(raw: Raw)
    requires WellFormed(raw)
    ensures PacketType(raw) == TypeBits(HashablePart(raw)[0]) && DestinationType(raw) == DestinationBits(HashablePart(raw)[0])
    ensures Context(raw) == HashablePart(raw)[1 + ADDRESS]
  {
  }

  /**
   Every such packet is dealt with once: a packet that is let in and belongs to no relayed link,
   or that is passed on along its link, is remembered, and no copy of it gets through again.
   */
  lemma {:induction false} SecondCopyIsDropped(c: Primitives, node: Node, on: Interface, on': Interface, raw: Raw, ws: seq<Rewrite>)
    requires WellFormed(raw) && Filtered(raw) && Passes(c, node, raw) && Context(raw) != LRPROOF
    requires Destination(raw) !in node.links || (!InTransport(raw[0]) && PacketType(raw) != LINKREQUEST && ExpectedOnLink(node, on, raw))
    requires AppliesAll(ws, raw) && forall i :: 0 <= i < |ws| ==> !IsMtuRewrite(ws[i])
    ensures var after := Inbound(c, node, on, raw).node;
            Inbound(c, after, on', ApplyAll(ws, raw)) == Outcome(after, [])
  {
    var after := Inbound(c, node, on, raw).node;
    PassedIsRemembered(c, node, on, raw);
    DuplicateIsDropped(c, after, on', raw, ws);
  }

  lemma {:induction false} PassedIsRemembered(c: Primitives, node: Node, on: Interface, raw: Raw)
    requires WellFormed(raw) && Filtered(raw) && Passes(c, node, raw) && Context(raw) != LRPROOF
    requires Destination(raw) !in node.links || (!InTransport(raw[0]) && PacketType(raw) != LINKREQUEST && ExpectedOnLink(node, on, raw))
    ensures PacketHash(c, raw) in Inbound(c, node, on, raw).node.seen
  {
    var known := Remembered(c, node, raw);
    if InTransport(raw[0]) && PacketType(raw) != ANNOUNCE {
      ForwardExtends(c, known, on, raw);
      TablesExtend(c, Forward(c, known, on, raw).node, on, raw);
    } else if Destination(raw) !in node.links {
      TablesExtend(c, known, on, raw);
    }
  }

  /** A packet of a relayed link on the wrong side leaves no trace, so that the right arrival is still taken. */
  lemma {:induction false} WrongSideLeavesNoTrace(c: Primitives, node: Node, on: Interface, raw: Raw)
    requires WellFormed(raw) && !InTransport(raw[0]) && PacketType(raw) == DATA && Destination(raw) in node.links
    requires !ExpectedOnLink(node, on, raw)
    ensures Inbound(c, node, on, raw) == Outcome(node, [])
  {
    DirectionExactlyWhen(node.links[Destination(raw)], on, raw[1] + 1);
    if Passes(c, node, raw) {
      assert LinkTransport(c, node, on, raw) == Outcome(node, []);
    }
  }

  lemma {:induction false} DirectionExactlyWhen(e: LinkEntry, on: Interface, hops: Byte)
    ensures LinkDirection(e, on, hops).Some? <==> Expected(e, on, hops)
  {
  }

  // ------------------------------------------------------ what a node must not do

  /** The link packet has taken the hops expected on the side it came from. */
  predicate ExpectedOnLink(node: Node, on: Interface, raw: Raw)
    requires WellFormed(raw) && Destination(raw) in node.links
  {
    Expected(node.links[Destination(raw)], on, raw[1] + 1)
  }

  predicate Expected(e: LinkEntry, on: Interface, hops: Byte) {
    if e.outbound == e.receiving then hops == e.remaining || hops == e.hops
    else (on == e.outbound && hops == e.remaining) || (on == e.receiving && hops == e.hops)
  }

  /** A validly signed link request proof, spelled out: the link id, the two keys and the signalling, if any. */
  predicate SignedFor(c: Primitives, signingKey: Raw, linkId: Raw, data: Raw) {
    if |data| == SIGNATURE + KEY then
      c.verify(signingKey, data[..SIGNATURE], linkId + data[SIGNATURE..] + signingKey)
    else if |data| == SIGNATURE + KEY + LINK_MTU_SIZE then
      var b := data[SIGNATURE + KEY..];
      SignalledMode(b) == MODE_AES256_CBC
      && c.verify(signingKey, data[..SIGNATURE],
                  linkId + data[SIGNATURE..SIGNATURE + KEY] + signingKey + SignallingBytes(SignalledMtu(b), MODE_AES256_CBC))
    else false
  }

  lemma {:induction false} VouchedIsSigned(c: Primitives, signingKey: Raw, linkId: Raw, data: Raw)
    ensures Vouched(c, signingKey, linkId, data) <==> SignedFor(c, signingKey, linkId, data)
  {
    if |data| == SIGNATURE + KEY {
      assert linkId + data[SIGNATURE..] + signingKey + [] == linkId + data[SIGNATURE..] + signingKey;
      assert data[SIGNATURE..SIGNATURE + KEY] == data[SIGNATURE..];
    }
  }

  /** An invalid link request proof is stopped: it is sent on, or marks its link validated, only if it is signed. */
  lemma {:induction false} UnsignedProofIsStopped(c: Primitives, node: Node, on: Interface, raw: Raw)
    requires WellFormed(raw) && !InTransport(raw[0]) && PacketType(raw) == PROOF && Context(raw) == LRPROOF
    requires Inbound(c, node, on, raw).sends != [] || Inbound(c, node, on, raw).node.links != node.links
    ensures var d := Destination(raw);
            && d in node.links && on == node.links[d].outbound && node.links[d].destination in node.identities
            && SignedFor(c, node.identities[node.links[d].destination], d, Data(raw))
  {
    var d := Destination(raw);
    if d in node.links && node.links[d].destination in node.identities {
      VouchedIsSigned(c, node.identities[node.links[d].destination], d, Data(raw));
    }
  }

  /** The packet is a link request proof of link k, signed for it, from the interface its request went out on. */
  predicate Proves(c: Primitives, node: Node, on: Interface, raw: Raw, k: Raw) {
    && WellFormed(raw) && PacketType(raw) == PROOF && Context(raw) == LRPROOF && Destination(raw) == k
    && k in node.links && on == node.links[k].outbound && node.links[k].destination in node.identities
    && SignedFor(c, node.identities[node.links[k].destination], k, Data(raw))
  }

  /** A new entry is not validated, and any entry becomes so only by such a proof. */
  lemma {:induction false} ValidatedOnlyByProof(c: Primitives, node: Node, on: Interface, raw: Raw, k: Raw)
    requires var links := Inbound(c, node, on, raw).node.links; k in links && links[k].validated
    ensures (k in node.links && node.links[k].validated) || Proves(c, node, on, raw, k)
  {
    if WellFormed(raw) && Passes(c, node, raw) {
      var known := Remembered(c, node, raw);
      var first := if InTransport(raw[0]) && PacketType(raw) != ANNOUNCE then Forward(c, known, on, raw) else Outcome(known, []);
      ForwardedIsUnproven(c, known, on, raw, k);
      LinkSendsOnlyFor(c, first.node, on, raw);
      ProofMarks(c, LinkTransport(c, first.node, on, raw).node, on, raw, k);
    }
  }

  lemma {:induction false} ProofMarks(c: Primitives, node: Node, on: Interface, raw: Raw, k: Raw)
    requires WellFormed(raw)
    requires var links := ProofTransport(c, node, on, raw).node.links; k in links && links[k].validated
    ensures (k in node.links && node.links[k].validated) || Proves(c, node, on, raw, k)
  {
    if k in node.links && node.links[k].destination in node.identities {
      VouchedIsSigned(c, node.identities[node.links[k].destination], k, Data(raw));
    }
  }

  lemma {:induction false} ForwardedIsUnproven(c: Primitives, node: Node, on: Interface, raw: Raw, k: Raw)
    requires WellFormed(raw)
    ensures InTransport(raw[0]) ==>
              var after := Forward(c, node, on, raw).node;
              && after.identities == node.identities
              && (PacketType(raw) == PROOF ==> after.links == node.links)
              && (k in after.links && after.links[k].validated ==> k in node.links && node.links[k].validated)
  {
  }

  datatype Received = Received(on: Interface, raw: Raw)

  function Hear(c: Primitives, node: Node, packets: seq<Received>): Node
    decreases |packets|
  {
    if packets == [] then node
    else
      var n := |packets| - 1;
      Inbound(c, Hear(c, node, packets[..n]), packets[n].on, packets[n].raw).node
  }

  /** The packet at that place proves link k. */
  predicate ProvedBy(c: Primitives, node: Node, packets: seq<Received>, k: Raw, i: nat)
    requires i < |packets|
  {
    Proves(c, Hear(c, node, packets[..i]), packets[i].on, packets[i].raw, k)
  }

  /** Over any packets: a link validated at the end was so at first, or one of the packets proves it. */
  lemma {:induction false} ValidatedRunHasProof(c: Primitives, node: Node, packets: seq<Received>, k: Raw)
    requires var links := Hear(c, node, packets).links; k in links && links[k].validated
    requires k !in node.links || !node.links[k].validated
    ensures exists i :: 0 <= i < |packets| && ProvedBy(c, node, packets, k, i)
    decreases |packets|
  {
    var n := |packets| - 1;
    var before := Hear(c, node, packets[..n]);
    ValidatedOnlyByProof(c, before, packets[n].on, packets[n].raw, k);
    if k in before.links && before.links[k].validated {
      ValidatedRunHasProof(c, node, packets[..n], k);
      var i :| 0 <= i < n && ProvedBy(c, node, packets[..n], k, i);
      assert packets[..n][..i] == packets[..i];
      assert ProvedBy(c, node, packets, k, i);
    } else {
      assert ProvedBy(c, node, packets, k, n);
    }
  }

  /** A signed one that is let in goes back towards the initiator and marks the link. */
  lemma {:induction false} SignedProofValidates(c: Primitives, node: Node, raw: Raw)
    requires WellFormed(raw) && !InTransport(raw[0]) && PacketType(raw) == PROOF && Context(raw) == LRPROOF
    requires Passes(c, node, raw) && Destination(raw) in node.links
    requires var e := node.links[Destination(raw)];
             e.destination in node.identities && SignedFor(c, node.identities[e.destination], Destination(raw), Data(raw))
    ensures var e := node.links[Destination(raw)];
            var outcome := Inbound(c, node, e.outbound, raw);
            && outcome.node == node.(links := node.links[Destination(raw) := e.(validated := true)])
            && |outcome.sends| == 1 && outcome.sends[0].via == e.receiving
  {
    var e := node.links[Destination(raw)];
    VouchedIsSigned(c, node.identities[e.destination], Destination(raw), Data(raw));
    assert Remembered(c, node, raw) == node;
    assert LinkTransport(c, node, e.outbound, raw) == Outcome(node, []);
  }

  /** A regular proof goes back only from the interface its packet went out on. */
  lemma {:induction false} ProofOnlyFromOutbound(c: Primitives, node: Node, on: Interface, raw: Raw)
    requires WellFormed(raw) && !InTransport(raw[0]) && PacketType(raw) == PROOF && Context(raw) != LRPROOF
    requires Destination(raw) !in node.links && Inbound(c, node, on, raw).sends != []
    ensures var d := Destination(raw);
            Context(raw) != RESOURCE_PRF && d in node.reverses && on == node.reverses[d].outbound
  {
  }

  /** A node sends nothing without one of four reasons, and a packet in transport for another node has none. */
  lemma {:induction false} SendsOnlyFor(c: Primitives, node: Node, on: Interface, raw: Raw)
    requires Inbound(c, node, on, raw).sends != []
    ensures && WellFormed(raw) && PacketType(raw) != ANNOUNCE
            && (InTransport(raw[0]) ==> TransportId(raw) == Some(node.id))
            && var d := Destination(raw);
               || (InTransport(raw[0]) && d in node.paths)
               || (d in node.links && PacketType(raw) != LINKREQUEST && Context(raw) != LRPROOF && ExpectedOnLink(node, on, raw))
               || (d in node.links && PacketType(raw) == PROOF && Context(raw) == LRPROOF && on == node.links[d].outbound)
               || (d in node.reverses && PacketType(raw) == PROOF && on == node.reverses[d].outbound)
  {
    var known := Remembered(c, node, raw);
    if InTransport(raw[0]) && Destination(raw) in node.paths {
      return;
    }
    var first := if InTransport(raw[0]) && PacketType(raw) != ANNOUNCE then Forward(c, known, on, raw) else Outcome(known, []);
    assert first == Outcome(known, []);
    LinkSendsOnlyFor(c, known, on, raw);
    var second := LinkTransport(c, known, on, raw);
    if second.sends == [] {
      ProofSendsOnlyFor(c, second.node, on, raw);
    }
  }

  lemma {:induction false} LinkSendsOnlyFor(c: Primitives, node: Node, on: Interface, raw: Raw)
    requires WellFormed(raw)
    ensures LinkTransport(c, node, on, raw).node.links == node.links && LinkTransport(c, node, on, raw).node.reverses == node.reverses
    ensures LinkTransport(c, node, on, raw).sends != [] ==>
              && Destination(raw) in node.links && PacketType(raw) != ANNOUNCE && PacketType(raw) != LINKREQUEST && Context(raw) != LRPROOF
              && ExpectedOnLink(node, on, raw)
  {
    if Destination(raw) in node.links {
      DirectionExactlyWhen(node.links[Destination(raw)], on, raw[1] + 1);
    }
  }

  lemma {:induction false} ProofSendsOnlyFor(c: Primitives, node: Node, on: Interface, raw: Raw)
    requires WellFormed(raw) && ProofTransport(c, node, on, raw).sends != []
    ensures PacketType(raw) == PROOF
    ensures var d := Destination(raw);
            || (d in node.links && Context(raw) == LRPROOF && on == node.links[d].outbound)
            || (d in node.reverses && on == node.reverses[d].outbound)
  {
  }

  /** A packet in transport for another node, or a plain or group packet from beyond one hop, changes nothing. */
  lemma {:induction false} ForeignIsIgnored(c: Primitives, node: Node, on: Interface, raw: Raw)
    requires WellFormed(raw) && PacketType(raw) != ANNOUNCE
    requires || (InTransport(raw[0]) && TransportId(raw) != Some(node.id))
             || (DestinationType(raw) in {PLAIN, GROUP} && raw[1] != 0 && raw[1] != 0xFF
                 && Context(raw) !in {KEEPALIVE, RESOURCE_REQ, RESOURCE_PRF, RESOURCE, CACHE_REQUEST, CHANNEL})
    ensures Inbound(c, node, on, raw) == Outcome(node, [])
  {
    if raw[1] != 0 && raw[1] != 0xFF {
      ManyHops(raw[1]);
    }
  }

  /**
   What the filter lets in, whatever it has seen, of the packets not in transport for another:
   link traffic, and for plain and group destinations packets within one hop, but no announce.
   */
  lemma {:induction false} FilterLetsIn(c: Primitives, node: Node, raw: Raw)
    requires WellFormed(raw) && (!InTransport(raw[0]) || PacketType(raw) == ANNOUNCE || TransportId(raw) == Some(node.id))
    requires Context(raw) in {KEEPALIVE, RESOURCE_REQ, RESOURCE_PRF, RESOURCE, CACHE_REQUEST, CHANNEL} || DestinationType(raw) in {PLAIN, GROUP}
    ensures Passes(c, node, raw) <==>
              || Context(raw) in {KEEPALIVE, RESOURCE_REQ, RESOURCE_PRF, RESOURCE, CACHE_REQUEST, CHANNEL}
              || (PacketType(raw) != ANNOUNCE && (raw[1] == 0 || raw[1] == 0xFF))
  {
    if raw[1] != 0 && raw[1] != 0xFF {
      ManyHops(raw[1]);
    }
  }

  /** Of the others it lets in what is new, and announces of single destinations again and again. */
  lemma {:induction false} FilterLetsInNew(c: Primitives, node: Node, raw: Raw)
    requires WellFormed(raw) && (!InTransport(raw[0]) || PacketType(raw) == ANNOUNCE || TransportId(raw) == Some(node.id))
    requires Context(raw) !in {KEEPALIVE, RESOURCE_REQ, RESOURCE_PRF, RESOURCE, CACHE_REQUEST, CHANNEL} && DestinationType(raw) !in {PLAIN, GROUP}
    ensures PacketHash(c, raw) !in node.seen ==> Passes(c, node, raw)
    ensures Passes(c, node.(seen := node.seen + {PacketHash(c, raw)}), raw) <==> PacketType(raw) == ANNOUNCE && DestinationType(raw) == SINGLE
  {
  }

  lemma {:induction false} ManyHops(hops: Byte)
    requires hops != 0 && hops != 0xFF
    ensures hops + 1 > 1
  {
  }

  /** With a path of no hops the header stays as it is, transport id included, but for the hop count. */
  lemma {:induction false} LocalPathKeepsHeader(path: Path, raw: Raw)
    requires WellFormed(raw) && InTransport(raw[0]) && path.hops == 0
    ensures var r := Forwarded(path, raw);
            r[0] == raw[0] && r[1] == raw[1] + 1 && TransportId(r) == TransportId(raw) && Body(r) == Body(raw)
  {
    var r := Forwarded(path, raw);
    assert r == [raw[0], raw[1] + 1] + raw[2..];
    assert r[2..2 + ADDRESS] == raw[2..2 + ADDRESS];
  }

  /** A link request is dropped in transit exactly if its MTU has to be lowered and its mode is not AES-256. */
  lemma {:induction false} RequestDroppedExactlyWhen(on: Interface, path: Path, raw: Raw)
    requires WellFormed(raw) && InTransport(raw[0])
    ensures var mtu, next := RequestMtu(Data(raw)), HopMtu(RequestMtu(Data(raw)), Hop(on, path.via));
            ClampedRequest(on, path, raw).None? <==> RequestMode(Data(raw)) != MODE_AES256_CBC && 0 < next < mtu
  {
  }

  // ------------------------------------------------------- what every step keeps

  /** No packet takes an entry out of a table or changes what it says about direction and hops. */
  ghost predicate Extends(before: Node, after: Node) {
    && after.id == before.id && after.paths == before.paths && after.identities == before.identities
    && before.seen <= after.seen
    && (forall k :: k in before.reverses ==> k in after.reverses && after.reverses[k] == before.reverses[k])
    && (forall k :: k in before.links ==>
         k in after.links && after.links[k].(validated := before.links[k].validated) == before.links[k])
  }

  lemma {:induction false} InboundExtends(c: Primitives, node: Node, on: Interface, raw: Raw)
    ensures Extends(node, Inbound(c, node, on, raw).node)
  {
    if WellFormed(raw) && Passes(c, node, raw) {
      var known := Remembered(c, node, raw);
      var first := if InTransport(raw[0]) && PacketType(raw) != ANNOUNCE
                   then Forward(c, known, on, raw) else Outcome(known, []);
      assert Extends(node, known);
      if InTransport(raw[0]) && PacketType(raw) != ANNOUNCE {
        ForwardExtends(c, known, on, raw);
        ExtendsTransitive(node, known, first.node);
      }
      TablesExtend(c, first.node, on, raw);
      ExtendsTransitive(node, first.node, Inbound(c, node, on, raw).node);
    }
  }

  lemma {:induction false} TablesExtend(c: Primitives, node: Node, on: Interface, raw: Raw)
    requires WellFormed(raw)
    ensures Extends(node, ProofTransport(c, LinkTransport(c, node, on, raw).node, on, raw).node)
  {
    var second := LinkTransport(c, node, on, raw).node;
    ProofExtends(c, second, on, raw);
    ExtendsTransitive(node, second, ProofTransport(c, second, on, raw).node);
  }

  lemma {:induction false} ForwardExtends(c: Primitives, node: Node, on: Interface, raw: Raw)
    requires WellFormed(raw) && InTransport(raw[0])
    ensures Extends(node, Forward(c, node, on, raw).node)
  {
  }

  lemma {:induction false} ProofExtends(c: Primitives, node: Node, on: Interface, raw: Raw)
    requires WellFormed(raw)
    ensures Extends(node, ProofTransport(c, node, on, raw).node)
  {
  }

  lemma {:induction false} ExtendsTransitive(a: Node, b: Node, d: Node)
    requires Extends(a, b) && Extends(b, d)
    ensures Extends(a, d)
  {
    forall k | k in a.links
      ensures k in d.links && d.links[k].(validated := a.links[k].validated) == a.links[k]
    {
      assert k in b.links;
    }
  }
}
