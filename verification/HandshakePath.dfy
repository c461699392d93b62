/** A whole handshake over a chain of transport nodes: when it succeeds, and the MTU it settles on. */
module HandshakePath {
  import opened Basics
  import opened PacketFormat
  import opened Signalling
  import opened Relay
  import opened RelayChain
  import opened LinkRelay
  import opened Handshake

  /** A link request proof as packed by the responder. */
  function ProofPacket(linkId: Address, proof: Raw): (r: Raw)
    ensures WellFormed(r) && IsRequestProof(r) && Destination(r) == linkId && Data(r) == proof
  {
    var body := linkId + [LRPROOF] + proof;
    var r := [0x0F, 0] + body;
    assert r[2..] == body;
    assert body[..ADDRESS] == linkId && body[ADDRESS + 1..] == proof;
    r
  }

  /** What the initiator's node does with what comes back. */
  function Returned(c: Primitives, k: Keys, link: Link, signingKey: Raw, back: Journey): Link {
    if back.Lost? || !WellFormed(back.raw) || Destination(back.raw) != link.linkId then link
    else ValidateProof(c, k, link, signingKey, Data(back.raw))
  }

  /** The MTU a link ends with: the least on the path, or the default without signalling. */
  function LinkMtu(signalled: Mtu, hops: seq<Hop>, on: Interface): Mtu {
    var path := PathMtu(signalled, hops);
    if path == 0 then DEFAULT_MTU else Min(path, LocalMtu(on))
  }

  /** Every MTU on the way: the signalled one, those of the hops, and that of the destination's interface. */
  predicate OnTheWay(m: Mtu, signalled: Mtu, hops: seq<Hop>, on: Interface) {
    || m == signalled
    || (exists i :: 0 <= i < |hops| && Bounds(m, hops[i]))
    || ((on.autoconfigure || on.fixedMtu) && m == on.hwMtu)
    || (!on.autoconfigure && !on.fixedMtu && m == DEFAULT_MTU)
  }

  /** The MTU of a link is the default if a hop strips the signalling, and otherwise the least on the way. */
  lemma {:induction false} LinkMtuIsLeast(signalled: Mtu, hops: seq<Hop>, on: Interface)
    requires signalled != 0
    ensures (exists i :: 0 <= i < |hops| && Strips(hops[i].outward)) ==> LinkMtu(signalled, hops, on) == DEFAULT_MTU
    ensures (forall i :: 0 <= i < |hops| ==> !Strips(hops[i].outward)) ==>
              && OnTheWay(LinkMtu(signalled, hops, on), signalled, hops, on)
              && forall m :: OnTheWay(m, signalled, hops, on) ==> LinkMtu(signalled, hops, on) <= m
  {
    StrippedExactlyWhen(signalled, hops);
    var path := PathMtu(signalled, hops);
    if path != 0 {
      PathMtuIsAttained(signalled, hops);
      PathMtuIsLeast(signalled, hops, |hops|, signalled);
      forall m | OnTheWay(m, signalled, hops, on) ensures LinkMtu(signalled, hops, on) <= m {
        if i :| 0 <= i < |hops| && Bounds(m, hops[i]) {
          PathMtuIsLeast(signalled, hops, i, m);
        }
      }
    }
  }

  // ------------------------------------------------------------------ responder

  /** The session keeps the link id exactly when its interface leaves the arrived bytes and data consistent. */
  lemma {:induction false} RespondOnPath(c: Primitives, k: Keys, identity: Raw, privateKey: Raw, on: Interface, raw: Raw)
    requires WellFormed(raw) && IsRequest(raw)
    ensures var session, mtu := Respond(c, k, identity, privateKey, on, raw), RequestMtu(Data(raw));
            && session.Some? && SessionHolds(c, k, session.value) && session.value.raw == raw
            && session.value.link.privateKey == privateKey
            && session.value.proof == ProofData(k, identity, session.value.link)
            && (ResponderPart(raw, session.value.data) == LinkIdPart(raw) <==> on.hwMtu != 0 || mtu == 0)
            && (on.hwMtu != 0 || mtu == 0 ==>
                 session.value.link.mtu == if mtu == 0 then DEFAULT_MTU else Min(mtu, LocalMtu(on)))
  {
    RespondHolds(c, k, identity, privateKey, on, raw);
    var data := Data(raw);
    var local := LocalData(on, data).value;
    if RequestMtu(data) != 0 && on.hwMtu != 0 && LocalMtu(on) < RequestMtu(data) {
      SignallingRoundTrip(LocalMtu(on), RequestMode(data));
      assert local[ECPUBSIZE..] == SignallingBytes(LocalMtu(on), RequestMode(data));
    }
    HashableEndsInData(raw);
  }

  // ---------------------------------------------------------------------- proof

  /** The identity's signature of what the responder signs validates. */
  predicate Signs(c: Primitives, k: Keys, identity: Raw, link: Link) {
    var message := Message(k, identity, link);
    c.verify(k.signingPublic(identity), k.sign(identity, message), message)
  }

  /** A responder's own proof validates, and claims what the responder signed. */
  lemma {:induction false} OwnProofVouched(c: Primitives, k: Keys, identity: Raw, link: Link)
    requires Lawful(c, k) && link.mode == MODE_AES256_CBC
    requires Signs(c, k, identity, link)
    ensures var data := ProofData(k, identity, link);
            && Vouched(c, k.signingPublic(identity), link.linkId, data)
            && Claimed(k.signingPublic(identity), link.linkId, data) == Some(Message(k, identity, link))
            && ProofMode(data) == MODE_AES256_CBC
  {
    var data := ProofData(k, identity, link);
    var signalling := SignallingBytes(link.mtu, link.mode);
    assert data[..SIGNATURE] == k.sign(identity, Message(k, identity, link));
    assert data[SIGNATURE..SIGNATURE + KEY] == k.publicOf(link.privateKey);
    assert data[SIGNATURE + KEY..] == signalling;
    assert data[SIGNATURE + KEY] == signalling[0];
    SignallingRoundTrip(link.mtu, link.mode);
  }

  /** It activates a pending initiator of the same link, which then has the responder's MTU and key. */
  lemma {:induction false} OwnProofActivates(c: Primitives, k: Keys, identity: Raw, link: Link, session: Link)
    requires Lawful(c, k) && session.mode == MODE_AES256_CBC && link.linkId == session.linkId
    requires Signs(c, k, identity, session)
    requires link.initiator && link.status == Pending && link.mode == MODE_AES256_CBC
    ensures var active := ValidateProof(c, k, link, k.signingPublic(identity), ProofData(k, identity, session));
            && active.status == Active && active.peerKey == k.publicOf(session.privateKey)
            && active.mtu == if session.mtu != 0 then session.mtu else DEFAULT_MTU
  {
    OwnProofVouched(c, k, identity, session);
    ProofNames(k, k.signingPublic(identity), session.linkId, ProofData(k, identity, session), identity, session);
  }

  /** A request proof keeps its address and data however it is relayed. */
  lemma {:induction false} RelayedProofKeepsBody(c: Primitives, stations: seq<Station>, raw: Raw)
    requires WellFormed(raw) && IsRequestProof(raw)
    ensures var back := CarryBack(c, stations, raw);
            back.Carried? ==> WellFormed(back.raw) && back.raw[0] == raw[0] && Body(back.raw) == Body(raw)
    decreases |stations|
  {
    if stations != [] {
      RelayedProofKeepsBody(c, stations[1..], raw);
      var rest := CarryBack(c, stations[1..], raw);
      if rest.Carried? {
        RelayedOnce(c, stations[0].node, stations[0].outward, rest.raw);
      }
    }
  }

  lemma {:induction false} RelayedOnce(c: Primitives, node: Node, on: Interface, raw: Raw)
    requires WellFormed(raw) && IsRequestProof(raw)
    ensures forall i :: 0 <= i < |Inbound(c, node, on, raw).sends| ==> Inbound(c, node, on, raw).sends[i].raw == Bumped(raw)
  {
  }

  lemma {:induction false} LaterRecalls(before: seq<Station>, after: seq<Station>, destination: Raw, signingKey: Raw)
    requires Later(before, after) && Recalls(before, destination, signingKey)
    ensures Recalls(after, destination, signingKey)
  {
    forall s | s in after
      ensures destination in s.node.identities && s.node.identities[destination] == signingKey
    {
      var i :| 0 <= i < |after| && after[i] == s;
      assert Continues(before[i], after[i]) && before[i] in before;
    }
  }

  // -------------------------------------------------------------- the handshake

  /** The responder's session and proof, once a request has reached it. */
  function Answer(c: Primitives, k: Keys, identity: Raw, privateKey: Raw, on: Interface, arrived: Raw): (r: (Session, Raw))
    requires Lawful(c, k) && WellFormed(arrived) && IsRequest(arrived)
    ensures WellFormed(r.1) && IsRequestProof(r.1)
  {
    RespondOnPath(c, k, identity, privateKey, on, arrived);
    var session := Respond(c, k, identity, privateKey, on, arrived).value;
    (session, ProofPacket(session.link.linkId, session.proof))
  }

  lemma {:induction false} AnswerAccepted(c: Primitives, k: Keys, identity: Raw, link: Link, request: Raw, session: Session, back: Journey)
    requires Lawful(c, k) && WellFormed(request) && |Data(request)| == ECPUBSIZE + LINK_MTU_SIZE
    requires link.initiator && link.status == Pending && link.mode == MODE_AES256_CBC && link.linkId == LinkId(c, request)
    requires Data(request)[..KEY] == k.publicOf(link.privateKey)
    requires SessionHolds(c, k, session) && NotColliding(c, request, session) && session.link.linkId == link.linkId
    requires session.proof == ProofData(k, identity, session.link)
    requires Signs(c, k, identity, session.link)
    requires Reaches(back, ProofPacket(session.link.linkId, session.proof))
    ensures var final := Returned(c, k, link, k.signingPublic(identity), back);
            final.status == Active && Agree(final, session.link)
  {
    OwnProofVouched(c, k, identity, session.link);
    OwnProofActivates(c, k, identity, link, session.link);
    ValidProofAgrees(c, k, identity, request, link, session.proof, session);
  }

  lemma {:induction false} AnswerIgnored(c: Primitives, k: Keys, link: Link, signingKey: Raw, stations: seq<Station>, proof: Raw)
    requires WellFormed(proof) && IsRequestProof(proof) && Destination(proof) != link.linkId
    ensures Returned(c, k, link, signingKey, CarryBack(c, stations, proof)) == link
  {
    RelayedProofKeepsBody(c, stations, proof);
  }

  lemma {:induction false} RequestIsReady(k: Keys, privateKey: Raw, signingKey: Raw, mtu: Mtu, destination: Address, stations: seq<Station>)
    requires |k.publicOf(privateKey)| == KEY && |signingKey| == KEY
    ensures var request := RequestPacket(destination, RequestData(k, privateKey, signingKey, mtu, MODE_AES256_CBC));
            && |Data(request)| == ECPUBSIZE + LINK_MTU_SIZE && Data(request)[..KEY] == k.publicOf(privateKey)
            && RequestMtu(Data(request)) == mtu
            && LinkIdPart(Sent(stations, request)) == LinkIdPart(request)
            && Destination(Sent(stations, request)) == destination && Data(Sent(stations, request)) == Data(request)
  {
    var data := RequestData(k, privateKey, signingKey, mtu, MODE_AES256_CBC);
    SignallingRoundTrip(mtu, MODE_AES256_CBC);
    assert data[..KEY] == k.publicOf(privateKey);
    assert data[ECPUBSIZE..] == SignallingBytes(mtu, MODE_AES256_CBC);
  }

  /**
   A handshake over a chain of any length succeeds if and only if the destination's interface
   has a hardware MTU or a transit node has stripped the signalling. Then both ends agree, and
   the MTU is the least of the signalled one and of every hop's, or the default if stripped.
   */
  lemma {:induction false} HandshakeSucceedsExactlyWhen(
    c: Primitives, k: Keys, identity: Raw, destination: Address, privateKey: Raw, signingKey: Raw, mtu: Mtu,
    responderKey: Raw, on: Interface, stations: seq<Station>, request: Raw)
    requires Lawful(c, k) && |signingKey| == KEY && mtu != 0
    requires forall m :: c.verify(k.signingPublic(identity), k.sign(identity, m), m)
    requires request == RequestPacket(destination, RequestData(k, privateKey, signingKey, mtu, MODE_AES256_CBC))
    requires Ready(c, stations, Sent(stations, request))
    requires Recalls(stations, destination, k.signingPublic(identity))
    ensures var there := CarryOut(c, stations, Sent(stations, request));
            && there.Carried? && WellFormed(there.raw) && IsRequest(there.raw)
            && var (session, proof) := Answer(c, k, identity, responderKey, on, there.raw);
               (NotColliding(c, request, session) && Unseen(c, there.stations, HashablePart(proof)) ==>
                  var link := Initiate(c, privateKey, request, MODE_AES256_CBC).value;
                  var final := Returned(c, k, link, k.signingPublic(identity), CarryBack(c, there.stations, proof));
                  && (final.status == Active <==> on.hwMtu != 0 || PathMtu(mtu, Hops(stations)) == 0)
                  && (final.status == Active ==> Agree(final, session.link) && final.mtu == LinkMtu(mtu, Hops(stations), on)))
  {
    var sent := Sent(stations, request);
    RequestIsReady(k, privateKey, signingKey, mtu, destination, stations);
    RequestArrives(c, stations, sent);
    JourneyIsLater(c, stations, sent);
    var there := CarryOut(c, stations, sent);
    LaterRecalls(stations, there.stations, destination, k.signingPublic(identity));
    var (session, proof) := Answer(c, k, identity, responderKey, on, there.raw);
    RespondOnPath(c, k, identity, responderKey, on, there.raw);
    if NotColliding(c, request, session) && Unseen(c, there.stations, HashablePart(proof)) {
      var link := Initiate(c, privateKey, request, MODE_AES256_CBC).value;
      if on.hwMtu != 0 || PathMtu(mtu, Hops(stations)) == 0 {
        OwnProofVouched(c, k, identity, session.link);
        RequestProofComesBack(c, there.stations, destination, k.signingPublic(identity), sent[1], proof);
        AnswerAccepted(c, k, identity, link, request, session, CarryBack(c, there.stations, proof));
      } else {
        AnswerIgnored(c, k, link, k.signingPublic(identity), there.stations, proof);
      }
    }
  }
}
