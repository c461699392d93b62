/**
 Establishing a link: the initiator's request, the responder's proof, and what both ends
 hold once the initiator has validated it.
 */
module Handshake {
  import opened Basics
  import opened PacketFormat
  import opened Signalling
  import opened Relay

  datatype Status = Pending | Handshaking | Active | Closed

  /** Key exchange, key derivation and signing. */
  datatype Keys = Keys(
    publicOf: Raw -> Raw,
    exchange: (Raw, Raw) -> Raw,
    derive: (nat, Raw, Raw) -> Raw,
    signingPublic: Raw -> Raw,
    sign: (Raw, Raw) -> Raw)

  datatype Link = Link(
    initiator: bool,
    status: Status,
    linkId: Raw,
    mode: Byte,
    mtu: Mtu,
    privateKey: Raw,
    peerKey: Raw,
    derivedKey: Raw)

  // ----------------------------------------------------------------- handshake

  function DerivedLength(mode: Byte): Option<nat> {
    if mode == MODE_AES128_CBC then Some(32) else if mode == MODE_AES256_CBC then Some(64) else None
  }

  /** handshake; the second part tells whether it threw. */
  function ShakeHands(k: Keys, link: Link): (r: (Link, bool)) {
    if link.status != Pending then (link, false)
    else
      var length := DerivedLength(link.mode);
      if length.None? then (link.(status := Handshaking), true)
      else
        (link.(status := Handshaking,
               derivedKey := k.derive(length.value, k.exchange(link.privateKey, link.peerKey), link.linkId)), false)
  }

  /**
   A pending link leaves that state whatever its mode. With one of the two AES modes it then
   holds a key of twice the cipher's key size, drawn from the exchange and the link id; with
   another it throws without one. No other link is changed.
   */
  lemma {:induction false} HandshakeDerives(k: Keys, link: Link)
    ensures var (after, threw) := ShakeHands(k, link);
            var shared := k.exchange(link.privateKey, link.peerKey);
            && (link.status != Pending ==> after == link && !threw)
            && (link.status == Pending ==>
                  && after == link.(status := Handshaking, derivedKey := after.derivedKey)
                  && (threw <==> link.mode !in {MODE_AES128_CBC, MODE_AES256_CBC})
                  && (threw ==> after.derivedKey == link.derivedKey)
                  && (link.mode == MODE_AES128_CBC ==> after.derivedKey == k.derive(2 * 16, shared, link.linkId))
                  && (link.mode == MODE_AES256_CBC ==> after.derivedKey == k.derive(2 * 32, shared, link.linkId)))
  {
  }

  // ----------------------------------------------------------------- initiator

  /** The data of a link request. */
  function RequestData(k: Keys, privateKey: Raw, signingKey: Raw, mtu: Mtu, mode: Byte): Raw {
    k.publicOf(privateKey) + signingKey + SignallingBytes(mtu, mode)
  }

  /** A link request as packed by its initiator: single destination, no transport header. */
  function RequestPacket(destination: Address, data: Raw): (r: Raw)
    ensures WellFormed(r) && !InTransport(r[0]) && Destination(r) == destination && Data(r) == data
  {
    var r := [LINKREQUEST, 0] + destination + [0] + data;
    assert r[2..] == destination + [0] + data;
    assert (destination + [0] + data)[..ADDRESS] == destination;
    assert (destination + [0] + data)[ADDRESS + 1..] == data;
    r
  }

  /** The constructor's check in signalling_bytes: only an enabled mode can be requested. */
  function Initiate(c: Primitives, privateKey: Raw, request: Raw, mode: Byte): Option<Link>
    requires WellFormed(request)
  {
    if !Enabled(mode) then None
    else Some(Link(true, Pending, LinkId(c, request), mode, DEFAULT_MTU, privateKey, [], []))
  }

  function ProofMode(data: Raw): Byte {
    if |data| > SIGNATURE + KEY then data[SIGNATURE + KEY] >> 5 else MODE_DEFAULT
  }

  function ProofMtu(data: Raw): Mtu {
    if |data| == SIGNATURE + KEY + LINK_MTU_SIZE then SignalledMtu(data[SIGNATURE + KEY..]) else 0
  }

  /** validate_proof, on the data of a proof addressed to the link. */
  function ValidateProof(c: Primitives, k: Keys, link: Link, signingKey: Raw, data: Raw): Link {
    if link.status != Pending then link
    else if ProofMode(data) != link.mode then link.(status := Closed)
    else if |data| == SIGNATURE + KEY + LINK_MTU_SIZE && !Enabled(ProofMode(data)) then link.(status := Closed)
    else if !link.initiator || (|data| != SIGNATURE + KEY && |data| != SIGNATURE + KEY + LINK_MTU_SIZE) then link
    else
      var (shaken, threw) := ShakeHands(k, link.(peerKey := data[SIGNATURE..SIGNATURE + KEY]));
      if threw then shaken.(status := Closed)
      else if Vouched(c, signingKey, link.linkId, data) then
        shaken.(status := Active, mtu := if ProofMtu(data) != 0 then ProofMtu(data) else DEFAULT_MTU)
      else shaken
  }

  // ----------------------------------------------------------------- responder

  /** What the destination's interface makes of the request data; the packet's bytes stay as they arrived. */
  function LocalData(on: Interface, data: Raw): Option<Raw> {
    var mtu := RequestMtu(data);
    if mtu == 0 then Some(data)
    else if on.hwMtu == 0 then Some(data[..|data| - LINK_MTU_SIZE])
    else if LocalMtu(on) < mtu then
      if Enabled(RequestMode(data)) then
        Some(data[..|data| - LINK_MTU_SIZE] + SignallingBytes(LocalMtu(on), RequestMode(data)))
      else None
    else Some(data)
  }

  function LocalMtu(on: Interface): Mtu {
    if on.autoconfigure || on.fixedMtu then on.hwMtu else DEFAULT_MTU
  }

  /** What the responder hashes into its link id: the bytes as they arrived, less the tail of the edited data. */
  function ResponderPart(raw: Raw, data: Raw): Raw
    requires WellFormed(raw)
  {
    var part := HashablePart(raw);
    if |data| > ECPUBSIZE && |data| - ECPUBSIZE <= |part| then part[..|part| - (|data| - ECPUBSIZE)] else part
  }

  /** A request accepted: the responder's link and the data of the proof it sends. */
  datatype Session = Session(link: Link, raw: Raw, data: Raw, proof: Raw)

  function Message(k: Keys, identity: Raw, link: Link): Raw {
    SignedData(link.linkId, k.publicOf(link.privateKey), k.signingPublic(identity), SignallingBytes(link.mtu, link.mode))
  }

  /** The proof carries the signature, the responder's exchange key and the signalling. */
  function ProofData(k: Keys, identity: Raw, link: Link): Raw {
    k.sign(identity, Message(k, identity, link)) + k.publicOf(link.privateKey) + SignallingBytes(link.mtu, link.mode)
  }

  /** Delivery to a local destination, then validate_request; identity is the destination's signing key. */
  function Respond(c: Primitives, k: Keys, identity: Raw, privateKey: Raw, on: Interface, raw: Raw): Option<Session>
    requires WellFormed(raw)
  {
    var local := LocalData(on, Data(raw));
    if local.None? then None
    else Accept(c, k, identity, privateKey, raw, local.value)
  }

  /** A responder's link before the handshake. */
  function RequestedLink(c: Primitives, privateKey: Raw, raw: Raw, data: Raw): Link
    requires WellFormed(raw) && |data| >= KEY
  {
    Link(false, Pending, Left(c.hash(ResponderPart(raw, data)), ADDRESS), RequestMode(data),
         if RequestMtu(data) != 0 then RequestMtu(data) else DEFAULT_MTU, privateKey, data[..KEY], [])
  }

  function Accept(c: Primitives, k: Keys, identity: Raw, privateKey: Raw, raw: Raw, data: Raw): Option<Session>
    requires WellFormed(raw)
  {
    if |data| != ECPUBSIZE && |data| != ECPUBSIZE + LINK_MTU_SIZE then None
    else
      var link := RequestedLink(c, privateKey, raw, data);
      var (shaken, threw) := ShakeHands(k, link);
      if threw || !Enabled(link.mode) then None
      else Some(Session(shaken, raw, data, ProofData(k, identity, shaken)))
  }

  // ----------------------------------------------------------------- agreement

  /** The same link, mode, key and MTU at both ends. */
  predicate Agree(a: Link, b: Link) {
    a.linkId == b.linkId && a.mode == b.mode && a.derivedKey == b.derivedKey && a.mtu == b.mtu
  }

  /** Lengths of the primitives' results, and the two ways of one exchange. */
  ghost predicate Lawful(c: Primitives, k: Keys) {
    && (forall x :: |c.hash(x)| == 32)
    && (forall x :: |k.publicOf(x)| == KEY)
    && (forall x :: |k.signingPublic(x)| == KEY)
    && (forall x, m :: |k.sign(x, m)| == SIGNATURE)
    && (forall a, b :: k.exchange(a, k.publicOf(b)) == k.exchange(b, k.publicOf(a)))
  }

  /** Anyone may send the responder any request and the initiator any proof, in any order. */
  datatype Event = Request(privateKey: Raw, on: Interface, raw: Raw) | Proof(data: Raw)

  datatype World = World(initiator: Link, sessions: seq<Session>)

  function Step(c: Primitives, k: Keys, identity: Raw, w: World, e: Event): World {
    match e
    case Request(privateKey, on, raw) =>
      if !WellFormed(raw) then w
      else
        var session := Respond(c, k, identity, privateKey, on, raw);
        if session.None? then w else w.(sessions := w.sessions + [session.value])
    case Proof(data) => w.(initiator := ValidateProof(c, k, w.initiator, k.signingPublic(identity), data))
  }

  function Run(c: Primitives, k: Keys, identity: Raw, w: World, events: seq<Event>): World
    decreases |events|
  {
    if events == [] then w else Run(c, k, identity, Step(c, k, identity, w, events[0]), events[1..])
  }

  /** The message a proof claims to sign. */
  function Claimed(signingKey: Raw, linkId: Raw, data: Raw): Option<Raw> {
    if && (|data| == SIGNATURE + KEY || |data| == SIGNATURE + KEY + LINK_MTU_SIZE) && ProofSignalling(data).Some?
    then Some(SignedData(linkId, data[SIGNATURE..SIGNATURE + KEY], signingKey, ProofSignalling(data).value))
    else None
  }

  /** Signatures are not forged: one that validates was made by the destination, for a session it holds. */
  ghost predicate Genuine(c: Primitives, k: Keys, identity: Raw, w: World, e: Event) {
    e.Proof? && Vouched(c, k.signingPublic(identity), w.initiator.linkId, e.data) ==>
      exists i :: 0 <= i < |w.sessions| &&
                  Claimed(k.signingPublic(identity), w.initiator.linkId, e.data) == Some(Message(k, identity, w.sessions[i].link))
  }

  ghost predicate AllGenuine(c: Primitives, k: Keys, identity: Raw, w: World, events: seq<Event>)
    decreases |events|
  {
    events == [] ||
    (Genuine(c, k, identity, w, events[0]) && AllGenuine(c, k, identity, Step(c, k, identity, w, events[0]), events[1..]))
  }

  /** Hashes are injective on the inputs used: no request hashes to the initiator's link id but one with its keys. */
  ghost predicate NoCollision(c: Primitives, request: Raw, w: World)
    requires WellFormed(request)
  {
    forall i :: 0 <= i < |w.sessions| ==> NotColliding(c, request, w.sessions[i])
  }

  ghost predicate NotColliding(c: Primitives, request: Raw, s: Session)
    requires WellFormed(request)
  {
    WellFormed(s.raw) &&
    (s.link.linkId == LinkId(c, request) ==> ResponderPart(s.raw, s.data) == LinkIdPart(request))
  }

  /** What holds of every session the responder creates. */
  ghost predicate SessionHolds(c: Primitives, k: Keys, s: Session) {
    && WellFormed(s.raw)
    && (|s.data| == ECPUBSIZE || |s.data| == ECPUBSIZE + LINK_MTU_SIZE)
    && |s.data| <= |Data(s.raw)| <= ECPUBSIZE + LINK_MTU_SIZE
    && s.data[..ECPUBSIZE] == Data(s.raw)[..ECPUBSIZE]
    && s.link.linkId == Left(c.hash(ResponderPart(s.raw, s.data)), ADDRESS)
    && s.link.peerKey == s.data[..KEY]
    && s.link.mode == MODE_AES256_CBC && s.link.mtu != 0
    && s.link.derivedKey == k.derive(64, k.exchange(s.link.privateKey, s.link.peerKey), s.link.linkId)
  }

  lemma {:induction false} RespondHolds(c: Primitives, k: Keys, identity: Raw, privateKey: Raw, on: Interface, raw: Raw)
    requires WellFormed(raw)
    ensures var session := Respond(c, k, identity, privateKey, on, raw);
            session.Some? ==> SessionHolds(c, k, session.value)
  {
    var local := LocalData(on, Data(raw));
    if local.Some? && |Data(raw)| == ECPUBSIZE + LINK_MTU_SIZE {
      assert local.value[..ECPUBSIZE] == Data(raw)[..ECPUBSIZE];
    }
  }

  /**
   What the destination's interface leaves of a signalled MTU: no more than it takes itself,
   keys and mode untouched. A mode other than AES-256 cannot be signalled again, so such a request is lost exactly when lowered.
   */
  lemma {:induction false} DestinationClamps(on: Interface, data: Raw)
    requires |data| == ECPUBSIZE + LINK_MTU_SIZE && RequestMtu(data) != 0
    ensures var local := LocalData(on, data);
            var own := if on.autoconfigure || on.fixedMtu then on.hwMtu else DEFAULT_MTU;
            if on.hwMtu == 0 then local == Some(data[..ECPUBSIZE])
            else if RequestMode(data) != MODE_AES256_CBC then local == (if own < RequestMtu(data) then None else Some(data))
            else && local.Some? && |local.value| == |data| && local.value[..ECPUBSIZE] == data[..ECPUBSIZE]
                 && RequestMode(local.value) == MODE_AES256_CBC && RequestMtu(local.value) == Min(own, RequestMtu(data))
  {
    RequestSignals(data[..ECPUBSIZE], LocalMtu(on), MODE_AES256_CBC, data);
  }

  /**
   When a request is answered: with the keys alone, with AES-256 signalled, or, whatever mode
   was signalled, when the interface has the signalling of an MTU stripped. The answering link is no initiator.
   */
  lemma {:induction false} AnsweredExactlyWhen(c: Primitives, k: Keys, identity: Raw, privateKey: Raw, on: Interface, raw: Raw)
    requires WellFormed(raw)
    ensures var session, data := Respond(c, k, identity, privateKey, on, raw), Data(raw);
            && (session.Some? <==>
                  || |data| == ECPUBSIZE
                  || (|data| == ECPUBSIZE + LINK_MTU_SIZE
                      && ((data[ECPUBSIZE] & 0xE0) >> 5 == MODE_AES256_CBC || (on.hwMtu == 0 && RequestMtu(data) != 0))))
            && (session.Some? ==> !session.value.link.initiator && session.value.link.status == Handshaking)
  {
    var data := Data(raw);
    if |data| == ECPUBSIZE + LINK_MTU_SIZE && RequestMtu(data) != 0 {
      DestinationClamps(on, data);
    } else {
      assert LocalData(on, data) == Some(data);
    }
    if LocalData(on, data).Some? {
      AcceptedExactlyWhen(c, k, identity, privateKey, raw, LocalData(on, data).value);
    }
  }

  lemma {:induction false} AcceptedExactlyWhen(c: Primitives, k: Keys, identity: Raw, privateKey: Raw, raw: Raw, data: Raw)
    requires WellFormed(raw)
    ensures var session := Accept(c, k, identity, privateKey, raw, data);
            && (session.Some? <==>
                  |data| == ECPUBSIZE || (|data| == ECPUBSIZE + LINK_MTU_SIZE && RequestMode(data) == MODE_AES256_CBC))
            && (session.Some? ==> !session.value.link.initiator && session.value.link.status == Handshaking)
  {
  }

  /** The hashable part is the flags, the destination, the context and then the data. */
  lemma {:induction false} HashableEndsInData(raw: Raw)
    requires WellFormed(raw)
    ensures |HashablePart(raw)| == ADDRESS + 2 + |Data(raw)|
    ensures forall n :: 0 <= n <= |Data(raw)| ==> HashablePart(raw)[ADDRESS + 2..ADDRESS + 2 + n] == Data(raw)[..n]
  {
  }

  /** A session with the initiator's link id was asked for with the initiator's key. */
  lemma {:induction false} SameIdSameKey(c: Primitives, k: Keys, request: Raw, s: Session)
    requires WellFormed(request) && |Data(request)| == ECPUBSIZE + LINK_MTU_SIZE
    requires SessionHolds(c, k, s) && ResponderPart(s.raw, s.data) == LinkIdPart(request)
    ensures s.link.peerKey == Data(request)[..KEY]
  {
    HashableEndsInData(request);
    HashableEndsInData(s.raw);
    var part := LinkIdPart(request);
    var head := ADDRESS + 2;
    assert |part| == head + ECPUBSIZE;
    assert part[head..head + KEY] == HashablePart(request)[head..head + KEY] == Data(request)[..KEY];
    assert part[head..head + KEY] == HashablePart(s.raw)[head..head + KEY] == Data(s.raw)[..KEY];
    assert s.data[..KEY] == s.data[..ECPUBSIZE][..KEY] == Data(s.raw)[..ECPUBSIZE][..KEY] == Data(s.raw)[..KEY];
  }

  /** Equal signed messages have equal parts. */
  lemma {:induction false} SignedParts(a: Raw, b: Raw, key: Raw, sa: Raw, a': Raw, b': Raw, sa': Raw)
    requires |a| == |a'| && |b| == |b'|
    requires SignedData(a, b, key, sa) == SignedData(a', b', key, sa')
    ensures a == a' && b == b' && sa == sa'
  {
    var x, y := SignedData(a, b, key, sa), SignedData(a', b', key, sa');
    assert x[..|a|] == a && y[..|a|] == a';
    assert x[|a|..|a| + |b|] == b && y[|a|..|a| + |b|] == b';
    assert x[|a| + |b| + |key|..] == sa && y[|a| + |b| + |key|..] == sa';
  }

  lemma {:induction false} SameSignalling(mtu: Mtu, mode: Byte, mtu': Mtu, mode': Byte)
    requires mode <= 7 && mode' <= 7 && SignallingBytes(mtu, mode) == SignallingBytes(mtu', mode')
    ensures mtu == mtu' && mode == mode'
  {
    SignallingRoundTrip(mtu, mode);
    SignallingRoundTrip(mtu', mode');
  }

  /** What a validated proof of a session says about it. */
  lemma {:induction false} ProofNames(k: Keys, signingKey: Raw, linkId: Raw, data: Raw, identity: Raw, link: Link)
    requires Claimed(signingKey, linkId, data) == Some(Message(k, identity, link))
    requires signingKey == k.signingPublic(identity) && |linkId| == |link.linkId| && |k.publicOf(link.privateKey)| == KEY
    requires link.mode <= 7
    ensures |data| == SIGNATURE + KEY + LINK_MTU_SIZE
    ensures linkId == link.linkId && data[SIGNATURE..SIGNATURE + KEY] == k.publicOf(link.privateKey)
    ensures ProofMtu(data) == link.mtu && SignalledMode(data[SIGNATURE + KEY..]) == link.mode
  {
    var signalling := ProofSignalling(data).value;
    SignedParts(linkId, data[SIGNATURE..SIGNATURE + KEY], signingKey, signalling,
                link.linkId, k.publicOf(link.privateKey), SignallingBytes(link.mtu, link.mode));
    var bytes := data[SIGNATURE + KEY..];
    SameSignalling(SignalledMtu(bytes), SignalledMode(bytes), link.mtu, link.mode);
  }

  /** One proof that makes the initiator active names a session that agrees with it. */
  lemma {:induction false} ValidProofAgrees(c: Primitives, k: Keys, identity: Raw, request: Raw, link: Link, data: Raw, s: Session)
    requires Lawful(c, k) && WellFormed(request) && |Data(request)| == ECPUBSIZE + LINK_MTU_SIZE
    requires link.linkId == LinkId(c, request) && link.mode == MODE_AES256_CBC && link.status == Pending
    requires Data(request)[..KEY] == k.publicOf(link.privateKey)
    requires SessionHolds(c, k, s) && NotColliding(c, request, s)
    requires Claimed(k.signingPublic(identity), link.linkId, data) == Some(Message(k, identity, s.link))
    requires ValidateProof(c, k, link, k.signingPublic(identity), data).status == Active
    ensures Agree(ValidateProof(c, k, link, k.signingPublic(identity), data), s.link)
  {
    ProofNames(k, k.signingPublic(identity), link.linkId, data, identity, s.link);
    SameIdSameKey(c, k, request, s);
    var peer := k.publicOf(s.link.privateKey);
    assert k.exchange(link.privateKey, peer) == k.exchange(s.link.privateKey, k.publicOf(link.privateKey));
  }

  // --------------------------------------------------------------- whole runs

  ghost predicate WorldHolds(c: Primitives, k: Keys, request: Raw, w: World)
    requires WellFormed(request) && |Data(request)| == ECPUBSIZE + LINK_MTU_SIZE
  {
    && (forall i :: 0 <= i < |w.sessions| ==> SessionHolds(c, k, w.sessions[i]))
    && w.initiator.linkId == LinkId(c, request) && w.initiator.mode == MODE_AES256_CBC
    && Data(request)[..KEY] == k.publicOf(w.initiator.privateKey)
    && (w.initiator.status == Active ==> exists i :: 0 <= i < |w.sessions| && Agree(w.initiator, w.sessions[i].link))
  }

  lemma {:induction false} RequestKeeps(c: Primitives, k: Keys, identity: Raw, request: Raw, w: World, e: Event)
    requires WellFormed(request) && |Data(request)| == ECPUBSIZE + LINK_MTU_SIZE
    requires WorldHolds(c, k, request, w) && e.Request?
    ensures WorldHolds(c, k, request, Step(c, k, identity, w, e))
  {
    if WellFormed(e.raw) {
      var session := Respond(c, k, identity, e.privateKey, e.on, e.raw);
      RespondHolds(c, k, identity, e.privateKey, e.on, e.raw);
      if session.Some? {
        SessionAdded(c, k, request, w, session.value);
      }
    }
  }

  lemma {:induction false} SessionAdded(c: Primitives, k: Keys, request: Raw, w: World, s: Session)
    requires WellFormed(request) && |Data(request)| == ECPUBSIZE + LINK_MTU_SIZE
    requires WorldHolds(c, k, request, w) && SessionHolds(c, k, s)
    ensures WorldHolds(c, k, request, w.(sessions := w.sessions + [s]))
  {
    var sessions := w.sessions + [s];
    if w.initiator.status == Active {
      var i :| 0 <= i < |w.sessions| && Agree(w.initiator, w.sessions[i].link);
      assert sessions[i] == w.sessions[i];
    }
  }

  /** A proof changes neither the link id nor the mode nor the initiator's key, and activates only if vouched for. */
  lemma {:induction false} ProofBasics(c: Primitives, k: Keys, link: Link, signingKey: Raw, data: Raw)
    ensures var next := ValidateProof(c, k, link, signingKey, data);
            && next.linkId == link.linkId && next.mode == link.mode && next.privateKey == link.privateKey
            && (link.status != Pending ==> next == link)
            && (next.status == Active && link.status == Pending ==> Vouched(c, signingKey, link.linkId, data))
  {
  }

  lemma {:induction false} ProofKeeps(c: Primitives, k: Keys, identity: Raw, request: Raw, w: World, data: Raw)
    requires Lawful(c, k) && WellFormed(request) && |Data(request)| == ECPUBSIZE + LINK_MTU_SIZE
    requires WorldHolds(c, k, request, w) && Genuine(c, k, identity, w, Proof(data)) && NoCollision(c, request, w)
    ensures WorldHolds(c, k, request, Step(c, k, identity, w, Proof(data)))
  {
    var next := ValidateProof(c, k, w.initiator, k.signingPublic(identity), data);
    ProofBasics(c, k, w.initiator, k.signingPublic(identity), data);
    if next.status == Active && w.initiator.status == Pending {
      var i :| 0 <= i < |w.sessions| &&
               Claimed(k.signingPublic(identity), w.initiator.linkId, data) == Some(Message(k, identity, w.sessions[i].link));
      assert NotColliding(c, request, w.sessions[i]);
      ValidProofAgrees(c, k, identity, request, w.initiator, data, w.sessions[i]);
    }
  }

  lemma {:induction false} RunKeeps(c: Primitives, k: Keys, identity: Raw, request: Raw, w: World, events: seq<Event>)
    requires Lawful(c, k) && WellFormed(request) && |Data(request)| == ECPUBSIZE + LINK_MTU_SIZE
    requires WorldHolds(c, k, request, w) && AllGenuine(c, k, identity, w, events)
    requires NoCollision(c, request, Run(c, k, identity, w, events))
    ensures WorldHolds(c, k, request, Run(c, k, identity, w, events))
    decreases |events|
  {
    if events != [] {
      var next := Step(c, k, identity, w, events[0]);
      SessionsGrow(c, k, identity, w, events);
      match events[0] {
        case Request(_, _, _) => RequestKeeps(c, k, identity, request, w, events[0]);
        case Proof(data) => ProofKeeps(c, k, identity, request, w, data);
      }
      RunKeeps(c, k, identity, request, next, events[1..]);
    }
  }

  lemma {:induction false} SessionsGrow(c: Primitives, k: Keys, identity: Raw, w: World, events: seq<Event>)
    ensures var w' := Run(c, k, identity, w, events);
            |w.sessions| <= |w'.sessions| && forall i :: 0 <= i < |w.sessions| ==> w'.sessions[i] == w.sessions[i]
    decreases |events|
  {
    if events != [] {
      SessionsGrow(c, k, identity, Step(c, k, identity, w, events[0]), events[1..]);
    }
  }

  /**
   Handshake agreement. Whatever requests and proofs anyone sends, in whatever order: once the
   initiator is active, the responder holds a session with the same link id, mode, derived
   key and MTU.
   */
  lemma {:induction false} HandshakeAgreement(c: Primitives, k: Keys, identity: Raw, privateKey: Raw, signingKey: Raw,
                                              mtu: Mtu, mode: Byte, destination: Address, events: seq<Event>)
    requires Lawful(c, k) && |signingKey| == KEY
    requires var request := RequestPacket(destination, RequestData(k, privateKey, signingKey, mtu, mode));
             var start := Initiate(c, privateKey, request, mode);
             && start.Some? && AllGenuine(c, k, identity, World(start.value, []), events)
             && NoCollision(c, request, Run(c, k, identity, World(start.value, []), events))
    ensures var request := RequestPacket(destination, RequestData(k, privateKey, signingKey, mtu, mode));
            var start := Initiate(c, privateKey, request, mode);
            var w := Run(c, k, identity, World(start.value, []), events);
            w.initiator.status == Active ==>
              exists i :: 0 <= i < |w.sessions| && Agree(w.initiator, w.sessions[i].link)
  {
    var data := RequestData(k, privateKey, signingKey, mtu, mode);
    var request := RequestPacket(destination, data);
    var start := Initiate(c, privateKey, request, mode);
    assert data[..KEY] == k.publicOf(privateKey);
    RunKeeps(c, k, identity, request, World(start.value, []), events);
  }

  // ---------------------------------------------------------- proofs in sequence

  function AfterProofs(c: Primitives, k: Keys, link: Link, signingKey: Raw, proofs: seq<Raw>): Link
    decreases |proofs|
  {
    if proofs == [] then link
    else AfterProofs(c, k, ValidateProof(c, k, link, signingKey, proofs[0]), signingKey, proofs[1..])
  }

  /** A proof of another size, which leaves a pending link as it is. */
  predicate Ignored(data: Raw) {
    ProofMode(data) == MODE_AES256_CBC && |data| != SIGNATURE + KEY && |data| != SIGNATURE + KEY + LINK_MTU_SIZE
  }

  /** The first proof that is not ignored is valid. */
  predicate FirstIsValid(c: Primitives, signingKey: Raw, linkId: Raw, proofs: seq<Raw>)
    decreases |proofs|
  {
    proofs != [] &&
    if Ignored(proofs[0]) then FirstIsValid(c, signingKey, linkId, proofs[1..]) else Vouched(c, signingKey, linkId, proofs[0])
  }

  /**
   The first proof of a link decides: the initiator is active after any proofs if and only
   if the first of them that is not ignored is valid. A later one is not looked at.
   */
  lemma {:induction false} FirstProofDecides(c: Primitives, k: Keys, link: Link, signingKey: Raw, proofs: seq<Raw>)
    requires link.initiator && link.status == Pending && link.mode == MODE_AES256_CBC
    ensures AfterProofs(c, k, link, signingKey, proofs).status == Active <==> FirstIsValid(c, signingKey, link.linkId, proofs)
    decreases |proofs|
  {
    if proofs != [] {
      var next := ValidateProof(c, k, link, signingKey, proofs[0]);
      if Ignored(proofs[0]) {
        FirstProofDecides(c, k, link, signingKey, proofs[1..]);
      } else {
        if Vouched(c, signingKey, link.linkId, proofs[0]) {
          VouchedMode(c, signingKey, link.linkId, proofs[0]);
        }
        SettledStays(c, k, next, signingKey, proofs[1..]);
      }
    }
  }

  /** No link becomes active without a signature of its destination over its id, keys and signalling. */
  lemma {:induction false} ActiveOnlyIfSigned(c: Primitives, k: Keys, link: Link, signingKey: Raw, data: Raw)
    requires link.status == Pending && ValidateProof(c, k, link, signingKey, data).status == Active
    ensures link.initiator && SignedFor(c, signingKey, link.linkId, data)
  {
    VouchedIsSigned(c, signingKey, link.linkId, data);
  }

  /**
   What any proof does to a pending link. One of another mode closes it, and so does
   signalling of a mode not enabled; a proof of the right size for an initiator settles it,
   active if it is signed; and any other leaves it as it is.
   */
  lemma {:induction false} ProofOutcome(c: Primitives, k: Keys, link: Link, signingKey: Raw, data: Raw)
    requires link.status == Pending
    ensures var after := ValidateProof(c, k, link, signingKey, data);
            var plain, signalled := |data| == SIGNATURE + KEY, |data| == SIGNATURE + KEY + LINK_MTU_SIZE;
            var mode := if |data| <= SIGNATURE + KEY then MODE_AES256_CBC else data[SIGNATURE + KEY] >> 5;
            if mode != link.mode || (signalled && mode != MODE_AES256_CBC) then after == link.(status := Closed)
            else if link.initiator && (plain || signalled) then
              && after.status == (if SignedFor(c, signingKey, link.linkId, data) then Active else Handshaking)
              && after.peerKey == data[SIGNATURE..SIGNATURE + KEY]
              && after.derivedKey == k.derive(64, k.exchange(link.privateKey, after.peerKey), link.linkId)
            else after == link
  {
    VouchedIsSigned(c, signingKey, link.linkId, data);
  }

  lemma {:induction false} SettledStays(c: Primitives, k: Keys, link: Link, signingKey: Raw, proofs: seq<Raw>)
    requires link.status != Pending
    ensures AfterProofs(c, k, link, signingKey, proofs) == link
    decreases |proofs|
  {
    if proofs != [] {
      SettledStays(c, k, link, signingKey, proofs[1..]);
    }
  }

  lemma {:induction false} VouchedMode(c: Primitives, signingKey: Raw, linkId: Raw, data: Raw)
    requires Vouched(c, signingKey, linkId, data)
    ensures ProofMode(data) == MODE_AES256_CBC
  {
    if |data| == SIGNATURE + KEY + LINK_MTU_SIZE {
      var b := data[SIGNATURE + KEY..][0];
      assert b == data[SIGNATURE + KEY];
      ShiftedMode(b);
    }
  }

  lemma {:induction false} ShiftedMode(b: Byte)
    ensures (b & 0xE0) >> 5 == b >> 5
  {
  }
}
