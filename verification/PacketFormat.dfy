/**
 The wire format of packets and the rewrites a packet undergoes in transit. A packet on
 the wire is its bytes: flags, hops, one or two 16-byte addresses, context, data.
 */
module PacketFormat {
  import opened Basics

  type Raw = seq<Byte>

  const ADDRESS: nat := 16
  const HEADER_MINSIZE: nat := 2 + 1 + ADDRESS
  const HEADER_MAXSIZE: nat := 2 + 1 + 2 * ADDRESS
  const ECPUBSIZE: nat := 64
  const LINK_MTU_SIZE: nat := 3

  const MTU: nat := 500
  const LRPROOF: Byte := 0xFF

  const DATA: Byte := 0
  const ANNOUNCE: Byte := 1
  const LINKREQUEST: Byte := 2
  const PROOF: Byte := 3

  const SINGLE: Byte := 0
  const GROUP: Byte := 1
  const PLAIN: Byte := 2
  const LINK: Byte := 3

  const RESOURCE: Byte := 0x01
  const RESOURCE_REQ: Byte := 0x03
  const RESOURCE_PRF: Byte := 0x05
  const CACHE_REQUEST: Byte := 0x08
  const CHANNEL: Byte := 0x0E
  const KEEPALIVE: Byte := 0xFA

  // ------------------------------------------------------------------- flags

  datatype Fields = Fields(headerType: Byte, contextFlag: Byte, transportType: Byte, destinationType: Byte, packetType: Byte)

  /** The values the enumerations define; transport types are 0 to 3 and 255. */
  predicate Defined(f: Fields) {
    && f.headerType <= 1 && f.contextFlag <= 1 && f.destinationType <= 3 && f.packetType <= 3
    && (f.transportType <= 3 || f.transportType == 255)
  }

  /** get_packed_flags; a link request proof is packed as addressed to a link. */
  function PackFlags(f: Fields, linkRequestProof: bool): Byte {
    (f.headerType << 6) | (f.contextFlag << 5) | (f.transportType << 4)
    | ((if linkRequestProof then LINK else f.destinationType) << 2) | f.packetType
  }

  function UnpackFlags(flags: Byte): Fields {
    Fields((flags & 0x40) >> 6, (flags & 0x20) >> 5, (flags & 0x10) >> 4, (flags & 0x0C) >> 2, flags & 0x03)
  }

  /**
   Flags survive the wire if and only if the transport type fits its one bit: RELAY, TUNNEL
   and NONE do not, and their upper bits run into the context flag.
   */
  lemma {:induction false} FlagsRoundTrip(f: Fields, linkRequestProof: bool)
    requires Defined(f)
    ensures UnpackFlags(PackFlags(f, linkRequestProof))
            == f.(destinationType := if linkRequestProof then LINK else f.destinationType)
            <==> f.transportType <= 1
  {
  }

  /** Conversely a flags byte is what its fields pack to, but for the IFAC bit. */
  lemma {:induction false} FlagsRoundTripBack(flags: Byte)
    ensures Defined(UnpackFlags(flags)) && PackFlags(UnpackFlags(flags), false) == flags & 0x7F
  {
  }

  // ------------------------------------------------------------------ layout

  datatype Packet = Packet(flags: Byte, hops: Byte, transportId: Option<Raw>, destination: Raw, context: Byte, data: Raw)

  predicate InTransport(flags: Byte) { flags & 0x40 != 0 }

  /** Long enough to unpack. */
  predicate WellFormed(raw: Raw) {
    |raw| >= HEADER_MINSIZE && (InTransport(raw[0]) ==> |raw| >= HEADER_MAXSIZE)
  }

  function BodyStart(flags: Byte): nat { if InTransport(flags) then 2 + ADDRESS else 2 }

  /** The part of the packet after the transport id, if it has one. */
  function Body(raw: Raw): Raw
    requires |raw| >= HEADER_MINSIZE
  {
    raw[BodyStart(raw[0])..]
  }

  function TransportId(raw: Raw): Option<Raw>
    requires WellFormed(raw)
  {
    if InTransport(raw[0]) then Some(raw[2..2 + ADDRESS]) else None
  }

  /** unpack: fails on packets shorter than their header. */
  function Unpack(raw: Raw): Option<Packet> {
    if !WellFormed(raw) then None
    else
      var body := Body(raw);
      Some(Packet(raw[0], raw[1], TransportId(raw), body[..ADDRESS], body[ADDRESS], body[ADDRESS + 1..]))
  }

  /** Where each field lies in the packet. */
  lemma {:induction false} Layout(raw: Raw, start: nat)
    requires WellFormed(raw) && start == BodyStart(raw[0])
    ensures Destination(raw) == raw[start..start + ADDRESS]
    ensures Body(raw)[ADDRESS] == raw[start + ADDRESS]
    ensures Data(raw) == raw[start + ADDRESS + 1..]
  {
    var body := Body(raw);
    assert body == raw[start..];
    assert body[..ADDRESS] == raw[start..start + ADDRESS];
    assert body[ADDRESS + 1..] == raw[start + ADDRESS + 1..];
  }

  /** Addresses are truncated hashes. */
  predicate Addressed(p: Packet) {
    |p.destination| == ADDRESS && (p.transportId.Some? ==> |p.transportId.value| == ADDRESS)
  }

  /** Whether the header takes a transport id; that of a link request proof never does. */
  predicate TakesTransportId(p: Packet) { InTransport(p.flags) && p.context != LRPROOF }

  /** The header as the flags and context call for it, then the payload. */
  function Laid(p: Packet, payload: Raw): Raw
    requires TakesTransportId(p) ==> p.transportId.Some?
  {
    [p.flags, p.hops] + (if TakesTransportId(p) then p.transportId.value else [])
    + (p.destination + [p.context] + payload)
  }

  /** What else pack needs: the link or destination that encrypts, its MTU, and the ciphertext an earlier pack left. */
  datatype Outlet = Outlet(overLink: bool, hasIdentity: bool, mtu: nat, ciphertext: Raw, token: Raw -> Raw)

  /** A token is longer than what it encrypts. */
  ghost predicate Lengthens(o: Outlet) { forall x :: |o.token(x)| > |x| }

  function TypeBits(flags: Byte): Byte { flags & 0x03 }

  function DestinationBits(flags: Byte): Byte { (flags & 0x0C) >> 2 }

  /** How pack makes the payload of a packet: as it is, encrypted, or whatever it was before. */
  datatype Treatment = Copied | Sealed | Stale

  function Treat(p: Packet): Treatment {
    if p.context == LRPROOF then Copied
    else if InTransport(p.flags) then
      if TypeBits(p.flags) == ANNOUNCE then Copied else Stale
    else if TypeBits(p.flags) == ANNOUNCE || TypeBits(p.flags) == LINKREQUEST then Copied
    else if TypeBits(p.flags) == PROOF && (p.context == RESOURCE_PRF || DestinationBits(p.flags) == LINK) then Copied
    else if p.context == RESOURCE || p.context == KEEPALIVE || p.context == CACHE_REQUEST then Copied
    else Sealed
  }

  /** Links encrypt, and so do single destinations with an identity; the others return the plaintext. */
  predicate Keyed(p: Packet, o: Outlet) { o.overLink || (DestinationBits(p.flags) == SINGLE && o.hasIdentity) }

  function Payload(p: Packet, o: Outlet): Raw {
    match Treat(p)
    case Copied => p.data
    case Sealed => if Keyed(p, o) then o.token(p.data) else p.data
    case Stale => o.ciphertext
  }

  /** pack: fails on a link request proof without a link, a missing transport id and packets over the MTU. */
  function Pack(p: Packet, o: Outlet): Option<Raw> {
    if p.context == LRPROOF && !o.overLink then None
    else if TakesTransportId(p) && p.transportId.None? then None
    else if |Laid(p, Payload(p, o))| > o.mtu then None
    else Some(Laid(p, Payload(p, o)))
  }

  /** The flags announce just the transport id that the header takes. */
  predicate Coherent(p: Packet) {
    && (InTransport(p.flags) <==> p.transportId.Some?)
    && (InTransport(p.flags) ==> p.context != LRPROOF)
  }

  /** The data goes out as it is: it is not encrypted, and not left out under a transport header. */
  predicate SendsData(p: Packet, o: Outlet) {
    match Treat(p)
    case Copied => true
    case Sealed => !Keyed(p, o)
    case Stale => o.ciphertext == p.data
  }

  lemma {:induction false} PayloadIsData(p: Packet, o: Outlet)
    requires Lengthens(o)
    ensures Payload(p, o) == p.data <==> SendsData(p, o)
  {
    assert |o.token(p.data)| > |p.data|;
  }

  /** Laid out and read again, a packet is itself with its payload for data if and only if it is coherent. */
  lemma {:induction false} LaidReads(p: Packet, payload: Raw)
    requires Addressed(p) && (TakesTransportId(p) ==> p.transportId.Some?)
    ensures Unpack(Laid(p, payload)) == Some(p.(data := payload)) <==> Coherent(p)
    ensures Unpack(Laid(p, payload)) == Some(p) ==> payload == p.data || |payload| > |p.data|
    ensures Unpack(Laid(p, payload)) == Some(p) ==> Coherent(p) || p.context == LRPROOF
  {
    var raw := Laid(p, payload);
    var body := p.destination + [p.context] + payload;
    assert body[..ADDRESS] == p.destination;
    assert body[ADDRESS + 1..] == payload;
    if TakesTransportId(p) {
      assert raw[2..2 + ADDRESS] == p.transportId.value;
      assert raw[2 + ADDRESS..] == body;
    } else if InTransport(p.flags) {
      assert Unpack(raw).Some? ==> |Unpack(raw).value.data| < |payload|;
    } else {
      assert raw[2..] == body;
    }
  }

  /**
   A packet reads back with the payload that pack made for it if and only if it is coherent,
   and reads back as it was if and only if, besides, its data is sent as it is.
   */
  lemma {:induction false} PackUnpack(p: Packet, o: Outlet)
    requires Addressed(p) && Pack(p, o).Some? && Lengthens(o)
    ensures Unpack(Pack(p, o).value) == Some(p.(data := Payload(p, o))) <==> Coherent(p)
    ensures Unpack(Pack(p, o).value) == Some(p) <==> Coherent(p) && SendsData(p, o)
  {
    LaidReads(p, Payload(p, o));
    PayloadIsData(p, o);
  }

  /** Packing what was read gives the same bytes under the same condition. */
  lemma {:induction false} UnpackPack(raw: Raw, o: Outlet)
    requires Unpack(raw).Some? && |raw| <= o.mtu && Lengthens(o)
    requires Unpack(raw).value.context == LRPROOF ==> o.overLink
    ensures var p := Unpack(raw).value;
            Addressed(p) && (Pack(p, o) == Some(raw) <==> Coherent(p) && SendsData(p, o))
  {
    var p, body := Unpack(raw).value, Body(raw);
    assert body == body[..ADDRESS] + [body[ADDRESS]] + body[ADDRESS + 1..];
    PayloadIsData(p, o);
    if Coherent(p) {
      assert raw == [raw[0], raw[1]] + raw[2..BodyStart(raw[0])] + body;
      assert Laid(p, p.data) == raw;
      LaidReads(p, Payload(p, o));
    } else {
      assert |Laid(p, p.data)| < |raw|;
    }
  }

  /**
   What goes out after a plain header, by type and context: announces, link requests and their
   proofs, resource proofs, proofs over links, resource parts, keepalives and cache requests
   carry their data as it is; everything else is encrypted by the link or by the identity of
   a single destination, if there is one.
   */
  lemma {:induction false} WhatIsSent(p: Packet, o: Outlet)
    requires Addressed(p) && !InTransport(p.flags) && p.transportId.None? && Pack(p, o).Some?
    ensures var kind, raw := TypeBits(p.flags), Pack(p, o).value;
            var asItIs := p.context in {LRPROOF, RESOURCE, KEEPALIVE, CACHE_REQUEST} || kind == ANNOUNCE || kind == LINKREQUEST
                          || (kind == PROOF && (p.context == RESOURCE_PRF || DestinationBits(p.flags) == LINK));
            && WellFormed(raw) && Destination(raw) == p.destination
            && (asItIs ==> Data(raw) == p.data)
            && (!asItIs && (o.overLink || (DestinationBits(p.flags) == SINGLE && o.hasIdentity)) ==> Data(raw) == o.token(p.data))
            && (!asItIs && !o.overLink && !(DestinationBits(p.flags) == SINGLE && o.hasIdentity) ==> Data(raw) == p.data)
  {
    LaidReads(p, Payload(p, o));
  }

  /** Ordinary data never goes out in the clear over a link or to a single destination with an identity. */
  lemma {:induction false} OrdinaryDataIsEncrypted(p: Packet, o: Outlet)
    requires Addressed(p) && !InTransport(p.flags) && p.transportId.None? && Pack(p, o).Some? && Lengthens(o)
    requires TypeBits(p.flags) == DATA && p.context !in {LRPROOF, RESOURCE, KEEPALIVE, CACHE_REQUEST}
    requires o.overLink || (DestinationBits(p.flags) == SINGLE && o.hasIdentity)
    ensures WellFormed(Pack(p, o).value)
    ensures Data(Pack(p, o).value) == o.token(p.data) && Data(Pack(p, o).value) != p.data
  {
    WhatIsSent(p, o);
    assert |o.token(p.data)| > |p.data|;
  }

  /** When pack fails, by the size of header and payload. */
  lemma {:induction false} PackFailsExactlyWhen(p: Packet, o: Outlet)
    requires Addressed(p)
    ensures var withId := InTransport(p.flags) && p.context != LRPROOF;
            Pack(p, o).None? <==>
              || (p.context == LRPROOF && !o.overLink)
              || (withId && p.transportId.None?)
              || (if withId then HEADER_MAXSIZE else HEADER_MINSIZE) + |Payload(p, o)| > o.mtu
  {
  }

  /** A new packet in transport that is neither an announce nor a link request proof goes out without its data. */
  lemma {:induction false} TransportHeaderDropsData(p: Packet, o: Outlet)
    requires Addressed(p) && Coherent(p) && InTransport(p.flags) && TypeBits(p.flags) != ANNOUNCE
    requires o.ciphertext == [] && HEADER_MAXSIZE <= o.mtu
    ensures Pack(p, o).Some? && |Pack(p, o).value| == HEADER_MAXSIZE
    ensures Unpack(Pack(p, o).value) == Some(p.(data := []))
  {
    LaidReads(p, []);
  }

  /** An announce in transport is what a station rebroadcasts: it arrives as it is if it fits the MTU. */
  lemma {:induction false} RebroadcastCarriesAnnounce(p: Packet, o: Outlet)
    requires Addressed(p) && Coherent(p) && InTransport(p.flags) && TypeBits(p.flags) == ANNOUNCE
    ensures if HEADER_MAXSIZE + |p.data| <= o.mtu then Pack(p, o).Some? && Unpack(Pack(p, o).value) == Some(p) else Pack(p, o).None?
  {
    LaidReads(p, p.data);
  }

  /** One such packet: 36 bytes with its data, 35 as packed. */
  lemma {:induction false} DataPacketInTransportLosesData(id: Raw, destination: Raw, token: Raw -> Raw)
    requires |id| == ADDRESS && |destination| == ADDRESS
    ensures var p := Packet(0x50, 0, Some(id), destination, 0, [7]);
            var raw := Pack(p, Outlet(false, true, MTU, [], token));
            Coherent(p) && raw.Some? && |raw.value| == 35 && Unpack(raw.value) == Some(p.(data := []))
  {
    TransportHeaderDropsData(Packet(0x50, 0, Some(id), destination, 0, [7]), Outlet(false, true, MTU, [], token));
  }

  // -------------------------------------------------------------------- hash

  /** get_hashable_part: what the packet hash covers. */
  function HashablePart(raw: Raw): Raw
    requires |raw| >= HEADER_MINSIZE
  {
    [raw[0] & 0x0F] + Body(raw)
  }

  function Data(raw: Raw): Raw
    requires WellFormed(raw)
  {
    Body(raw)[ADDRESS + 1..]
  }

  function Destination(raw: Raw): Raw
    requires WellFormed(raw)
  {
    Body(raw)[..ADDRESS]
  }

  /** link_id_from_lr_packet hashes the hashable part without what follows the keys. */
  function LinkIdPart(raw: Raw): Raw
    requires WellFormed(raw)
  {
    var part := HashablePart(raw);
    if |Data(raw)| > ECPUBSIZE then part[..|part| - (|Data(raw)| - ECPUBSIZE)] else part
  }

  /** The packet hash covers packet and destination type, destination, context and data, and nothing else. */
  lemma {:induction false} HashCovers(a: Raw, b: Raw)
    requires WellFormed(a) && WellFormed(b)
    ensures HashablePart(a) == HashablePart(b) <==>
              && a[0] & 0x0F == b[0] & 0x0F && Destination(a) == Destination(b)
              && Body(a)[ADDRESS] == Body(b)[ADDRESS] && Data(a) == Data(b)
  {
    BodyFields(a);
    BodyFields(b);
    assert HashablePart(a)[0] == a[0] & 0x0F && HashablePart(b)[0] == b[0] & 0x0F;
    assert HashablePart(a)[1..] == Body(a) && HashablePart(b)[1..] == Body(b);
  }

  lemma {:induction false} BodyFields(raw: Raw)
    requires WellFormed(raw)
    ensures Body(raw) == Destination(raw) + [Body(raw)[ADDRESS]] + Data(raw)
  {
  }

  /** The link id covers the same, but of the data only the keys. */
  lemma {:induction false} LinkIdCovers(a: Raw, b: Raw)
    requires WellFormed(a) && WellFormed(b) && |Data(a)| >= ECPUBSIZE && |Data(b)| >= ECPUBSIZE
    ensures LinkIdPart(a) == LinkIdPart(b) <==>
              && a[0] & 0x0F == b[0] & 0x0F && Destination(a) == Destination(b)
              && Body(a)[ADDRESS] == Body(b)[ADDRESS] && Data(a)[..ECPUBSIZE] == Data(b)[..ECPUBSIZE]
  {
    KeysAreCovered(a);
    KeysAreCovered(b);
    SameParts(a[0] & 0x0F, Destination(a), Body(a)[ADDRESS], Data(a)[..ECPUBSIZE],
              b[0] & 0x0F, Destination(b), Body(b)[ADDRESS], Data(b)[..ECPUBSIZE]);
  }

  lemma {:induction false} SameParts(flags: Byte, destination: Raw, context: Byte, keys: Raw,
                                     flags': Byte, destination': Raw, context': Byte, keys': Raw)
    requires |destination| == |destination'|
    ensures [flags] + destination + [context] + keys == [flags'] + destination' + [context'] + keys'
            <==> flags == flags' && destination == destination' && context == context' && keys == keys'
  {
    var n, s, s' := 1 + |destination|, [flags] + destination + [context] + keys, [flags'] + destination' + [context'] + keys';
    assert s[0] == flags && s[1..n] == destination && s[n] == context && s[n + 1..] == keys;
    assert s'[0] == flags' && s'[1..n] == destination' && s'[n] == context' && s'[n + 1..] == keys';
  }

  lemma {:induction false} KeysAreCovered(raw: Raw)
    requires WellFormed(raw) && |Data(raw)| >= ECPUBSIZE
    ensures LinkIdPart(raw) == [raw[0] & 0x0F] + Destination(raw) + [Body(raw)[ADDRESS]] + Data(raw)[..ECPUBSIZE]
  {
    BodyFields(raw);
    var head := [raw[0] & 0x0F] + Destination(raw) + [Body(raw)[ADDRESS]];
    assert HashablePart(raw) == head + Data(raw);
    assert (head + Data(raw))[..|head| + ECPUBSIZE] == head + Data(raw)[..ECPUBSIZE];
  }

  // ---------------------------------------------------------------- rewrites

  datatype Rewrite =
    | Insert(nextHop: Raw)
    | Replace(hops: Byte, nextHop: Raw)
    | Strip(hops: Byte)
    | Bump(hops: Byte)
    | ClampMtu(signalling: Raw)
    | StripMtu

  predicate IsMtuRewrite(w: Rewrite) { w.ClampMtu? || w.StripMtu? }

  /** When Transport performs each rewrite. */
  predicate Applies(w: Rewrite, raw: Raw) {
    && WellFormed(raw)
    && match w
       case Insert(nextHop) => !InTransport(raw[0]) && |nextHop| == ADDRESS
       case Replace(_, nextHop) => InTransport(raw[0]) && |nextHop| == ADDRESS
       case Strip(_) => InTransport(raw[0])
       case Bump(_) => true
       case ClampMtu(signalling) => |Data(raw)| == ECPUBSIZE + LINK_MTU_SIZE && |signalling| == LINK_MTU_SIZE
       case StripMtu => |Data(raw)| == ECPUBSIZE + LINK_MTU_SIZE
  }

  function Apply(w: Rewrite, raw: Raw): Raw
    requires Applies(w, raw)
  {
    match w
    case Insert(nextHop) => [0x50 | (raw[0] & 0x0F), raw[1]] + nextHop + raw[2..]
    case Replace(hops, nextHop) => [raw[0], hops] + nextHop + raw[2 + ADDRESS..]
    case Strip(hops) => [raw[0] & 0x0F, hops] + raw[2 + ADDRESS..]
    case Bump(hops) => [raw[0], hops] + raw[2..]
    case ClampMtu(signalling) => raw[..|raw| - LINK_MTU_SIZE] + signalling
    case StripMtu => raw[..|raw| - LINK_MTU_SIZE]
  }

  /** The body of the packet that a header rewrite leaves alone. */
  lemma {:induction false} HeaderRewriteKeepsBody(w: Rewrite, raw: Raw)
    requires Applies(w, raw) && !IsMtuRewrite(w)
    ensures WellFormed(Apply(w, raw)) && Body(Apply(w, raw)) == Body(raw)
    ensures Apply(w, raw)[0] & 0x0F == raw[0] & 0x0F
  {
    FlagBits(raw[0]);
    match w
    case Insert(nextHop) => assert Apply(w, raw)[2 + ADDRESS..] == raw[2..];
    case Replace(_, nextHop) => assert Apply(w, raw)[2 + ADDRESS..] == raw[2 + ADDRESS..];
    case Strip(_) => assert Apply(w, raw)[2..] == raw[2 + ADDRESS..];
    case Bump(_) =>
      assert Apply(w, raw)[2..] == raw[2..];
      if InTransport(raw[0]) {
        assert Apply(w, raw)[2 + ADDRESS..] == raw[2..][ADDRESS..] == raw[2 + ADDRESS..];
      }
  }

  lemma {:induction false} FlagBits(flags: Byte)
    ensures InTransport(0x50 | (flags & 0x0F)) && (0x50 | (flags & 0x0F)) & 0x0F == flags & 0x0F
    ensures !InTransport(flags & 0x0F) && (flags & 0x0F) & 0x0F == flags & 0x0F
  {
  }

  lemma {:induction false} MtuRewriteKeepsKeys(w: Rewrite, raw: Raw)
    requires Applies(w, raw) && IsMtuRewrite(w)
    ensures WellFormed(Apply(w, raw)) && LinkIdPart(Apply(w, raw)) == LinkIdPart(raw)
    ensures Destination(Apply(w, raw)) == Destination(raw)
  {
    var raw', cut, start := Apply(w, raw), |raw| - LINK_MTU_SIZE, BodyStart(raw[0]);
    Layout(raw, start);
    assert raw'[..cut] == raw[..cut];
    assert raw'[0] == raw[0];
    Layout(raw', start);
    LinkIdPrefix(raw, cut);
    LinkIdPrefix(raw', cut);
    SamePrefix(raw, raw', cut, start, cut);
    SamePrefix(raw, raw', cut, start, start + ADDRESS);
  }

  lemma {:induction false} SamePrefix(s: Raw, t: Raw, cut: nat, a: nat, b: nat)
    requires a <= b <= cut <= |s| && cut <= |t| && s[..cut] == t[..cut]
    ensures s[a..b] == t[a..b]
  {
    forall i | a <= i < b ensures s[i] == t[i] {
      assert s[i] == s[..cut][i] == t[..cut][i];
    }
  }

  /** With the keys in full, the link id covers the flags and the body up to their end. */
  lemma {:induction false} LinkIdPrefix(raw: Raw, end: nat)
    requires WellFormed(raw) && end == BodyStart(raw[0]) + ADDRESS + 1 + ECPUBSIZE <= |raw|
    ensures LinkIdPart(raw) == [raw[0] & 0x0F] + raw[BodyStart(raw[0])..end]
  {
    var start := BodyStart(raw[0]);
    Layout(raw, start);
    assert |Data(raw)| == |raw| - end + ECPUBSIZE;
    assert HashablePart(raw) == [raw[0] & 0x0F] + raw[start..];
    assert raw[start..][..end - start] == raw[start..end];
  }

  ghost predicate AppliesAll(ws: seq<Rewrite>, raw: Raw)
    decreases |ws|
  {
    ws == [] || (Applies(ws[0], raw) && AppliesAll(ws[1..], Apply(ws[0], raw)))
  }

  function ApplyAll(ws: seq<Rewrite>, raw: Raw): Raw
    requires AppliesAll(ws, raw)
    decreases |ws|
  {
    if ws == [] then raw else ApplyAll(ws[1..], Apply(ws[0], raw))
  }

  /**
   A packet keeps its hash, destination, context and data under any sequence of header
   rewrites, so every hop recognises a copy and names it alike.
   */
  lemma {:induction false} HashSurvivesTransit(ws: seq<Rewrite>, raw: Raw)
    requires WellFormed(raw) && AppliesAll(ws, raw)
    requires forall i :: 0 <= i < |ws| ==> !IsMtuRewrite(ws[i])
    ensures WellFormed(ApplyAll(ws, raw))
    ensures HashablePart(ApplyAll(ws, raw)) == HashablePart(raw)
    ensures var p, p' := Unpack(raw).value, Unpack(ApplyAll(ws, raw)).value;
            p'.destination == p.destination && p'.context == p.context && p'.data == p.data
    decreases |ws|
  {
    if ws != [] {
      HeaderRewriteKeepsBody(ws[0], raw);
      HashSurvivesTransit(ws[1..], Apply(ws[0], raw));
    }
  }

  /** A link request keeps its link id and destination even when hops clamp or strip the signalled MTU. */
  lemma {:induction false} LinkIdSurvivesTransit(ws: seq<Rewrite>, raw: Raw)
    requires WellFormed(raw) && AppliesAll(ws, raw)
    ensures WellFormed(ApplyAll(ws, raw))
    ensures LinkIdPart(ApplyAll(ws, raw)) == LinkIdPart(raw)
    ensures Destination(ApplyAll(ws, raw)) == Destination(raw)
    decreases |ws|
  {
    if ws != [] {
      if IsMtuRewrite(ws[0]) {
        MtuRewriteKeepsKeys(ws[0], raw);
      } else {
        HeaderRewriteKeepsBody(ws[0], raw);
      }
      LinkIdSurvivesTransit(ws[1..], Apply(ws[0], raw));
    }
  }

  // ------------------------------------------------------------------ objects

  /** The fields of a packet that pack and unpack work on. */
  class PacketObject {
    var flags: Byte
    var hops: Byte
    var transportId: Option<Raw>
    var destination: Raw
    var context: Byte
    var data: Raw
    var raw: Raw
    var hashable: Raw
    var ciphertext: Raw
    var overLink: bool
    var hasIdentity: bool
    var mtu: nat
    const token: Raw -> Raw

    function Fields(): Packet
      reads this
    {
      Packet(flags, hops, transportId, destination, context, data)
    }

    function Leaving(): Outlet
      reads this
    {
      Outlet(overLink, hasIdentity, mtu, ciphertext, token)
    }

    constructor (raw: Raw, token: Raw -> Raw)
      ensures this.raw == raw && Leaving() == Outlet(false, false, MTU, [], token)
    {
      this.raw, this.token := raw, token;
      flags, hops, transportId, destination, context, data, hashable := 0, 0, None, [], 0, [], [];
      ciphertext, overLink, hasIdentity, mtu := [], false, false, MTU;
    }

    /** unpack: fill the fields from raw and remember what the hash covers. */
    method ReadFields() returns (ok: bool)
      modifies this
      ensures raw == old(raw) && ok == Unpack(raw).Some?
      ensures ok ==> Fields() == Unpack(raw).value && hashable == HashablePart(raw)
    {
      if |raw| < HEADER_MINSIZE {
        return false;
      }
      flags, hops := raw[0], raw[1];
      if InTransport(flags) {
        if |raw| < HEADER_MAXSIZE {
          return false;
        }
        transportId := Some(raw[2..2 + ADDRESS]);
        destination := raw[2 + ADDRESS..2 + 2 * ADDRESS];
        context := raw[2 + 2 * ADDRESS];
        data := raw[HEADER_MAXSIZE..];
      } else {
        transportId := None;
        destination := raw[2..2 + ADDRESS];
        context := raw[2 + ADDRESS];
        data := raw[HEADER_MINSIZE..];
      }
      hashable := HashablePart(raw);
      Layout(raw, BodyStart(raw[0]));
      ok := true;
    }

    /** The branches of pack that choose the ciphertext. */
    method Seal()
      modifies this`ciphertext
      ensures ciphertext == Payload(Fields(), old(Leaving()))
    {
      var kind := TypeBits(flags);
      if context == LRPROOF {
        ciphertext := data;
      } else if !InTransport(flags) {
        if kind == ANNOUNCE || kind == LINKREQUEST || (kind == PROOF && context == RESOURCE_PRF) {
          ciphertext := data;
        } else if kind == PROOF && DestinationBits(flags) == LINK {
          ciphertext := data;
        } else if context == RESOURCE || context == KEEPALIVE || context == CACHE_REQUEST {
          ciphertext := data;
        } else if overLink || (DestinationBits(flags) == SINGLE && hasIdentity) {
          ciphertext := token(data);
        } else {
          ciphertext := data;
        }
      } else if kind == ANNOUNCE {
        ciphertext := data;
      }
    }

    /** The header, unless a link or a transport id that it takes is missing. */
    method Header() returns (header: Option<Raw>)
      ensures header.None? <==> (context == LRPROOF && !overLink) || (TakesTransportId(Fields()) && transportId.None?)
      ensures header.Some? ==> header.value == Laid(Fields(), [])
    {
      var h := [flags, hops];
      if context == LRPROOF {
        if !overLink {
          return None;
        }
      } else if InTransport(flags) {
        if transportId.None? {
          return None;
        }
        h := h + transportId.value;
      }
      return Some(h + destination + [context]);
    }

    /**
     pack; where the original throws, ok is false. The fields read back from the bytes with
     the payload for data, and with the data itself exactly when that was sent as it is.
     */
    method WriteRaw() returns (ok: bool)
      requires Addressed(Fields()) && Lengthens(Leaving())
      modifies this
      ensures Fields() == old(Fields()) && ok == Pack(Fields(), old(Leaving())).Some?
      ensures ok ==> raw == Pack(Fields(), old(Leaving())).value
      ensures ok && Coherent(Fields()) ==> Unpack(raw) == Some(Fields().(data := ciphertext)) && hashable == HashablePart(raw)
      ensures ok ==> (Unpack(raw) == Some(Fields()) <==> Coherent(Fields()) && SendsData(Fields(), old(Leaving())))
    {
      ghost var outlet := Leaving();
      var header := Header();
      if header.None? {
        return false;
      }
      Seal();
      raw := header.value + ciphertext;
      assert raw == Laid(Fields(), ciphertext);
      if |raw| > mtu {
        return false;
      }
      PackUnpack(Fields(), outlet);
      hashable := HashablePart(raw);
      ok := true;
    }
  }
}
