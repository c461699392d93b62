/**
 One whole transfer over channels that lose nothing and keep order: from the payload
 handed to start, through the windowed exchange of parts and hashmap segments, to the
 assembled payload on the other side and the proof that completes the sender.

 Every maximal run ends, within a number of steps bounded by the missing parts and the
 unknown hashmap entries, with the receiver holding the sender's payload and the sender
 Complete. The schedule and the measured rates are arbitrary.
 */
module ResourceLossless {
  import opened Basics
  import opened ResourceModel
  import opened ResourceReceiver
  import opened ResourceSystem

  /** The functions the transfer uses and never looks into: hashes and the link's token. */
  datatype Crypto = Crypto(mapHash: Chunk -> MapHash, fullHash: Chunk -> Chunk, encrypt: Chunk -> Chunk, decrypt: Chunk -> Chunk)

  datatype Resource = Resource(crypto: Crypto, random: Chunk, data: Chunk, sdu: nat)

  // --------------------------------------------------------------- the sender

  /** The encrypted stream cut into pieces of sdu bytes, the last one shorter. */
  function Slices(stream: Chunk, sdu: nat): seq<Chunk>
    requires sdu > 0
  {
    if stream == [] then []
    else if |stream| <= sdu then [stream]
    else [stream[..sdu]] + Slices(stream[sdu..], sdu)
  }

  function Concat(chunks: seq<Chunk>): Chunk {
    if chunks == [] then [] else chunks[0] + Concat(chunks[1..])
  }

  lemma {:induction false} SlicesCover(stream: Chunk, sdu: nat)
    requires sdu > 0
    ensures Concat(Slices(stream, sdu)) == stream
    ensures forall k :: 0 <= k < |Slices(stream, sdu)| ==> 0 < |Slices(stream, sdu)[k]| <= sdu
  {
    SliceSizes(stream, sdu);
    if |stream| > sdu {
      SlicesCover(stream[sdu..], sdu);
      assert Slices(stream, sdu)[1..] == Slices(stream[sdu..], sdu);
      assert stream == stream[..sdu] + stream[sdu..];
    } else if stream != [] {
      assert Slices(stream, sdu)[1..] == [];
    }
  }

  lemma {:induction false} SliceSizes(stream: Chunk, sdu: nat)
    requires sdu > 0
    ensures forall k :: 0 <= k < |Slices(stream, sdu)| ==> 0 < |Slices(stream, sdu)[k]| <= sdu
  {
    if |stream| > sdu {
      SliceSizes(stream[sdu..], sdu);
    }
  }

  /** A packet keeps at most PACKET_MDU bytes of the payload it is given. */
  function Cut(chunk: Chunk): Chunk { chunk[..Min(|chunk|, PACKET_MDU)] }

  function Stream(res: Resource): Chunk { res.crypto.encrypt(res.random + res.data) }

  function ResourceHash(res: Resource): Chunk { res.crypto.fullHash(res.data + res.random) }

  function ExpectedProof(res: Resource): Chunk { res.crypto.fullHash(res.data + ResourceHash(res)) }

  function StartSender(res: Resource): (s: Sender)
    requires res.sdu > 0
    ensures ValidSender(s)
  {
    var chunks := Slices(Stream(res), res.sdu);
    Sender(Advertised,
           seq(|chunks|, k requires 0 <= k < |chunks| => Cut(chunks[k])),
           seq(|chunks|, k requires 0 <= k < |chunks| => res.crypto.mapHash(chunks[k])),
           seq(|chunks|, _ => false), 0, 0, MAX_ADV_RETRIES)
  }

  // ------------------------------------------------------------- the receiver

  function Values(parts: seq<Option<Chunk>>): seq<Chunk> {
    if parts == [] then []
    else (if parts[0].Some? then [parts[0].value] else []) + Values(parts[1..])
  }

  /** assemble: join, decrypt, drop the random prefix, and keep the result only if it has the advertised hash. */
  function Assemble(res: Resource, parts: seq<Option<Chunk>>): Option<Chunk> {
    var plaintext := res.crypto.decrypt(Concat(Values(parts)));
    var data := if |plaintext| <= RANDOM_HASH_SIZE then [] else plaintext[RANDOM_HASH_SIZE..];
    if res.crypto.fullHash(data + res.random) == ResourceHash(res) then Some(data) else None
  }

  // ------------------------------------------------------------- the session

  datatype Session = Session(sys: System, inbox: seq<Response>, proofs: seq<Chunk>, received: Option<Chunk>)

  datatype Delivery = DeliverRequest | DeliverResponse(sample: RateSample) | DeliverProof

  predicate Enabled(t: Session, d: Delivery) {
    match d
    case DeliverRequest => |t.sys.requests| > 0
    case DeliverResponse(_) => |t.inbox| > 0
    case DeliverProof => |t.proofs| > 0
  }

  function Conclusion(res: Resource, t: Session): Session {
    match Assemble(res, t.sys.receiver.parts)
    case Some(data) =>
      t.(received := Some(data), proofs := t.proofs + [res.crypto.fullHash(data + ResourceHash(res))])
    case None => t.(sys := t.sys.(receiver := t.sys.receiver.(status := Corrupt)))
  }

  ghost predicate WellFormed(t: Session) {
    ValidSender(t.sys.sender) && ValidReceiver(t.sys.receiver)
  }

  ghost function SessionStep(res: Resource, t: Session, d: Delivery): Session
    requires WellFormed(t) && Enabled(t, d)
  {
    match d
    case DeliverRequest =>
      t.(sys := ServeHead(t.sys), inbox := t.inbox + SenderRequest(t.sys.sender, t.sys.requests[0].request).1)
    case DeliverResponse(sample) =>
      var t' := t.(sys := Step(t.sys, Deliver(t.inbox[0], sample), res.crypto.mapHash), inbox := t.inbox[1..]);
      if t'.sys.receiver.status == Complete && t.sys.receiver.status != Complete then Conclusion(res, t') else t'
    case DeliverProof =>
      t.(sys := t.sys.(sender := ValidateProof(t.sys.sender, t.proofs[0], ExpectedProof(res))), proofs := t.proofs[1..])
  }

  // --------------------------------------------------------------- invariant

  function PartsOf(chunks: seq<Chunk>, lo: nat, hi: nat): (out: seq<Response>)
    requires lo <= hi <= |chunks|
    ensures |out| == hi - lo
    decreases hi - lo
  {
    if lo == hi then [] else [Part(chunks[lo])] + PartsOf(chunks, lo + 1, hi)
  }

  /** What the sender answers to a request for the slots [lo, hi) and, if more is set, for hashmap. */
  function Answer(s: Sender, lo: nat, hi: nat, more: bool, height: nat): seq<Response>
    requires ValidSender(s) && lo <= hi <= |s.parts|
    requires more ==> height <= |s.hashmap|
  {
    PartsOf(s.parts, lo, hi)
    + if more then [Hmu(height / HASHMAP_MAX_LEN, HashmapSegment(s.hashmap, height / HASHMAP_MAX_LEN))] else []
  }

  /** The receiver has exactly the parts up to its consecutive height. */
  ghost predicate InOrder(s: Sender, r: Receiver)
    requires ValidSender(s) && ValidReceiver(r) && |r.parts| == |s.parts|
  {
    && (forall k :: 0 <= k < |r.parts| ==> r.parts[k] == if k <= r.cch then Some(s.parts[k]) else None)
    && r.receivedCount == r.cch + 1
  }

  ghost predicate Requesting(t: Session)
    requires WellFormed(t)
  {
    var s, r := t.sys.sender, t.sys.receiver;
    && r.status == Transferring && r.cch + 1 < |r.parts|
    && KnowsPrefix(r, s.hashmap) && r.cch + 1 <= r.height
    && var q := ExpectedRequest(r, s.hashmap);
    && t.sys.requests == [Flight(q, r.height, r.cch + 1)]
    && r.outstanding == |q.wanted| && r.waitingForHmu == q.exhausted
    && t.inbox == [] && t.proofs == [] && t.received == None
  }

  ghost predicate Answering(t: Session)
    requires WellFormed(t) && |t.sys.receiver.parts| == |t.sys.sender.parts|
  {
    var s, r := t.sys.sender, t.sys.receiver;
    && r.status == Transferring
    && r.cch + 1 + r.outstanding <= r.height <= |s.hashmap|
    && (r.waitingForHmu ==> t.sys.served == r.height < |s.hashmap|)
    && (r.outstanding > 0 || r.waitingForHmu)
    && t.sys.requests == []
    && t.inbox == Answer(s, r.cch + 1, r.cch + 1 + r.outstanding, r.waitingForHmu, r.height)
    && t.proofs == [] && t.received == None
  }

  ghost predicate Concluded(res: Resource, t: Session)
    requires WellFormed(t)
  {
    && t.sys.receiver.status == Complete && t.sys.receiver.cch + 1 == |t.sys.receiver.parts| == t.sys.receiver.height
    && t.sys.requests == [] && t.inbox == []
    && t.received == Some(res.data)
    && if t.sys.sender.status == Complete then t.proofs == [] else t.proofs == [ExpectedProof(res)]
  }

  /** What holds of a session besides the invariant of its system. */
  ghost predicate Steady(res: Resource, t: Session) {
    && WellFormed(t)
    && t.sys.sender.status != Failed
    && res.sdu > 0
    && t.sys.sender.parts == StartSender(res).parts
    && |t.sys.receiver.parts| == |t.sys.sender.parts|
    && InOrder(t.sys.sender, t.sys.receiver)
    && (forall x :: x in t.inbox ==> x in t.sys.responses)
    && (Concluded(res, t) || ((Requesting(t) || Answering(t)) && t.sys.sender.status != Complete))
  }

  ghost predicate Hashed(res: Resource, s: Sender)
    requires ValidSender(s)
  {
    forall k :: 0 <= k < |s.parts| ==> res.crypto.mapHash(s.parts[k]) == s.hashmap[k]
  }

  ghost predicate SessionInv(res: Resource, t: Session) {
    && SystemInv(t.sys, res.crypto.mapHash)
    && Hashed(res, t.sys.sender)
    && Steady(res, t)
  }

  /** Packets do not cut the parts. */
  predicate Fits(res: Resource)
    requires res.sdu > 0
  {
    forall k :: 0 <= k < |Slices(Stream(res), res.sdu)| ==> |Slices(Stream(res), res.sdu)[k]| <= PACKET_MDU
  }

  /** The parts' map hashes can be told apart, and the token decrypts what it encrypted. */
  ghost predicate Offered(res: Resource) {
    && res.sdu > 0
    && |res.random| == RANDOM_HASH_SIZE
    && Stream(res) != []
    && res.crypto.decrypt(Stream(res)) == res.random + res.data
    && |Slices(Stream(res), res.sdu)| <= 65536 * HASHMAP_MAX_LEN
    && Distinct(StartSender(res).hashmap)
  }

  ghost predicate Sound(res: Resource) { Offered(res) && Fits(res) }

  function Initial(res: Resource): Session
    requires res.sdu > 0 && Slices(Stream(res), res.sdu) != []
  {
    Session(Start(StartSender(res)), [], [], None)
  }

  /** The parts still missing, the map hashes still unknown, and what is under way. */
  function Measure(t: Session): int {
    3 * (|t.sys.receiver.parts| - (t.sys.receiver.cch + 1)) + 3 * (|t.sys.sender.hashmap| - t.sys.receiver.height)
    + |t.sys.requests| + |t.proofs|
  }

  // ---------------------------------------------------------------- requests

  lemma {:induction false} InOrderMissing(s: Sender, r: Receiver, lo: nat, hi: nat)
    requires ValidSender(s) && ValidReceiver(r) && |r.parts| == |s.parts| && InOrder(s, r)
    requires r.cch < lo <= hi <= |r.parts|
    ensures MissingHashes(r.parts, s.hashmap, lo, hi) == s.hashmap[lo..hi]
    decreases hi - lo
  {
    if lo < hi {
      InOrderMissing(s, r, lo + 1, hi);
      assert s.hashmap[lo..hi] == [s.hashmap[lo]] + s.hashmap[lo + 1..hi];
    }
  }

  lemma {:induction false} InSlice(hm: seq<MapHash>, lo: nat, hi: nat, i: nat)
    requires Distinct(hm) && lo <= hi <= |hm| && i < |hm|
    ensures hm[i] in hm[lo..hi] <==> lo <= i < hi
  {
    if lo <= i < hi {
      assert hm[lo..hi][i - lo] == hm[i];
    }
  }

  lemma {:induction false} SendsRange(s: Sender, i: nat, lo: nat, hi: nat, end: nat)
    requires ValidSender(s) && Distinct(s.hashmap)
    requires lo <= hi <= end <= |s.parts| && i <= end
    ensures SendWanted(s, s.hashmap[lo..hi], i, end).1 == PartsOf(s.parts, Min(Max(i, lo), hi), hi)
    decreases end - i
  {
    if i < end {
      InSlice(s.hashmap, lo, hi, i);
      var sent := s.(sent := s.sent[i := true], sentParts := if s.sent[i] then s.sentParts else s.sentParts + 1);
      SendsRange(if lo <= i < hi then sent else s, i + 1, lo, hi, end);
    }
  }

  /** The sender's answer to a request for a range of slots that lies in its search range. */
  lemma {:induction false} SenderAnswers(s: Sender, q: Request, lo: nat, hi: nat, height: nat)
    requires ValidSender(s) && Distinct(s.hashmap) && s.status != Failed
    requires s.rmch <= lo <= hi <= SearchEnd(s) && q.wanted == s.hashmap[lo..hi]
    requires q.exhausted ==> RequestedIndex(s, q) == height && height % HASHMAP_MAX_LEN == 0
    requires q.exhausted ==> height <= |s.hashmap|
    ensures SenderRequest(s, q).1 == Answer(s, lo, hi, q.exhausted, height)
    ensures SenderRequest(s, q).0.status == Transferring || SenderRequest(s, q).0.status == AwaitingProof
  {
    SendsRange(s.(status := Transferring, retriesLeft := MAX_RETRIES), s.rmch, lo, hi, SearchEnd(s));
  }

  /** A receiver without gaps asks for a range of slots. */
  lemma {:induction false} RequestIsRange(s: Sender, r: Receiver)
    requires ValidSender(s) && ValidReceiver(r) && |r.parts| == |s.parts| && InOrder(s, r)
    requires KnowsPrefix(r, s.hashmap) && r.cch + 1 <= r.height && r.cch + 1 < |r.parts| && r.window > 0
    ensures var q := ExpectedRequest(r, s.hashmap);
            && r.cch + 1 + |q.wanted| <= r.height
            && q.wanted == s.hashmap[r.cch + 1..r.cch + 1 + |q.wanted|]
            && (|q.wanted| > 0 || q.exhausted)
            && (q.exhausted ==> r.height < |s.hashmap|)
  {
    InOrderMissing(s, r, r.cch + 1, Min(Min(r.cch + 1 + r.window, |r.parts|), r.height));
  }

  /** What the invariant of the system says about the request under way. */
  ghost predicate HeadReady(sys: System)
    requires ValidSender(sys.sender)
  {
    && |sys.requests| > 0
    && Distinct(sys.sender.hashmap)
    && sys.sender.rmch <= sys.requests[0].start && sys.requests[0].height <= SearchEnd(sys.sender)
    && (sys.requests[0].request.exhausted ==>
          && RequestedIndex(sys.sender, sys.requests[0].request) == sys.requests[0].height
          && sys.requests[0].height % HASHMAP_MAX_LEN == 0)
  }

  lemma {:induction false} HeadIsReady(sys: System, H: Chunk -> MapHash)
    requires SystemInv(sys, H) && |sys.requests| > 0
    ensures HeadReady(sys)
  {
    HeadCovered(sys, H);
    HeadRange(sys, H);
    assert FlightOk(sys.requests[0], sys.sender.hashmap);
  }

  lemma {:induction false} AnswersRequest(res: Resource, t: Session)
    requires Steady(res, t) && Requesting(t) && HeadReady(t.sys) && t.sys.receiver.window > 0
    ensures var s, r, q := t.sys.sender, t.sys.receiver, t.sys.requests[0].request;
            && r.cch + 1 + r.outstanding <= r.height && (r.outstanding > 0 || r.waitingForHmu)
            && (r.waitingForHmu ==> r.height < |s.hashmap| && Served(t.sys, t.sys.requests[0]) == r.height)
            && SenderRequest(s, q).1 == Answer(s, r.cch + 1, r.cch + 1 + r.outstanding, r.waitingForHmu, r.height)
            && (SenderRequest(s, q).0.status == Transferring || SenderRequest(s, q).0.status == AwaitingProof)
  {
    var s, r, f := t.sys.sender, t.sys.receiver, t.sys.requests[0];
    RequestIsRange(s, r);
    SenderAnswers(s, f.request, r.cch + 1, r.cch + 1 + r.outstanding, r.height);
  }

  lemma {:induction false} RequestSteady(res: Resource, t: Session, out: seq<Response>)
    requires Steady(res, t) && Requesting(t)
    requires var s, r, q := t.sys.sender, t.sys.receiver, t.sys.requests[0].request;
             && r.cch + 1 + r.outstanding <= r.height && (r.outstanding > 0 || r.waitingForHmu)
             && (r.waitingForHmu ==> r.height < |s.hashmap| && Served(t.sys, t.sys.requests[0]) == r.height)
             && out == SenderRequest(s, q).1 == Answer(s, r.cch + 1, r.cch + 1 + r.outstanding, r.waitingForHmu, r.height)
             && (SenderRequest(s, q).0.status == Transferring || SenderRequest(s, q).0.status == AwaitingProof)
    ensures Steady(res, SessionStep(res, t, DeliverRequest))
  {
    var s' := SenderRequest(t.sys.sender, t.sys.requests[0].request).0;
    SenderRequestFrame(t.sys.sender, t.sys.requests[0].request);
    RequestSession(res, t);
    AnsweredSteady(res, t, s', out, Served(t.sys, t.sys.requests[0]));
  }

  lemma {:induction false} AnsweredSteady(res: Resource, t: Session, s': Sender, out: seq<Response>, served: nat)
    requires Steady(res, t) && Requesting(t) && ValidSender(s')
    requires s'.parts == t.sys.sender.parts && s'.hashmap == t.sys.sender.hashmap
    requires s'.status == Transferring || s'.status == AwaitingProof
    requires var r := t.sys.receiver;
             && r.cch + 1 + r.outstanding <= r.height && (r.outstanding > 0 || r.waitingForHmu)
             && (r.waitingForHmu ==> r.height < |s'.hashmap| && served == r.height)
             && out == Answer(s', r.cch + 1, r.cch + 1 + r.outstanding, r.waitingForHmu, r.height)
    ensures Steady(res, t.(sys := t.sys.(sender := s', requests := [], responses := t.sys.responses + (set x | x in out), served := served),
                           inbox := out))
  {
  }

  lemma {:induction false} RequestSession(res: Resource, t: Session)
    requires WellFormed(t) && |t.sys.receiver.parts| == |t.sys.sender.parts| && Requesting(t)
    ensures var (s', out) := SenderRequest(t.sys.sender, t.sys.requests[0].request);
            SessionStep(res, t, DeliverRequest)
            == t.(sys := t.sys.(sender := s', requests := [], responses := t.sys.responses + (set x | x in out),
                                served := Served(t.sys, t.sys.requests[0])), inbox := out)
  {
  }

  lemma {:induction false} DeliverRequestKeeps(res: Resource, t: Session)
    requires SessionInv(res, t) && Requesting(t)
    ensures SessionInv(res, SessionStep(res, t, DeliverRequest))
    ensures Measure(SessionStep(res, t, DeliverRequest)) < Measure(t)
  {
    HeadIsReady(t.sys, res.crypto.mapHash);
    AnswersRequest(res, t);
    ServeKeeps(t.sys, res.crypto.mapHash);
    SenderRequestFrame(t.sys.sender, t.sys.requests[0].request);
    RequestSteady(res, t, SenderRequest(t.sys.sender, t.sys.requests[0].request).1);
  }

  // --------------------------------------------------------------- responses

  lemma {:induction false} NextPartFiled(s: Sender, r: Receiver, H: Chunk -> MapHash)
    requires ValidSender(s) && ReceiverInv(r, s.hashmap, H) && Distinct(s.hashmap) && InOrder(s, r)
    requires r.cch + 1 < r.height && H(s.parts[r.cch + 1]) == s.hashmap[r.cch + 1]
    ensures var chunk := s.parts[r.cch + 1];
            var f := FilePart(r, H(chunk), chunk);
            && InOrder(s, f)
            && f == r.(parts := r.parts[r.cch + 1 := Some(chunk)], receivedCount := r.receivedCount + 1, cch := r.cch + 1,
                       outstanding := if r.outstanding > 0 then r.outstanding - 1 else 0)
  {
    var i, chunk := r.cch + 1, s.parts[r.cch + 1];
    var start := Min(SearchStart(r), |r.parts|);
    FileFromHits(r, s.hashmap, H, chunk, i, start, Min(start + r.window, |r.parts|));
    var f := FileAt(r, chunk, i);
    assert f.cch == i;
  }

  lemma {:induction false} ValuesOfAll(chunks: seq<Chunk>, parts: seq<Option<Chunk>>)
    requires |parts| == |chunks| && forall k :: 0 <= k < |chunks| ==> parts[k] == Some(chunks[k])
    ensures Values(parts) == chunks
  {
    if parts != [] {
      ValuesOfAll(chunks[1..], parts[1..]);
      assert chunks == [chunks[0]] + chunks[1..];
    }
  }

  lemma {:induction false} SenderPartsAreSlices(res: Resource)
    requires res.sdu > 0 && Fits(res)
    ensures StartSender(res).parts == Slices(Stream(res), res.sdu)
  {
    var chunks := Slices(Stream(res), res.sdu);
    assert forall k :: 0 <= k < |chunks| ==> Cut(chunks[k]) == chunks[k];
  }

  lemma {:induction false} AssemblesPayload(res: Resource, parts: seq<Option<Chunk>>)
    requires Sound(res)
    requires var sent := StartSender(res).parts;
             |parts| == |sent| && forall k :: 0 <= k < |sent| ==> parts[k] == Some(sent[k])
    ensures Assemble(res, parts) == Some(res.data)
  {
    SenderPartsAreSlices(res);
    ValuesOfAll(StartSender(res).parts, parts);
    SlicesCover(Stream(res), res.sdu);
    assert (res.random + res.data)[RANDOM_HASH_SIZE..] == res.data;
  }

  /**
   Whatever parts a receiver has: what it delivers has the advertised hash, and is the payload
   itself if no other bytes have that; bytes with another hash are not delivered.
   */
  lemma {:induction false} DeliversOnlyVerified(res: Resource, parts: seq<Option<Chunk>>)
    ensures var plaintext, got := res.crypto.decrypt(Concat(Values(parts))), Assemble(res, parts);
            var data := plaintext[Min(RANDOM_HASH_SIZE, |plaintext|)..];
            && (got.Some? <==> res.crypto.fullHash(data + res.random) == ResourceHash(res))
            && (got.Some? ==> got.value == data)
            && ((forall d :: res.crypto.fullHash(d + res.random) == ResourceHash(res) ==> d == res.data) && got.Some? ==> got.value == res.data)
  {
  }

  /** A receiver that cannot verify what it assembled ends corrupt, without a proof. */
  lemma {:induction false} UnverifiedIsCorrupt(res: Resource, t: Session)
    ensures var t' := Conclusion(res, t);
            Assemble(res, t.sys.receiver.parts).None? ==>
              t'.sys.receiver.status == Corrupt && t'.proofs == t.proofs && t'.received == t.received
  {
  }

  /** A sender starts with nothing sent, and counts so. */
  lemma {:induction false} NothingSentAtFirst(res: Resource)
    requires res.sdu > 0
    ensures Counted(StartSender(res)) && forall k :: 0 <= k < |StartSender(res).sent| ==> !StartSender(res).sent[k]
  {
    NoneCounted(StartSender(res).sent);
  }

  lemma {:induction false} NoneCounted(sent: seq<bool>)
    requires forall k :: 0 <= k < |sent| ==> !sent[k]
    ensures CountTrue(sent) == 0
    decreases |sent|
  {
    if sent != [] { NoneCounted(sent[..|sent| - 1]); }
  }

  /** The system after a part is filed, by what it leaves to do. */
  lemma {:induction false} PartOutcome(sys: System, chunk: Chunk, sample: RateSample, H: Chunk -> MapHash)
    requires ValidReceiver(sys.receiver) && sys.receiver.status == Transferring
    ensures var f := FilePart(Searching(sys.receiver, sample), H(chunk), chunk);
            DeliverPart(sys, chunk, sample, H) ==
            if f.receivedCount == |f.parts| then sys.(receiver := f.(status := Complete))
            else if f.outstanding == 0 then Update(sys, RequestNext(NextRound(f, sample)).0, RequestNext(NextRound(f, sample)).1)
            else sys.(receiver := f)
  {
  }

  /** The receiver after the next part in order was filed. */
  ghost predicate FiledNext(t: Session, f: Receiver)
    requires WellFormed(t) && |t.sys.receiver.parts| == |t.sys.sender.parts|
  {
    var s, r := t.sys.sender, t.sys.receiver;
    && ValidReceiver(f) && |f.parts| == |s.parts| && InOrder(s, f)
    && f.status == Transferring && f.height == r.height && f.hashmap == r.hashmap && f.waitingForHmu == r.waitingForHmu
    && f.cch == r.cch + 1 && f.outstanding + 1 == r.outstanding
  }

  lemma {:induction false} AnswerTail(s: Sender, lo: nat, hi: nat, more: bool, height: nat)
    requires ValidSender(s) && lo < hi <= |s.parts|
    requires more ==> height <= |s.hashmap|
    ensures Answer(s, lo, hi, more, height) == [Part(s.parts[lo])] + Answer(s, lo + 1, hi, more, height)
  {
  }

  lemma {:induction false} DeliverNext(res: Resource, t: Session, sample: RateSample) returns (f: Receiver)
    requires SessionInv(res, t) && Answering(t) && t.sys.receiver.outstanding > 0
    ensures t.inbox[0] == Part(t.sys.sender.parts[t.sys.receiver.cch + 1]) && FiledNext(t, f)
    ensures f == FilePart(Searching(t.sys.receiver, sample), res.crypto.mapHash(t.inbox[0].chunk), t.inbox[0].chunk)
    ensures ReceiverInv(f, t.sys.sender.hashmap, res.crypto.mapHash)
  {
    var H, s, r := res.crypto.mapHash, t.sys.sender, t.sys.receiver;
    var chunk, q := s.parts[r.cch + 1], Searching(r, sample);
    AnswerTail(s, r.cch + 1, r.cch + 1 + r.outstanding, r.waitingForHmu, r.height);
    OtherFieldsFree(r, q, s.hashmap, H);
    NextPartFiled(s, q, H);
    f := FilePart(q, H(chunk), chunk);
    FilePartKeeps(q, s.hashmap, H, chunk);
  }

  /** The session that goes on with receiver r and, if it made one, a request. */
  function GoOn(t: Session, r: Receiver, request: Option<Request>): Session
    requires ValidReceiver(r) && |t.inbox| > 0
  {
    t.(sys := Update(t.sys, r, request), inbox := t.inbox[1..])
  }

  lemma {:induction false} StillAnswering(res: Resource, t: Session, f: Receiver, r: Receiver)
    requires Steady(res, t) && Answering(t) && t.sys.receiver.outstanding > 0 && FiledNext(t, f)
    requires ValidReceiver(r) && r == f.(window := r.window, windowMax := r.windowMax, windowMin := r.windowMin, fastRounds := r.fastRounds, slowRounds := r.slowRounds)
    requires f.outstanding > 0 || f.waitingForHmu
    ensures Steady(res, GoOn(t, r, None))
    ensures Measure(GoOn(t, r, None)) < Measure(t)
  {
    var s := t.sys.sender;
    AnswerTail(s, f.cch, f.cch + 1 + f.outstanding, f.waitingForHmu, f.height);
    assert Answering(GoOn(t, r, None));
  }

  lemma {:induction false} AsksAgain(res: Resource, t: Session, r: Receiver)
    requires Steady(res, t) && Answering(t) && |t.inbox| == 1 && t.sys.sender.status != Complete
    requires ReceiverInv(r, t.sys.sender.hashmap, res.crypto.mapHash) && Distinct(t.sys.sender.hashmap)
    requires InOrder(t.sys.sender, r) && r.status == Transferring && !r.waitingForHmu && r.cch + 1 < |r.parts|
    requires 3 * (r.cch + r.height) >= 3 * (t.sys.receiver.cch + t.sys.receiver.height) + 3
    ensures Steady(res, GoOn(t, RequestNext(r).0, RequestNext(r).1))
    ensures Measure(GoOn(t, RequestNext(r).0, RequestNext(r).1)) < Measure(t)
  {
    Asks(t.sys.sender, r, res.crypto.mapHash);
    AskedSteady(res, t, RequestNext(r).0, RequestNext(r).1.value);
  }

  /** A receiver without gaps after it has asked. */
  ghost predicate HasAsked(s: Sender, r: Receiver, q: Request)
    requires ValidSender(s)
  {
    && ValidReceiver(r) && |r.parts| == |s.parts| && InOrder(s, r)
    && r.status == Transferring && r.cch + 1 < |r.parts| && KnowsPrefix(r, s.hashmap) && r.cch + 1 <= r.height
    && q == ExpectedRequest(r, s.hashmap) && r.outstanding == |q.wanted| && r.waitingForHmu == q.exhausted
  }

  lemma {:induction false} Asks(s: Sender, r: Receiver, H: Chunk -> MapHash)
    requires ValidSender(s) && ReceiverInv(r, s.hashmap, H) && Distinct(s.hashmap) && |r.parts| == |s.parts| && InOrder(s, r)
    requires r.status == Transferring && !r.waitingForHmu && r.cch + 1 < |r.parts|
    ensures RequestNext(r).1.Some? && HasAsked(s, RequestNext(r).0, RequestNext(r).1.value)
    ensures RequestNext(r).0.cch == r.cch && RequestNext(r).0.height == r.height
  {
    RequestNextMeaning(r, s.hashmap, H);
  }

  /** A session that goes on with the request its receiver is expected to make. */
  lemma {:induction false} AskedSteady(res: Resource, t: Session, r: Receiver, q: Request)
    requires Steady(res, t) && Answering(t) && |t.inbox| == 1 && t.sys.sender.status != Complete
    requires HasAsked(t.sys.sender, r, q)
    requires 3 * (r.cch + r.height) >= 3 * (t.sys.receiver.cch + t.sys.receiver.height) + 3
    ensures Steady(res, GoOn(t, r, Some(q))) && Measure(GoOn(t, r, Some(q))) < Measure(t)
  {
    assert Requesting(GoOn(t, r, Some(q)));
  }

  lemma {:induction false} Concludes(res: Resource, t: Session, f: Receiver)
    requires Sound(res) && Steady(res, t) && Answering(t) && t.sys.receiver.outstanding > 0 && FiledNext(t, f)
    requires f.receivedCount == |f.parts|
    requires t.sys.sender.status != Complete
    ensures var t' := Conclusion(res, t.(sys := t.sys.(receiver := f.(status := Complete)), inbox := t.inbox[1..]));
            t'.sys == t.sys.(receiver := f.(status := Complete)) && Steady(res, t') && Measure(t') < Measure(t)
  {
    var t0 := t.(sys := t.sys.(receiver := f.(status := Complete)), inbox := t.inbox[1..]);
    AssemblesPayload(res, f.parts);
    AnswerTail(t.sys.sender, f.cch, f.cch + 1 + f.outstanding, f.waitingForHmu, f.height);
    assert Concluded(res, Conclusion(res, t0));
  }

  /** A round that is over either waits for hashmap or asks for the next window. */
  lemma {:induction false} RoundOver(res: Resource, t: Session, sample: RateSample, f: Receiver)
    requires Steady(res, t) && Answering(t) && t.sys.receiver.outstanding > 0 && FiledNext(t, f)
    requires Distinct(t.sys.sender.hashmap) && ReceiverInv(f, t.sys.sender.hashmap, res.crypto.mapHash)
    requires f.receivedCount != |f.parts| && f.outstanding == 0
    ensures var (r, request) := RequestNext(NextRound(f, sample));
            Steady(res, GoOn(t, r, request)) && Measure(GoOn(t, r, request)) < Measure(t)
  {
    var H, s, g := res.crypto.mapHash, t.sys.sender, NextRound(f, sample);
    if f.waitingForHmu {
      StillAnswering(res, t, f, g);
    } else {
      WindowStaysInBand(f, sample);
      OtherFieldsFree(f, g, s.hashmap, H);
      AnswerTail(s, f.cch, f.cch + 1 + f.outstanding, f.waitingForHmu, f.height);
      AsksAgain(res, t, g);
    }
  }

  /** Delivering the head of the inbox, with assembly if it was the last part. */
  lemma {:induction false} ResponseOutcome(res: Resource, t: Session, sample: RateSample)
    requires WellFormed(t) && |t.inbox| > 0 && t.inbox[0] in t.sys.responses && t.sys.receiver.status == Transferring
    ensures var H, t' := res.crypto.mapHash, SessionStep(res, t, DeliverResponse(sample));
            && (t.inbox[0].Part? ==>
                  var moved := t.(sys := DeliverPart(t.sys, t.inbox[0].chunk, sample, H), inbox := t.inbox[1..]);
                  t' == if moved.sys.receiver.status == Complete then Conclusion(res, moved) else moved)
            && (t.inbox[0].Hmu? ==>
                  var moved := t.(sys := DeliverHmu(t.sys, t.inbox[0].segment, t.inbox[0].hashes), inbox := t.inbox[1..]);
                  t' == if moved.sys.receiver.status == Complete then Conclusion(res, moved) else moved)
  {
  }

  /** The same for a part: assembly, waiting for more, or another round. */
  lemma {:induction false} PartSession(res: Resource, t: Session, sample: RateSample, f: Receiver)
    requires WellFormed(t) && |t.inbox| > 0 && t.inbox[0].Part? && t.inbox[0] in t.sys.responses && t.sys.receiver.status == Transferring
    requires f == FilePart(Searching(t.sys.receiver, sample), res.crypto.mapHash(t.inbox[0].chunk), t.inbox[0].chunk)
    requires f.status == Transferring
    ensures var t' := SessionStep(res, t, DeliverResponse(sample));
            && (f.receivedCount == |f.parts| ==>
                  t' == Conclusion(res, t.(sys := t.sys.(receiver := f.(status := Complete)), inbox := t.inbox[1..])))
            && (f.receivedCount != |f.parts| && f.outstanding > 0 ==> t' == GoOn(t, f, None))
            && (f.receivedCount != |f.parts| && f.outstanding == 0 ==>
                  t' == GoOn(t, RequestNext(NextRound(f, sample)).0, RequestNext(NextRound(f, sample)).1))
    ensures f.receivedCount != |f.parts| ==>
              SessionStep(res, t, DeliverResponse(sample)).sys == DeliverPart(t.sys, t.inbox[0].chunk, sample, res.crypto.mapHash)
    ensures f.receivedCount == |f.parts| ==>
              DeliverPart(t.sys, t.inbox[0].chunk, sample, res.crypto.mapHash) == t.sys.(receiver := f.(status := Complete))
  {
    PartOutcome(t.sys, t.inbox[0].chunk, sample, res.crypto.mapHash);
    ResponseOutcome(res, t, sample);
    if f.receivedCount != |f.parts| && f.outstanding == 0 {
      RequestNextSlots(NextRound(f, sample));
    }
  }

  lemma {:induction false} PartSteady(res: Resource, t: Session, sample: RateSample, f: Receiver)
    requires Sound(res) && Steady(res, t) && Answering(t) && t.sys.receiver.outstanding > 0 && FiledNext(t, f)
    requires t.inbox[0].Part? && t.inbox[0] in t.sys.responses && Distinct(t.sys.sender.hashmap)
    requires f == FilePart(Searching(t.sys.receiver, sample), res.crypto.mapHash(t.inbox[0].chunk), t.inbox[0].chunk)
    requires ReceiverInv(f, t.sys.sender.hashmap, res.crypto.mapHash)
    ensures var t' := SessionStep(res, t, DeliverResponse(sample));
            Steady(res, t') && Measure(t') < Measure(t)
            && t'.sys == DeliverPart(t.sys, t.inbox[0].chunk, sample, res.crypto.mapHash)
  {
    PartSession(res, t, sample, f);
    if f.receivedCount == |f.parts| {
      Concludes(res, t, f);
    } else if f.outstanding > 0 {
      StillAnswering(res, t, f, f);
    } else {
      RoundOver(res, t, sample, f);
    }
  }

  lemma {:induction false} DeliverPartKeepsSession(res: Resource, t: Session, sample: RateSample)
    requires Sound(res) && SessionInv(res, t) && Answering(t) && t.sys.receiver.outstanding > 0
    ensures SessionInv(res, SessionStep(res, t, DeliverResponse(sample)))
    ensures Measure(SessionStep(res, t, DeliverResponse(sample))) < Measure(t)
  {
    var f := DeliverNext(res, t, sample);
    PartSteady(res, t, sample, f);
    DeliverPartKeeps(t.sys, t.inbox[0].chunk, sample, res.crypto.mapHash);
  }

  lemma {:induction false} DeliverHmuKeepsSession(res: Resource, t: Session, sample: RateSample)
    requires Sound(res) && SessionInv(res, t) && Answering(t) && t.sys.receiver.outstanding == 0
    ensures SessionInv(res, SessionStep(res, t, DeliverResponse(sample)))
    ensures Measure(SessionStep(res, t, DeliverResponse(sample))) < Measure(t)
  {
    var H, s, r := res.crypto.mapHash, t.sys.sender, t.sys.receiver;
    var segment := HmuIsNext(res, t);
    DeliverHmuKeeps(t.sys, segment, H);
    var q := r.(retriesLeft := MAX_RETRIES);
    OtherFieldsFree(r, q, s.hashmap, H);
    HashmapUpdateKeeps(q, s.hashmap, H, segment);
    HmuSteady(res, t, sample, WithHashes(q, segment, HashmapSegment(s.hashmap, segment)));
  }

  /** With no part outstanding, the next segment of hashmap is under way. */
  lemma {:induction false} HmuIsNext(res: Resource, t: Session) returns (segment: nat)
    requires SessionInv(res, t) && Answering(t) && t.sys.receiver.outstanding == 0
    ensures segment < 65536 && segment * HASHMAP_MAX_LEN == t.sys.receiver.height < |t.sys.sender.hashmap|
    ensures t.inbox == [Hmu(segment, HashmapSegment(t.sys.sender.hashmap, segment))]
  {
    segment := t.sys.receiver.height / HASHMAP_MAX_LEN;
  }

  lemma {:induction false} HmuOutcome(sys: System, segment: nat, hashes: seq<MapHash>)
    requires ValidReceiver(sys.receiver) && sys.receiver.status == Transferring && segment < 65536
    ensures var next := RequestNext(WithHashes(sys.receiver.(retriesLeft := MAX_RETRIES), segment, hashes));
            DeliverHmu(sys, segment, hashes) == Update(sys, next.0, next.1) && next.0.status == Transferring
  {
    RequestNextSlots(WithHashes(sys.receiver.(retriesLeft := MAX_RETRIES), segment, hashes));
  }

  lemma {:induction false} HmuSteady(res: Resource, t: Session, sample: RateSample, w: Receiver)
    requires Steady(res, t) && Answering(t) && |t.inbox| == 1 && t.inbox[0].Hmu? && t.inbox[0] in t.sys.responses
    requires t.inbox[0].segment < 65536
    requires w == WithHashes(t.sys.receiver.(retriesLeft := MAX_RETRIES), t.inbox[0].segment, t.inbox[0].hashes)
    requires w.parts == t.sys.receiver.parts && w.cch == t.sys.receiver.cch && w.receivedCount == t.sys.receiver.receivedCount
    requires ReceiverInv(w, t.sys.sender.hashmap, res.crypto.mapHash) && Distinct(t.sys.sender.hashmap)
    requires w.height > t.sys.receiver.height && t.sys.receiver.cch + 1 < |t.sys.receiver.parts|
    ensures var t' := SessionStep(res, t, DeliverResponse(sample));
            Steady(res, t') && Measure(t') < Measure(t)
            && t'.sys == DeliverHmu(t.sys, t.inbox[0].segment, t.inbox[0].hashes)
  {
    HmuOutcome(t.sys, t.inbox[0].segment, t.inbox[0].hashes);
    ResponseOutcome(res, t, sample);
    AsksAgain(res, t, w);
  }

  lemma {:induction false} DeliverProofKeeps(res: Resource, t: Session)
    requires SessionInv(res, t) && Concluded(res, t) && Enabled(t, DeliverProof)
    ensures SessionInv(res, SessionStep(res, t, DeliverProof))
    ensures Measure(SessionStep(res, t, DeliverProof)) < Measure(t)
    ensures Finished(res, SessionStep(res, t, DeliverProof))
  {
  }

  // ------------------------------------------------------------ the theorems

  /** Nothing is under way, the payload has arrived and the sender knows it. */
  ghost predicate Finished(res: Resource, t: Session) {
    && t.sys.requests == [] && t.inbox == [] && t.proofs == []
    && t.received == Some(res.data)
    && t.sys.receiver.status == Complete && t.sys.sender.status == Complete
  }

  lemma {:induction false} StepProgress(res: Resource, t: Session, d: Delivery)
    requires Sound(res) && SessionInv(res, t) && Enabled(t, d)
    ensures SessionInv(res, SessionStep(res, t, d))
    ensures Measure(SessionStep(res, t, d)) < Measure(t)
  {
    match d
    case DeliverRequest => DeliverRequestKeeps(res, t);
    case DeliverResponse(sample) =>
      if t.sys.receiver.outstanding > 0 {
        DeliverPartKeepsSession(res, t, sample);
      } else {
        DeliverHmuKeepsSession(res, t, sample);
      }
    case DeliverProof => DeliverProofKeeps(res, t);
  }

  lemma {:induction false} StuckIsFinished(res: Resource, t: Session)
    requires SessionInv(res, t)
    requires t.sys.requests == [] && t.inbox == [] && t.proofs == []
    ensures Finished(res, t)
  {
  }

  lemma {:induction false} InitialHolds(res: Resource)
    requires Sound(res)
    ensures Slices(Stream(res), res.sdu) != []
    ensures SessionInv(res, Initial(res))
    ensures Measure(Initial(res)) <= 6 * |Slices(Stream(res), res.sdu)| + 1
  {
    var s, H := StartSender(res), res.crypto.mapHash;
    SenderPartsAreSlices(res);
    assert forall k :: 0 <= k < |s.parts| ==> H(s.parts[k]) == s.hashmap[k];
    StartHolds(s, H);
    var a := Accepted(|s.parts|);
    AcceptedHolds(s.hashmap, H);
    HashmapUpdateKeeps(a, s.hashmap, H, 0);
    RequestNextMeaning(WithHashes(a, 0, HashmapSegment(s.hashmap, 0)), s.hashmap, H);
    assert Requesting(Initial(res));
  }

  /** A schedule in which every delivery finds its message. */
  ghost predicate FeasibleFrom(res: Resource, t: Session, schedule: seq<Delivery>)
    requires Sound(res) && SessionInv(res, t)
    decreases |schedule|
  {
    schedule == [] ||
    (Enabled(t, schedule[0]) &&
     (StepProgress(res, t, schedule[0]); FeasibleFrom(res, SessionStep(res, t, schedule[0]), schedule[1..])))
  }

  ghost function FinalFrom(res: Resource, t: Session, schedule: seq<Delivery>): (t': Session)
    requires Sound(res) && SessionInv(res, t) && FeasibleFrom(res, t, schedule)
    ensures SessionInv(res, t')
    ensures Measure(t') + |schedule| <= Measure(t)
    decreases |schedule|
  {
    if schedule == [] then t
    else
      StepProgress(res, t, schedule[0]);
      FinalFrom(res, SessionStep(res, t, schedule[0]), schedule[1..])
  }

  ghost predicate Feasible(res: Resource, schedule: seq<Delivery>)
    requires Sound(res)
  {
    InitialHolds(res);
    FeasibleFrom(res, Initial(res), schedule)
  }

  ghost function Final(res: Resource, schedule: seq<Delivery>): Session
    requires Sound(res) && Feasible(res, schedule)
  {
    InitialHolds(res);
    FinalFrom(res, Initial(res), schedule)
  }

  /**
   End to end: no lossless run of the transfer is longer than six steps for each part
   plus one, and a run that cannot be continued has delivered the payload and its proof.
   */
  lemma {:induction false} TransferCompletes(res: Resource, schedule: seq<Delivery>)
    requires Sound(res) && Feasible(res, schedule)
    ensures |schedule| <= 6 * |Slices(Stream(res), res.sdu)| + 1
    ensures (forall d :: !Enabled(Final(res, schedule), d)) ==> Finished(res, Final(res, schedule))
  {
    InitialHolds(res);
    var t := Final(res, schedule);
    assert Measure(t) >= 0;
    if forall d :: !Enabled(t, d) {
      assert !Enabled(t, DeliverRequest) && !Enabled(t, DeliverProof);
      assert !Enabled(t, DeliverResponse(RateSample(false, false, false)));
      StuckIsFinished(res, t);
    }
  }

  // ------------------------------------------------------- exactly when it fits

  /** Map hashes tell what packets carry of the parts from the parts themselves. */
  ghost predicate Told(res: Resource)
    requires res.sdu > 0
  {
    var chunks, H := Slices(Stream(res), res.sdu), res.crypto.mapHash;
    && (forall k :: 0 <= k < |chunks| ==> H(Cut(chunks[k])) != UNKNOWN)
    && (forall k, i :: 0 <= k < |chunks| && 0 <= i < |chunks| && H(Cut(chunks[k])) == H(chunks[i]) ==> Cut(chunks[k]) == chunks[i])
  }

  lemma {:induction false} OfferedIsTransferable(res: Resource)
    requires Offered(res) && Told(res)
    ensures Transferable(StartSender(res), res.crypto.mapHash) && StartSender(res).rmch == 0
  {
    assert Slices(Stream(res), res.sdu) != [];
  }

  ghost predicate RunsTo(res: Resource, events: seq<Event>, sys: System)
    requires Offered(res) && Told(res)
  {
    OfferedIsTransferable(res);
    sys == Run(StartSender(res), events, res.crypto.mapHash)
  }

  ghost predicate Completes(res: Resource, events: seq<Event>)
    requires Offered(res) && Told(res)
  {
    OfferedIsTransferable(res);
    Run(StartSender(res), events, res.crypto.mapHash).receiver.status == Complete
  }

  /** Whatever the schedule and the losses, the receiver completes only if packets carry every slice whole. */
  lemma {:induction false} CompletionNeedsFittingParts(res: Resource, events: seq<Event>)
    requires Offered(res) && Told(res)
    ensures Completes(res, events) ==> Fits(res)
  {
    OfferedIsTransferable(res);
    var s, H, chunks := StartSender(res), res.crypto.mapHash, Slices(Stream(res), res.sdu);
    RunIntegrity(s, events, H);
    RunKeepsResource(s, events, H);
    if Completes(res, events) {
      forall j | 0 <= j < |chunks| ensures |chunks[j]| <= PACKET_MDU {
        var k := FullSlotHoldsItsPart(Run(s, events, H), H, j);
        assert s.parts[k] == Cut(chunks[k]) == chunks[j];
      }
    }
  }

  /** A delivery in a session is an event of the system of sender and receiver. */
  lemma {:induction false} DeliveryIsEvent(res: Resource, t: Session) returns (d: Delivery, e: Event)
    requires Sound(res) && SessionInv(res, t) && t.sys.receiver.status != Complete
    ensures Enabled(t, d) && SessionStep(res, t, d).sys == Step(t.sys, e, res.crypto.mapHash)
  {
    var sample := RateSample(false, false, false);
    if Requesting(t) {
      d, e := DeliverRequest, Serve;
      ServingIsEvent(res, t);
    } else {
      d, e := DeliverResponse(sample), Deliver(t.inbox[0], sample);
      StepProgress(res, t, d);
      NotCorrupt(res, SessionStep(res, t, d));
      RespondingIsEvent(res, t, sample);
    }
  }

  lemma {:induction false} ServingIsEvent(res: Resource, t: Session)
    requires WellFormed(t) && |t.sys.requests| > 0
    ensures SessionStep(res, t, DeliverRequest).sys == Step(t.sys, Serve, res.crypto.mapHash)
  {
  }

  lemma {:induction false} RespondingIsEvent(res: Resource, t: Session, sample: RateSample)
    requires WellFormed(t) && |t.inbox| > 0 && SessionStep(res, t, DeliverResponse(sample)).sys.receiver.status != Corrupt
    ensures SessionStep(res, t, DeliverResponse(sample)).sys == Step(t.sys, Deliver(t.inbox[0], sample), res.crypto.mapHash)
  {
  }

  lemma {:induction false} NotCorrupt(res: Resource, t: Session)
    requires Steady(res, t)
    ensures t.sys.receiver.status != Corrupt
  {
  }

  lemma {:induction false} SessionReachesEnd(res: Resource, t: Session, events: seq<Event>) returns (more: seq<Event>)
    requires Sound(res) && Told(res) && SessionInv(res, t)
    requires RunsTo(res, events, t.sys)
    ensures Completes(res, more)
    decreases Measure(t)
  {
    OfferedIsTransferable(res);
    if t.sys.receiver.status == Complete {
      more := events;
    } else {
      var d, e := DeliveryIsEvent(res, t);
      StepProgress(res, t, d);
      assert (events + [e])[..|events|] == events;
      more := SessionReachesEnd(res, SessionStep(res, t, d), events + [e]);
    }
  }

  /** A transfer can be completed, by some schedule, if and only if packets carry every slice of the stream whole. */
  lemma {:induction false} CompletesExactlyWhenPartsFit(res: Resource)
    requires Offered(res) && Told(res)
    ensures Fits(res) <==> exists events :: Completes(res, events)
  {
    OfferedIsTransferable(res);
    if Fits(res) {
      InitialHolds(res);
      var events := SessionReachesEnd(res, Initial(res), []);
    }
    if events :| Completes(res, events) {
      CompletionNeedsFittingParts(res, events);
    }
  }

  /** A resource that is offered and told apart and never arrives: one part of 500 bytes. */
  lemma {:induction false} OversizedNeverCompletes(events: seq<Event>)
    ensures var res := Resource(Crypto(c => |c| + 1, c => c, c => c, c => c), [0, 0, 0, 0], seq(496, _ => 0), 500);
            Offered(res) && Told(res) && !Fits(res) && !Completes(res, events)
  {
    var res := Resource(Crypto(c => |c| + 1, c => c, c => c, c => c), [0, 0, 0, 0], seq(496, _ => 0), 500);
    assert |Stream(res)| == 500;
    assert Slices(Stream(res), 500) == [Stream(res)];
    assert |Slices(Stream(res), 500)[0]| == 500;
    CompletionNeedsFittingParts(res, events);
  }

  // ------------------------------------------------------------- the proof

  /**
   What the sender's acceptance of a proof means: the receiver that made it holds the
   sender's payload. Any other payload's proof leaves the sender as it is.
   */
  lemma {:induction false} ProofAcceptedExactlyWhen(res: Resource, s: Sender, data: Chunk)
    requires s.status != Failed && s.status != Complete
    requires res.crypto.fullHash(data + ResourceHash(res)) == ExpectedProof(res) ==> data + ResourceHash(res) == res.data + ResourceHash(res)
    ensures var s' := ValidateProof(s, res.crypto.fullHash(data + ResourceHash(res)), ExpectedProof(res));
            (s'.status == Complete <==> data == res.data) && (s' == s <==> data != res.data)
  {
    if data + ResourceHash(res) == res.data + ResourceHash(res) {
      assert data == (data + ResourceHash(res))[..|data|];
      assert res.data == (res.data + ResourceHash(res))[..|res.data|];
    }
  }
}
