/**
 A sender and a receiver of one resource joined by two unreliable channels. Requests
 travel in order but may be lost and repeated; parts and hashmap segments may be lost,
 reordered and repeated, so the channel back is the set of everything the sender ever emitted.
 Either watchdog may fire at any time.

 The result: whatever the schedule, a request reaches the sender while everything it
 asks for lies inside the sender's search range, so every requested part is sent, the
 next hashmap segment is the one the receiver lacks, and the sequencing error is never
 met; and the receiver's hashmap is always a prefix of the sender's.
 */
module ResourceSystem {
  import opened Basics
  import opened ResourceModel
  import opened ResourceReceiver

  /** A request under way, with the receiver's known height and lowest missing slot when it was made. */
  datatype Flight = Flight(request: Request, height: nat, start: nat)

  /** served is the height of the last request for hashmap that the sender answered. */
  datatype System = System(sender: Sender, receiver: Receiver, requests: seq<Flight>, responses: set<Response>, served: nat)

  datatype Event =
    | Serve
    | Lose(index: nat)
    | Repeat(index: nat)
    | Deliver(response: Response, sample: RateSample)
    | ReceiverTimeout
    | SenderTimeout

  function Emit(requests: seq<Flight>, r: Receiver, request: Option<Request>): seq<Flight>
    requires ValidReceiver(r)
  {
    if request.Some? then requests + [Flight(request.value, r.height, r.cch + 1)] else requests
  }

  function Update(sys: System, r: Receiver, request: Option<Request>): System
    requires ValidReceiver(r)
  {
    sys.(receiver := r, requests := Emit(sys.requests, r, request))
  }

  /** A concluded resource is off the link's list and gets no more packets. */
  predicate Listening(r: Receiver) { r.status == Transferring || r.status == Failed }

  function Served(sys: System, f: Flight): nat
    requires ValidSender(sys.sender)
  {
    if f.request.exhausted && sys.sender.status != Failed then RequestedIndex(sys.sender, f.request) else sys.served
  }

  function ServeHead(sys: System): System
    requires ValidSender(sys.sender) && |sys.requests| > 0
  {
    var (s, out) := SenderRequest(sys.sender, sys.requests[0].request);
    sys.(sender := s, requests := sys.requests[1..], responses := sys.responses + (set x | x in out),
         served := Served(sys, sys.requests[0]))
  }

  function DeliverPart(sys: System, chunk: Chunk, sample: RateSample, H: Chunk -> MapHash): System
    requires ValidReceiver(sys.receiver)
  {
    var res := ReceivePart(sys.receiver, H(chunk), chunk, sample);
    Update(sys, if res.assemble then res.receiver.(status := Complete) else res.receiver, res.request)
  }

  function DeliverHmu(sys: System, segment: nat, hashes: seq<MapHash>): System
    requires ValidReceiver(sys.receiver)
  {
    var (r, request) := HashmapUpdatePacket(sys.receiver, segment, hashes);
    Update(sys, r, request)
  }

  function Step(sys: System, e: Event, H: Chunk -> MapHash): System
    requires ValidSender(sys.sender) && ValidReceiver(sys.receiver)
  {
    match e
    case Serve => if |sys.requests| > 0 then ServeHead(sys) else sys
    case Lose(i) => if i < |sys.requests| then sys.(requests := sys.requests[..i] + sys.requests[i + 1..]) else sys
    case Repeat(i) => if i < |sys.requests| then sys.(requests := sys.requests[..i + 1] + sys.requests[i..]) else sys
    case Deliver(Part(chunk), sample) =>
      if e.response in sys.responses && Listening(sys.receiver) then DeliverPart(sys, chunk, sample, H) else sys
    case Deliver(Hmu(segment, hashes), _) =>
      if e.response in sys.responses && Listening(sys.receiver) then DeliverHmu(sys, segment, hashes) else sys
    case ReceiverTimeout =>
      var (r, request) := ReceiverExpired(sys.receiver);
      Update(sys, r, request)
    case SenderTimeout => sys.(sender := SenderExpired(sys.sender))
  }

  /** A resource whose hashmap can be sent and recognised. */
  ghost predicate Transferable(s: Sender, H: Chunk -> MapHash) {
    && ValidSender(s)
    && 0 < |s.parts| <= 65536 * HASHMAP_MAX_LEN
    && Distinct(s.hashmap)
    && (forall k :: 0 <= k < |s.parts| ==> H(s.parts[k]) != UNKNOWN)
  }

  /** The sender has advertised the first segment and the receiver has accepted it. */
  function Start(s: Sender): System
    requires ValidSender(s) && |s.parts| > 0
  {
    var (r, request) := HashmapUpdate(Accepted(|s.parts|), 0, HashmapSegment(s.hashmap, 0));
    System(s, r, Emit([], r, request), {}, 0)
  }

  // --------------------------------------------------------------- invariant

  ghost predicate FlightOk(f: Flight, hm: seq<MapHash>) {
    && f.start <= f.height <= |hm|
    && (forall x :: x in f.request.wanted ==> exists j :: f.start <= j < f.height && j < f.start + WINDOW_MAX && hm[j] == x)
    && (f.request.exhausted ==>
          && 0 < f.height < |hm|
          && f.height % HASHMAP_MAX_LEN == 0
          && f.height < f.start + WINDOW_MAX
          && f.request.last == hm[f.height - 1])
  }

  ghost predicate ResponseOk(x: Response, s: Sender, served: nat)
    requires ValidSender(s)
  {
    match x
    case Part(chunk) => exists k :: 0 <= k < |s.parts| && s.parts[k] == chunk
    case Hmu(segment, hashes) =>
      && segment * HASHMAP_MAX_LEN <= served
      && segment * HASHMAP_MAX_LEN < |s.hashmap|
      && hashes == HashmapSegment(s.hashmap, segment)
  }

  predicate WholeSegments(height: nat, n: nat) {
    0 < height <= n && (height == n || height % HASHMAP_MAX_LEN == 0)
  }

  /** The request is no older than what the sender has served. */
  predicate Fresh(served: nat, height: nat, start: nat) {
    served <= height && served < start + WINDOW_MAX
  }

  ghost predicate QueueOk(sys: System) {
    && (forall i :: 0 <= i < |sys.requests| ==>
          && FlightOk(sys.requests[i], sys.sender.hashmap)
          && Fresh(sys.served, sys.requests[i].height, sys.requests[i].start)
          && sys.requests[i].height <= sys.receiver.height
          && sys.requests[i].start <= sys.receiver.cch + 1)
    && (forall i, j :: 0 <= i < j < |sys.requests| ==>
          sys.requests[i].height <= sys.requests[j].height && sys.requests[i].start <= sys.requests[j].start)
  }

  ghost predicate SystemInv(sys: System, H: Chunk -> MapHash) {
    var s, r := sys.sender, sys.receiver;
    && Transferable(s, H)
    && ReceiverInv(r, s.hashmap, H)
    && WholeSegments(r.height, |s.hashmap|)
    && sys.served % HASHMAP_MAX_LEN == 0
    && r.height <= sys.served + HASHMAP_MAX_LEN
    && Fresh(sys.served, r.height, r.cch + 1)
    && s.rmch == Max(sys.served - 1 - WINDOW_MAX, 0)
    && QueueOk(sys)
    && (forall x :: x in sys.responses ==> ResponseOk(x, s, sys.served))
  }

  /** Everything the request asks for is in the sender's search range, and the sender can go on. */
  ghost predicate Covered(s: Sender, request: Request)
    requires ValidSender(s)
  {
    && (forall x :: x in request.wanted ==> exists j :: s.rmch <= j < SearchEnd(s) && s.hashmap[j] == x)
    && (request.exhausted ==> exists j :: s.rmch <= j < SearchEnd(s) && s.hashmap[j] == request.last)
    && !SequencingError(s, request)
  }

  // ------------------------------------------------------------------ sender

  lemma {:induction false} PartIndexFinds(hm: seq<MapHash>, k: nat, i: nat, end: nat)
    requires Distinct(hm) && i <= k < end <= |hm|
    ensures PartIndex(hm, hm[k], i, end) == k + 1
    decreases end - i
  {
    if i < k {
      PartIndexFinds(hm, k, i + 1, end);
    }
  }

  /** The parts sent are exactly those in range whose map hash is wanted. */
  lemma {:induction false} SendWantedExact(s: Sender, wanted: seq<MapHash>, i: nat, end: nat)
    requires ValidSender(s) && i <= end <= |s.parts|
    ensures forall x :: x in SendWanted(s, wanted, i, end).1 <==>
                        exists k :: i <= k < end && s.hashmap[k] in wanted && x == Part(s.parts[k])
    decreases end - i
  {
    if i < end {
      if s.hashmap[i] in wanted {
        var s1 := s.(sent := s.sent[i := true], sentParts := if s.sent[i] then s.sentParts else s.sentParts + 1);
        SendWantedExact(s1, wanted, i + 1, end);
        var out := SendWanted(s1, wanted, i + 1, end).1;
        assert SendWanted(s, wanted, i, end).1 == [Part(s.parts[i])] + out;
      } else {
        SendWantedExact(s, wanted, i + 1, end);
      }
    }
  }

  lemma {:induction false} HeadRange(sys: System, H: Chunk -> MapHash)
    requires SystemInv(sys, H) && |sys.requests| > 0
    ensures sys.sender.rmch <= sys.requests[0].start && sys.requests[0].height <= SearchEnd(sys.sender)
  {
  }

  /** A request at the head of the queue falls inside the sender's guard range. */
  lemma {:induction false} HeadCovered(sys: System, H: Chunk -> MapHash)
    requires SystemInv(sys, H) && |sys.requests| > 0
    ensures Covered(sys.sender, sys.requests[0].request)
    ensures sys.requests[0].request.exhausted ==> RequestedIndex(sys.sender, sys.requests[0].request) == sys.requests[0].height
  {
    var s, f := sys.sender, sys.requests[0];
    HeadRange(sys, H);
    if f.request.exhausted {
      PartIndexFinds(s.hashmap, f.height - 1, s.rmch, SearchEnd(s));
      assert s.hashmap[f.height - 1] == f.request.last;
    }
  }

  lemma {:induction false} SenderRequestFrame(s: Sender, request: Request)
    requires ValidSender(s)
    ensures var s' := SenderRequest(s, request).0;
            && s'.parts == s.parts && s'.hashmap == s.hashmap && |s'.sent| == |s.sent|
            && (!request.exhausted || s.status == Failed ==> s'.rmch == s.rmch)
            && (request.exhausted && s.status != Failed ==> s'.rmch == Max(RequestedIndex(s, request) - 1 - WINDOW_MAX, 0))
            && s'.rmch <= |s.parts|
  {
  }

  lemma {:induction false} ServedResponses(s: Sender, request: Request, served: nat, x: Response)
    requires ValidSender(s) && !SequencingError(s, request)
    requires request.exhausted ==> RequestedIndex(s, request) <= served && RequestedIndex(s, request) < |s.hashmap|
    requires x in SenderRequest(s, request).1
    ensures ResponseOk(x, s, served)
  {
    var s0 := s.(status := Transferring, retriesLeft := MAX_RETRIES);
    SendWantedExact(s0, request.wanted, s.rmch, SearchEnd(s));
    var out := SendWanted(s0, request.wanted, s.rmch, SearchEnd(s)).1;
    if x in out {
      var k :| s.rmch <= k < SearchEnd(s) && s.hashmap[k] in request.wanted && x == Part(s.parts[k]);
      assert s.parts[k] == x.chunk;
    }
  }

  lemma {:induction false} ServeKeeps(sys: System, H: Chunk -> MapHash)
    requires SystemInv(sys, H) && |sys.requests| > 0
    ensures SystemInv(ServeHead(sys), H)
  {
    var s, f := sys.sender, sys.requests[0];
    HeadCovered(sys, H);
    SenderRequestFrame(s, f.request);
    var sys' := ServeHead(sys);
    assert sys'.served == if f.request.exhausted && s.status != Failed then f.height else sys.served;
    forall i | 0 <= i < |sys'.requests|
      ensures Fresh(sys'.served, sys'.requests[i].height, sys'.requests[i].start)
    {
      assert sys'.requests[i] == sys.requests[i + 1];
    }
    forall x | x in sys'.responses ensures ResponseOk(x, sys'.sender, sys'.served) {
      if x in sys.responses {
        assert ResponseOk(x, s, sys.served);
      } else {
        ServedResponses(s, f.request, sys'.served, x);
      }
    }
  }

  lemma {:induction false} LoseKeeps(sys: System, H: Chunk -> MapHash, i: nat)
    requires SystemInv(sys, H) && i < |sys.requests|
    ensures SystemInv(sys.(requests := sys.requests[..i] + sys.requests[i + 1..]), H)
  {
    var rest := sys.requests[..i] + sys.requests[i + 1..];
    forall j | 0 <= j < |rest| ensures rest[j] == sys.requests[if j < i then j else j + 1] { }
  }

  lemma {:induction false} RepeatKeeps(sys: System, H: Chunk -> MapHash, i: nat)
    requires SystemInv(sys, H) && i < |sys.requests|
    ensures SystemInv(sys.(requests := sys.requests[..i + 1] + sys.requests[i..]), H)
  {
    RepeatKeepsQueue(sys, i);
  }

  lemma {:induction false} RepeatKeepsQueue(sys: System, i: nat)
    requires ValidSender(sys.sender) && ValidReceiver(sys.receiver) && QueueOk(sys) && i < |sys.requests|
    ensures QueueOk(sys.(requests := sys.requests[..i + 1] + sys.requests[i..]))
  {
    var more := Repeated(sys.requests, i);
    forall j | 0 <= j < |more|
      ensures FlightOk(more[j], sys.sender.hashmap) && Fresh(sys.served, more[j].height, more[j].start)
      ensures more[j].height <= sys.receiver.height && more[j].start <= sys.receiver.cch + 1
    {
      assert more[j] == sys.requests[if j <= i then j else j - 1];
    }
  }

  /** The queue with the request at i twice. */
  function Repeated(queue: seq<Flight>, i: nat): (r: seq<Flight>)
    requires i < |queue|
    ensures |r| == |queue| + 1 && forall j :: 0 <= j < |r| ==> r[j] == queue[if j <= i then j else j - 1]
  {
    queue[..i + 1] + queue[i..]
  }

  // ---------------------------------------------------------------- receiver

  /** A request that the receiver emits is well formed. */
  lemma {:induction false} RequestFlies(r: Receiver, hm: seq<MapHash>, H: Chunk -> MapHash)
    requires ReceiverInv(r, hm, H) && Distinct(hm) && WholeSegments(r.height, |hm|)
    requires RequestNext(r).1.Some?
    ensures FlightOk(Flight(RequestNext(r).1.value, r.height, r.cch + 1), hm)
  {
    RequestNextMeaning(r, hm, H);
    var q := ExpectedRequest(r, hm);
    var hi := Min(Min(r.cch + 1 + r.window, |r.parts|), r.height);
    forall x | x in q.wanted
      ensures exists j :: r.cch + 1 <= j < r.height && j < r.cch + 1 + WINDOW_MAX && hm[j] == x
    {
      var j := MissingHashesMember(r.parts, hm, r.cch + 1, hi, x);
    }
  }

  /** The receiver moved forward, and any request it emitted is well formed. */
  ghost predicate Forward(r: Receiver, r': Receiver, request: Option<Request>, hm: seq<MapHash>, H: Chunk -> MapHash) {
    && ReceiverInv(r', hm, H)
    && WholeSegments(r'.height, |hm|)
    && r.height <= r'.height && r.cch <= r'.cch
    && (request.Some? ==> FlightOk(Flight(request.value, r'.height, r'.cch + 1), hm))
  }

  lemma {:induction false} UpdateKeeps(sys: System, r: Receiver, request: Option<Request>, H: Chunk -> MapHash)
    requires SystemInv(sys, H)
    requires Forward(sys.receiver, r, request, sys.sender.hashmap, H)
    requires r.height <= sys.served + HASHMAP_MAX_LEN
    ensures SystemInv(Update(sys, r, request), H)
  {
    var sys' := Update(sys, r, request);
    forall i | 0 <= i < |sys'.requests|
      ensures sys'.requests[i] == if i < |sys.requests| then sys.requests[i] else Flight(request.value, r.height, r.cch + 1)
    {
    }
  }

  lemma {:induction false} RequestNextForward(r: Receiver, q: Receiver, hm: seq<MapHash>, H: Chunk -> MapHash)
    requires ReceiverInv(q, hm, H) && Distinct(hm) && WholeSegments(q.height, |hm|)
    requires r.height <= q.height && r.cch <= q.cch
    ensures Forward(r, RequestNext(q).0, RequestNext(q).1, hm, H)
  {
    RequestNextKeeps(q, hm, H);
    if RequestNext(q).1.Some? {
      RequestFlies(q, hm, H);
    }
  }

  lemma {:induction false} AfterFilingForward(r: Receiver, q: Receiver, hm: seq<MapHash>, H: Chunk -> MapHash, sample: RateSample)
    requires ReceiverInv(q, hm, H) && Distinct(hm) && WholeSegments(q.height, |hm|)
    requires r.height <= q.height && r.cch <= q.cch
    ensures var res := AfterFiling(q, sample); Forward(r, res.receiver, res.request, hm, H)
  {
    if q.receivedCount != |q.parts| && q.outstanding == 0 {
      WindowStaysInBand(q, sample);
      OtherFieldsFree(q, NextRound(q, sample), hm, H);
      RequestNextForward(r, NextRound(q, sample), hm, H);
    }
  }

  lemma {:induction false} ReceivePartForward(r: Receiver, hm: seq<MapHash>, H: Chunk -> MapHash, chunk: Chunk, sample: RateSample)
    requires ReceiverInv(r, hm, H) && Distinct(hm) && WholeSegments(r.height, |hm|) && H(chunk) != UNKNOWN
    ensures var res := ReceivePart(r, H(chunk), chunk, sample); Forward(r, res.receiver, res.request, hm, H)
  {
    if r.status == Failed {
      ReceivePartKeeps(r, hm, H, chunk, sample);
    } else {
      var q := Searching(r, sample);
      OtherFieldsFree(r, q, hm, H);
      FilePartKeeps(q, hm, H, chunk);
      AfterFilingForward(r, FilePart(q, H(chunk), chunk), hm, H, sample);
    }
  }

  lemma {:induction false} HashmapForward(r: Receiver, hm: seq<MapHash>, H: Chunk -> MapHash, segment: nat)
    requires ReceiverInv(r, hm, H) && Distinct(hm) && WholeSegments(r.height, |hm|)
    requires |hm| <= 65536 * HASHMAP_MAX_LEN
    requires segment * HASHMAP_MAX_LEN <= r.height && segment * HASHMAP_MAX_LEN < |hm|
    ensures var res := HashmapUpdatePacket(r, segment, HashmapSegment(hm, segment));
            Forward(r, res.0, res.1, hm, H)
            && res.0.height <= Max(r.height, (segment + 1) * HASHMAP_MAX_LEN)
  {
    if r.status != Failed {
      assert segment % 65536 == segment;
      var q := r.(retriesLeft := MAX_RETRIES);
      OtherFieldsFree(r, q, hm, H);
      HashmapUpdateKeeps(q, hm, H, segment);
      var w := WithHashes(q, segment, HashmapSegment(hm, segment));
      assert WholeSegments(w.height, |hm|);
      RequestNextForward(r, w, hm, H);
    }
  }

  lemma {:induction false} DeliverPartKeeps(sys: System, chunk: Chunk, sample: RateSample, H: Chunk -> MapHash)
    requires SystemInv(sys, H) && H(chunk) != UNKNOWN
    ensures SystemInv(DeliverPart(sys, chunk, sample, H), H)
  {
    var hm := sys.sender.hashmap;
    ReceivePartForward(sys.receiver, hm, H, chunk, sample);
    ReceivePartKeeps(sys.receiver, hm, H, chunk, sample);
    var res := ReceivePart(sys.receiver, H(chunk), chunk, sample);
    OtherFieldsFree(res.receiver, res.receiver.(status := Complete), hm, H);
    UpdateKeeps(sys, if res.assemble then res.receiver.(status := Complete) else res.receiver, res.request, H);
  }

  lemma {:induction false} DeliverHmuKeeps(sys: System, segment: nat, H: Chunk -> MapHash)
    requires SystemInv(sys, H)
    requires segment * HASHMAP_MAX_LEN <= sys.served && segment * HASHMAP_MAX_LEN < |sys.sender.hashmap|
    ensures SystemInv(DeliverHmu(sys, segment, HashmapSegment(sys.sender.hashmap, segment)), H)
  {
    var hm := sys.sender.hashmap;
    HashmapForward(sys.receiver, hm, H, segment);
    var res := HashmapUpdatePacket(sys.receiver, segment, HashmapSegment(hm, segment));
    UpdateKeeps(sys, res.0, res.1, H);
  }

  lemma {:induction false} DeliverKeeps(sys: System, e: Event, H: Chunk -> MapHash)
    requires SystemInv(sys, H) && e.Deliver? && e.response in sys.responses && Listening(sys.receiver)
    ensures SystemInv(Step(sys, e, H), H)
  {
    assert ResponseOk(e.response, sys.sender, sys.served);
    DeliverIs(sys, e, H);
    match e.response
    case Part(chunk) => DeliverPartKeeps(sys, chunk, e.sample, H);
    case Hmu(segment, _) => DeliverHmuKeeps(sys, segment, H);
  }

  lemma {:induction false} DeliverIs(sys: System, e: Event, H: Chunk -> MapHash)
    requires ValidSender(sys.sender) && ValidReceiver(sys.receiver)
    requires e.Deliver? && e.response in sys.responses && Listening(sys.receiver)
    ensures Step(sys, e, H) == match e.response
                               case Part(chunk) => DeliverPart(sys, chunk, e.sample, H)
                               case Hmu(segment, hashes) => DeliverHmu(sys, segment, hashes)
  {
  }

  lemma {:induction false} TimeoutKeeps(sys: System, H: Chunk -> MapHash)
    requires SystemInv(sys, H)
    ensures SystemInv(Step(sys, ReceiverTimeout, H), H)
  {
    ExpiredForward(sys.receiver, sys.sender.hashmap, H);
    UpdateKeeps(sys, ReceiverExpired(sys.receiver).0, ReceiverExpired(sys.receiver).1, H);
  }

  lemma {:induction false} ExpiredForward(r: Receiver, hm: seq<MapHash>, H: Chunk -> MapHash)
    requires ReceiverInv(r, hm, H) && Distinct(hm) && WholeSegments(r.height, |hm|)
    ensures Forward(r, ReceiverExpired(r).0, ReceiverExpired(r).1, hm, H)
    ensures ReceiverExpired(r).0.height == r.height
  {
    var (next, request) := ReceiverExpired(r);
    assert ReceiverInv(next, hm, H) && next.height == r.height && next.cch == r.cch by {
      ExpiredKeeps(r, hm, H);
    }
    if request.Some? {
      ExpiredFlies(r, hm, H);
    }
  }

  lemma {:induction false} ExpiredFlies(r: Receiver, hm: seq<MapHash>, H: Chunk -> MapHash)
    requires ReceiverInv(r, hm, H) && Distinct(hm) && WholeSegments(r.height, |hm|) && ReceiverExpired(r).1.Some?
    ensures FlightOk(Flight(ReceiverExpired(r).1.value, r.height, r.cch + 1), hm)
  {
    NarrowedKeeps(r, hm, H);
    RequestFlies(Narrowed(r), hm, H);
  }

  /** The receiver that asks again after a timeout. */
  function Narrowed(r: Receiver): Receiver
    requires r.retriesLeft > 0
  {
    NarrowWindow(r).(retriesLeft := r.retriesLeft - 1, waitingForHmu := false)
  }

  lemma {:induction false} NarrowedKeeps(r: Receiver, hm: seq<MapHash>, H: Chunk -> MapHash)
    requires ReceiverInv(r, hm, H) && r.retriesLeft > 0
    ensures ReceiverInv(Narrowed(r), hm, H) && Narrowed(r).height == r.height && Narrowed(r).cch == r.cch
  {
    WindowStaysInBand(r, RateSample(false, false, false));
    OtherFieldsFree(r, Narrowed(r), hm, H);
  }

  lemma {:induction false} StepKeeps(sys: System, e: Event, H: Chunk -> MapHash)
    requires SystemInv(sys, H)
    ensures SystemInv(Step(sys, e, H), H)
  {
    match e
    case Serve => if |sys.requests| > 0 { ServeKeeps(sys, H); }
    case Lose(i) => if i < |sys.requests| { LoseKeeps(sys, H, i); }
    case Repeat(i) => if i < |sys.requests| { RepeatKeeps(sys, H, i); }
    case Deliver(response, _) => if response in sys.responses && Listening(sys.receiver) { DeliverKeeps(sys, e, H); }
    case ReceiverTimeout => TimeoutKeeps(sys, H);
    case SenderTimeout => SenderTimeoutKeeps(sys, H);
  }

  lemma {:induction false} SenderTimeoutKeeps(sys: System, H: Chunk -> MapHash)
    requires SystemInv(sys, H)
    ensures SystemInv(sys.(sender := SenderExpired(sys.sender)), H)
  {
  }

  lemma {:induction false} StartHolds(s: Sender, H: Chunk -> MapHash)
    requires Transferable(s, H) && s.rmch == 0
    ensures SystemInv(Start(s), H)
  {
    var hm, a := s.hashmap, Accepted(|s.parts|);
    AcceptedHolds(hm, H);
    HashmapUpdateKeeps(a, hm, H, 0);
    RequestNextForward(a, WithHashes(a, 0, HashmapSegment(hm, 0)), hm, H);
  }

  // --------------------------------------------------------- the sender's account

  function CountTrue(sent: seq<bool>): nat {
    if sent == [] then 0 else CountTrue(sent[..|sent| - 1]) + if sent[|sent| - 1] then 1 else 0
  }

  lemma {:induction false} MarkCounts(sent: seq<bool>, i: nat)
    requires i < |sent|
    ensures CountTrue(sent[i := true]) == CountTrue(sent) + if sent[i] then 0 else 1
    decreases |sent|
  {
    var n := |sent| - 1;
    if i < n {
      assert sent[i := true][..n] == sent[..n][i := true];
      MarkCounts(sent[..n], i);
    } else {
      assert sent[i := true][..n] == sent[..n];
    }
  }

  lemma {:induction false} AllCounted(sent: seq<bool>)
    ensures CountTrue(sent) <= |sent|
    ensures CountTrue(sent) == |sent| <==> forall k :: 0 <= k < |sent| ==> sent[k]
    decreases |sent|
  {
    if sent != [] {
      var n := |sent| - 1;
      AllCounted(sent[..n]);
      assert forall k :: 0 <= k < n ==> sent[..n][k] == sent[k];
    }
  }

  /** sent_parts counts the parts sent at least once. */
  predicate Counted(s: Sender) { s.sentParts == CountTrue(s.sent) }

  /** Answering marks as sent the wanted parts of the search range, in addition to those sent before. */
  lemma {:induction false} SendWantedCounts(s: Sender, wanted: seq<MapHash>, i: nat, end: nat)
    requires ValidSender(s) && Counted(s) && i <= end <= |s.parts|
    ensures var t := SendWanted(s, wanted, i, end).0;
            && Counted(t) && |t.sent| == |s.sent|
            && forall k :: 0 <= k < |s.sent| ==> (t.sent[k] <==> s.sent[k] || (i <= k < end && s.hashmap[k] in wanted))
    decreases end - i
  {
    if i < end {
      var s1 := s.(sent := s.sent[i := true], sentParts := if s.sent[i] then s.sentParts else s.sentParts + 1);
      MarkCounts(s.sent, i);
      SendWantedCounts(if s.hashmap[i] in wanted then s1 else s, wanted, i + 1, end);
    }
  }

  /**
   After answering, the sender awaits the proof, with three retries, if and only if it has
   sent every part at least once; otherwise it goes on transferring with all its retries.
   */
  lemma {:induction false} AwaitsProofExactlyWhen(s: Sender, request: Request)
    requires ValidSender(s) && Counted(s) && s.status != Failed && !SequencingError(s, request)
    ensures var t := SenderRequest(s, request).0;
            var all := forall k :: 0 <= k < |s.sent| ==>
                         s.sent[k] || (s.rmch <= k < SearchEnd(s) && s.hashmap[k] in request.wanted);
            && Counted(t)
            && (t.status == AwaitingProof <==> all) && (t.status == Transferring <==> !all)
            && t.retriesLeft == if all then 3 else MAX_RETRIES
  {
    var s0 := s.(status := Transferring, retriesLeft := MAX_RETRIES);
    SendWantedCounts(s0, request.wanted, s.rmch, SearchEnd(s));
    var t := SendWanted(s0, request.wanted, s.rmch, SearchEnd(s)).0;
    AllCounted(t.sent);
  }

  /**
   A request for hashmap cancels the transfer exactly if the last hash the receiver names does
   not end a segment, or is not in the search range and that does not end with one.
   */
  lemma {:induction false} SequencingErrorExactlyWhen(s: Sender, request: Request)
    requires ValidSender(s) && Distinct(s.hashmap) && s.status != Failed && request.exhausted
    ensures var (t, out) := SenderRequest(s, request);
            && (forall j :: s.rmch <= j < SearchEnd(s) && s.hashmap[j] == request.last ==>
                  (t.status == Failed <==> (j + 1) % HASHMAP_MAX_LEN != 0))
            && (request.last !in s.hashmap[s.rmch..SearchEnd(s)] ==> (t.status == Failed <==> SearchEnd(s) % HASHMAP_MAX_LEN != 0))
            && (t.status == Failed ==> forall x :: x in out ==> x.Part?)
  {
    forall j | s.rmch <= j < SearchEnd(s) && s.hashmap[j] == request.last ensures RequestedIndex(s, request) == j + 1 {
      PartIndexFinds(s.hashmap, j, s.rmch, SearchEnd(s));
    }
    if request.last !in s.hashmap[s.rmch..SearchEnd(s)] {
      PartIndexMisses(s.hashmap, request.last, s.rmch, SearchEnd(s));
    }
    var s0 := s.(status := Transferring, retriesLeft := MAX_RETRIES);
    OnlyParts(s0, request.wanted, s.rmch, SearchEnd(s));
  }

  lemma {:induction false} PartIndexMisses(hm: seq<MapHash>, last: MapHash, i: nat, end: nat)
    requires i <= end <= |hm| && last !in hm[i..end]
    ensures PartIndex(hm, last, i, end) == end
    decreases end - i
  {
    if i < end {
      assert hm[i] == hm[i..end][0] && hm[i + 1..end] == hm[i..end][1..];
      PartIndexMisses(hm, last, i + 1, end);
    }
  }

  lemma {:induction false} OnlyParts(s: Sender, wanted: seq<MapHash>, i: nat, end: nat)
    requires ValidSender(s) && i <= end <= |s.parts|
    ensures forall x :: x in SendWanted(s, wanted, i, end).1 ==> x.Part?
    decreases end - i
  {
    if i < end {
      var s1 := s.(sent := s.sent[i := true], sentParts := if s.sent[i] then s.sentParts else s.sentParts + 1);
      OnlyParts(if s.hashmap[i] in wanted then s1 else s, wanted, i + 1, end);
    }
  }

  /** The segment number of a hashmap update has sixteen bits. */
  lemma {:induction false} SegmentNumberWraps(r: Receiver, segment: nat, hashes: seq<MapHash>)
    requires ValidReceiver(r)
    ensures HashmapUpdatePacket(r, segment + 0x1_0000, hashes) == HashmapUpdatePacket(r, segment, hashes)
  {
    assert (segment + 65536) % 65536 == segment % 65536;
  }

  // ------------------------------------------------------------------- runs

  ghost function Run(s: Sender, events: seq<Event>, H: Chunk -> MapHash): (sys: System)
    requires Transferable(s, H) && s.rmch == 0
    ensures SystemInv(sys, H)
  {
    if events == [] then
      StartHolds(s, H);
      Start(s)
    else
      var sys := Run(s, events[..|events| - 1], H);
      StepKeeps(sys, events[|events| - 1], H);
      Step(sys, events[|events| - 1], H)
  }

  /** The answer to the request at the head. */
  ghost predicate AnsweredInFull(sys: System)
    requires ValidSender(sys.sender) && sys.requests != []
  {
    var s, f, out := sys.sender, sys.requests[0], SenderRequest(sys.sender, sys.requests[0].request).1;
    && (forall k :: 0 <= k < |s.parts| && s.hashmap[k] in f.request.wanted ==> Part(s.parts[k]) in out)
    && (f.request.exhausted ==>
          f.height % HASHMAP_MAX_LEN == 0 && f.height < |s.hashmap|
          && Hmu(f.height / HASHMAP_MAX_LEN, HashmapSegment(s.hashmap, f.height / HASHMAP_MAX_LEN)) in out)
  }

  lemma {:induction false} HeadIsAnswered(sys: System, H: Chunk -> MapHash)
    requires SystemInv(sys, H) && sys.requests != [] && sys.sender.status != Failed
    ensures AnsweredInFull(sys)
  {
    HeadCovered(sys, H);
    var t, f := sys.sender, sys.requests[0];
    var t0 := t.(status := Transferring, retriesLeft := MAX_RETRIES);
    SendWantedExact(t0, f.request.wanted, t.rmch, SearchEnd(t));
    var sent := SendWanted(t0, f.request.wanted, t.rmch, SearchEnd(t)).1;
    forall k | 0 <= k < |t.parts| && t.hashmap[k] in f.request.wanted
      ensures Part(t.parts[k]) in SenderRequest(t, f.request).1
    {
      var j :| t.rmch <= j < SearchEnd(t) && t.hashmap[j] == t.hashmap[k];
      assert j == k;
      assert Part(t.parts[k]) in sent;
    }
  }

  /**
   Over every run: the request about to be served is covered by the search range, the
   sender answers with exactly the wanted parts and, when hashmap was asked for, with
   the segment that starts where the receiver's knowledge ended when it asked.
   */
  lemma {:induction false} GuardRangeCoversReceiver(s: Sender, events: seq<Event>, H: Chunk -> MapHash)
    requires Transferable(s, H) && s.rmch == 0
    ensures var sys := Run(s, events, H);
            && KnowsPrefix(sys.receiver, s.hashmap) && sys.sender.parts == s.parts && sys.sender.hashmap == s.hashmap
            && (sys.requests != [] ==> Covered(sys.sender, sys.requests[0].request))
            && (sys.requests != [] && sys.sender.status != Failed ==> AnsweredInFull(sys))
  {
    var sys := Run(s, events, H);
    RunKeepsResource(s, events, H);
    if sys.requests != [] {
      HeadCovered(sys, H);
      if sys.sender.status != Failed {
        HeadIsAnswered(sys, H);
      }
    }
  }

  lemma {:induction false} StepKeepsResource(sys: System, e: Event, H: Chunk -> MapHash)
    requires ValidSender(sys.sender) && ValidReceiver(sys.receiver)
    ensures Step(sys, e, H).sender.parts == sys.sender.parts
    ensures Step(sys, e, H).sender.hashmap == sys.sender.hashmap
  {
    if e.Serve? && |sys.requests| > 0 {
      SenderRequestFrame(sys.sender, sys.requests[0].request);
    }
  }

  /** The parts and the hashmap of the resource never change. */
  lemma {:induction false} RunKeepsResource(s: Sender, events: seq<Event>, H: Chunk -> MapHash)
    requires Transferable(s, H) && s.rmch == 0
    ensures Run(s, events, H).sender.parts == s.parts && Run(s, events, H).sender.hashmap == s.hashmap
  {
    if events != [] {
      RunKeepsResource(s, events[..|events| - 1], H);
      StepKeepsResource(Run(s, events[..|events| - 1], H), events[|events| - 1], H);
    }
  }

  lemma {:induction false} StepStatus(sys: System, e: Event, H: Chunk -> MapHash)
    requires SystemInv(sys, H) && sys.sender.status != Failed && e != SenderTimeout
    ensures Step(sys, e, H).sender.status != Failed
  {
    if e.Serve? && |sys.requests| > 0 {
      HeadCovered(sys, H);
    }
  }

  /**
   The sender gives up only when its watchdog does: over every run in which that watchdog
   never fires, the sender is never Failed.
   */
  lemma {:induction false} SenderNeverGivesUp(s: Sender, events: seq<Event>, H: Chunk -> MapHash)
    requires Transferable(s, H) && s.rmch == 0 && s.status != Failed
    requires SenderTimeout !in events
    ensures Run(s, events, H).sender.status != Failed
  {
    if events != [] {
      SenderNeverGivesUp(s, events[..|events| - 1], H);
      assert events[|events| - 1] in events;
      StepStatus(Run(s, events[..|events| - 1], H), events[|events| - 1], H);
    }
  }

  // -------------------------------------------------------------- integrity

  /** Every filled slot holds a part of the sender, and only a full receiver is Complete. */
  ghost predicate Integrity(sys: System)
    requires ValidReceiver(sys.receiver)
  {
    var r, s := sys.receiver, sys.sender;
    && (forall j :: 0 <= j < |r.parts| && r.parts[j].Some? ==> exists k :: 0 <= k < |s.parts| && s.parts[k] == r.parts[j].value)
    && (r.status == Complete ==> MissingSlots(r.parts) == {})
  }

  lemma {:induction false} FileFromSlots(r: Receiver, hash: MapHash, chunk: Chunk, j: nat, end: nat)
    requires ValidReceiver(r) && j <= end <= |r.parts|
    ensures var f := FileFrom(r, hash, chunk, j, end);
            forall i :: 0 <= i < |r.parts| ==> f.parts[i] == r.parts[i] || f.parts[i] == Some(chunk)
    decreases end - j
  {
    if j < end {
      if r.hashmap[j] == hash && r.parts[j].None? {
        AdvanceStays(FileAt(r, chunk, j).parts, if j == r.cch + 1 then j else r.cch);
        FileFromSlots(FileAt(r, chunk, j), hash, chunk, j + 1, end);
      } else {
        FileFromSlots(r, hash, chunk, j + 1, end);
      }
    }
  }

  /** Only receive_part writes the slots. */
  lemma {:induction false} RequestNextSlots(r: Receiver)
    requires ValidReceiver(r)
    ensures RequestNext(r).0.parts == r.parts && RequestNext(r).0.status == r.status
  {
  }

  lemma {:induction false} AfterFilingSlots(r: Receiver, sample: RateSample)
    requires ValidReceiver(r)
    ensures AfterFiling(r, sample).receiver.parts == r.parts && AfterFiling(r, sample).receiver.status == r.status
  {
    RequestNextSlots(NextRound(r, sample));
  }

  lemma {:induction false} ReceivePartSlots(r: Receiver, hash: MapHash, chunk: Chunk, sample: RateSample)
    requires ValidReceiver(r)
    ensures var r' := ReceivePart(r, hash, chunk, sample).receiver;
            && |r'.parts| == |r.parts|
            && (forall i :: 0 <= i < |r.parts| ==> r'.parts[i] == r.parts[i] || r'.parts[i] == Some(chunk))
            && (r'.status == Failed || r'.status == Transferring)
  {
    if r.status != Failed {
      var q := Searching(r, sample);
      var start := Min(SearchStart(q), |q.parts|);
      FileFromSlots(q, hash, chunk, start, Min(start + q.window, |q.parts|));
      AfterFilingSlots(FilePart(q, hash, chunk), sample);
    }
  }

  lemma {:induction false} DeliverPartIntegrity(sys: System, k: nat, sample: RateSample, H: Chunk -> MapHash)
    requires SystemInv(sys, H) && Integrity(sys) && k < |sys.sender.parts|
    ensures Integrity(DeliverPart(sys, sys.sender.parts[k], sample, H))
  {
    var r, chunk := sys.receiver, sys.sender.parts[k];
    ReceivePartSlots(r, H(chunk), chunk, sample);
    ReceivePartKeeps(r, sys.sender.hashmap, H, chunk, sample);
    var sys' := DeliverPart(sys, chunk, sample, H);
    forall j | 0 <= j < |sys'.receiver.parts| && sys'.receiver.parts[j].Some?
      ensures exists k :: 0 <= k < |sys.sender.parts| && sys.sender.parts[k] == sys'.receiver.parts[j].value
    {
      if sys'.receiver.parts[j] != r.parts[j] {
        assert sys.sender.parts[k] == sys'.receiver.parts[j].value;
      }
    }
  }

  /** Every other event leaves the slots alone and does not complete the receiver. */
  lemma {:induction false} OtherEventsSlots(sys: System, e: Event, H: Chunk -> MapHash)
    requires ValidSender(sys.sender) && ValidReceiver(sys.receiver)
    requires e.Deliver? && e.response.Part? ==> e.response !in sys.responses || !Listening(sys.receiver)
    ensures Step(sys, e, H).receiver.parts == sys.receiver.parts
    ensures Step(sys, e, H).receiver.status == Complete ==> sys.receiver.status == Complete
  {
    match e
    case Deliver(Hmu(segment, hashes), _) =>
      RequestNextSlots(WithHashes(sys.receiver.(retriesLeft := MAX_RETRIES), segment % 65536, hashes));
    case ReceiverTimeout =>
      var r := sys.receiver;
      if r.retriesLeft > 0 {
        RequestNextSlots(NarrowWindow(r).(retriesLeft := r.retriesLeft - 1, waitingForHmu := false));
      }
    case _ =>
  }

  lemma {:induction false} StepIntegrity(sys: System, e: Event, H: Chunk -> MapHash)
    requires SystemInv(sys, H) && Integrity(sys)
    ensures ValidReceiver(Step(sys, e, H).receiver) && Integrity(Step(sys, e, H))
  {
    if e.Deliver? && e.response in sys.responses && Listening(sys.receiver) && e.response.Part? {
      assert ResponseOk(e.response, sys.sender, sys.served);
      var k :| 0 <= k < |sys.sender.parts| && sys.sender.parts[k] == e.response.chunk;
      DeliverPartIntegrity(sys, k, e.sample, H);
    } else {
      OtherEventsSlots(sys, e, H);
      StepKeepsResource(sys, e, H);
      StepKeeps(sys, e, H);
    }
  }

  lemma {:induction false} RunIntegrity(s: Sender, events: seq<Event>, H: Chunk -> MapHash)
    requires Transferable(s, H) && s.rmch == 0
    ensures Integrity(Run(s, events, H))
  {
    if events == [] {
      StartIsEmpty(s);
    } else {
      RunIntegrity(s, events[..|events| - 1], H);
      StepIntegrity(Run(s, events[..|events| - 1], H), events[|events| - 1], H);
    }
  }

  lemma {:induction false} StartIsEmpty(s: Sender)
    requires ValidSender(s) && |s.parts| > 0
    ensures forall j :: 0 <= j < |Start(s).receiver.parts| ==> Start(s).receiver.parts[j].None?
    ensures Start(s).receiver.status == Transferring
  {
    RequestNextSlots(WithHashes(Accepted(|s.parts|), 0, HashmapSegment(s.hashmap, 0)));
  }

  lemma {:induction false} FullSlotHoldsItsPart(sys: System, H: Chunk -> MapHash, j: nat) returns (k: nat)
    requires SystemInv(sys, H) && Integrity(sys) && sys.receiver.status == Complete && j < |sys.sender.parts|
    ensures k < |sys.sender.parts| && H(sys.sender.parts[k]) == sys.sender.hashmap[j]
    ensures sys.receiver.parts[j] == Some(sys.sender.parts[k])
  {
    assert j !in MissingSlots(sys.receiver.parts);
    k :| 0 <= k < |sys.sender.parts| && sys.sender.parts[k] == sys.receiver.parts[j].value;
  }

  lemma {:induction false} FullSlotIsExact(sys: System, H: Chunk -> MapHash, j: nat)
    requires SystemInv(sys, H) && Integrity(sys) && sys.receiver.status == Complete && j < |sys.sender.parts|
    requires forall k :: 0 <= k < |sys.sender.parts| ==> H(sys.sender.parts[k]) == sys.sender.hashmap[k]
    ensures sys.receiver.parts[j] == Some(sys.sender.parts[j])
  {
    var k := FullSlotHoldsItsPart(sys, H, j);
    assert sys.sender.hashmap[k] == sys.sender.hashmap[j];
  }

  /** A completed receiver holds the sender's parts, each in its own slot, when every part still has its map hash. */
  lemma {:induction false} CompletionIsExact(s: Sender, events: seq<Event>, H: Chunk -> MapHash, j: nat)
    requires Transferable(s, H) && s.rmch == 0
    requires j < |s.parts| && forall k :: 0 <= k < |s.parts| ==> H(s.parts[k]) == s.hashmap[k]
    ensures |Run(s, events, H).receiver.parts| == |s.parts|
    ensures Run(s, events, H).receiver.status == Complete ==> Run(s, events, H).receiver.parts[j] == Some(s.parts[j])
  {
    RunIntegrity(s, events, H);
    RunKeepsResource(s, events, H);
    if Run(s, events, H).receiver.status == Complete {
      FullSlotIsExact(Run(s, events, H), H, j);
    }
  }

  /**
   A part that was cut when its packet was built no longer has the map hash that was
   advertised for it, and then no schedule whatsoever completes the transfer.
   */
  lemma {:induction false} CutPartNeverCompletes(s: Sender, events: seq<Event>, H: Chunk -> MapHash, j: nat)
    requires Transferable(s, H) && s.rmch == 0
    requires j < |s.parts| && forall k :: 0 <= k < |s.parts| ==> H(s.parts[k]) != s.hashmap[j]
    ensures Run(s, events, H).receiver.status != Complete
  {
    RunIntegrity(s, events, H);
    RunKeepsResource(s, events, H);
    if Run(s, events, H).receiver.status == Complete {
      var k := FullSlotHoldsItsPart(Run(s, events, H), H, j);
    }
  }
}
