/**
 State and step functions of a resource transfer: one sender (the initiator of the
 resource) and one receiver, as src/microReticulum/Resource.cpp defines them. Every
 function here is the specification of one method of the classes in ResourceObjects.

 A map hash is the number its four bytes spell; the all-zero block, which the receiver
 reads as "entry not yet known", is the number 0. The clock only matters through the
 outcome of comparisons, which arrive as the fields of a RateSample.
 */
module ResourceModel {
  import opened Basics

  type Chunk = seq<Byte>
  type MapHash = nat

  const UNKNOWN: MapHash := 0

  const WINDOW: nat := 4
  const WINDOW_MIN: nat := 2
  const WINDOW_MAX_SLOW: nat := 10
  const WINDOW_MAX_VERY_SLOW: nat := 4
  const WINDOW_MAX_FAST: nat := 75
  const WINDOW_MAX: nat := WINDOW_MAX_FAST
  const WINDOW_FLEXIBILITY: nat := 4
  const FAST_RATE_THRESHOLD: nat := 4
  const VERY_SLOW_RATE_THRESHOLD: nat := 2
  const MAX_RETRIES: nat := 8
  const MAX_ADV_RETRIES: nat := 4
  const HASHMAP_MAX_LEN: nat := 74
  const COLLISION_GUARD_SIZE: nat := 2 * WINDOW_MAX + HASHMAP_MAX_LEN
  const PACKET_MDU: nat := 464
  const RANDOM_HASH_SIZE: nat := 4

  datatype Status =
    | Unset | Queued | Advertised | Transferring | AwaitingProof | Assembling | Complete | Failed | Corrupt

  /** RESOURCE_REQ: the exhausted flag, the last map hash known (only if exhausted), the wanted map hashes. */
  datatype Request = Request(exhausted: bool, last: MapHash, wanted: seq<MapHash>)

  /** What the sender emits on a request: RESOURCE parts and RESOURCE_HMU hashmap segments. */
  datatype Response = Part(chunk: Chunk) | Hmu(segment: nat, hashes: seq<MapHash>)

  /** Outcomes of the rate comparisons that receive_part makes against the clock. */
  datatype RateSample = RateSample(responseFast: bool, roundFast: bool, roundVerySlow: bool)

  datatype Receiver = Receiver(
    status: Status,
    parts: seq<Option<Chunk>>,
    hashmap: seq<MapHash>,
    height: nat,
    receivedCount: nat,
    outstanding: nat,
    cch: int,
    window: nat,
    windowMax: nat,
    windowMin: nat,
    fastRounds: nat,
    slowRounds: nat,
    waitingForHmu: bool,
    retriesLeft: nat)

  datatype Sender = Sender(
    status: Status,
    parts: seq<Chunk>,
    hashmap: seq<MapHash>,
    sent: seq<bool>,
    sentParts: nat,
    rmch: nat,
    retriesLeft: nat)

  function Max(a: int, b: int): int { if a < b then b else a }

  predicate ValidReceiver(r: Receiver) {
    && |r.parts| == |r.hashmap|
    && -1 <= r.cch < |r.parts|
  }

  predicate ValidSender(s: Sender) {
    && |s.parts| == |s.hashmap| == |s.sent|
    && s.rmch <= |s.parts|
  }

  // ---------------------------------------------------------------- receiver

  /** The run of filled slots that starts right after slot c ends at the result. */
  function Advance(parts: seq<Option<Chunk>>, c: int): int
    requires -1 <= c < |parts|
    decreases |parts| - c
  {
    if c + 1 < |parts| && parts[c + 1].Some? then Advance(parts, c + 1) else c
  }

  /** File one part into the empty slot i. */
  function FileAt(r: Receiver, chunk: Chunk, i: nat): Receiver
    requires ValidReceiver(r) && i < |r.parts|
  {
    var parts := r.parts[i := Some(chunk)];
    r.(parts := parts,
       receivedCount := r.receivedCount + 1,
       outstanding := if r.outstanding > 0 then r.outstanding - 1 else 0,
       cch := Advance(parts, if i == r.cch + 1 then i else r.cch))
  }

  /** The search of receive_part over the slots [j, end). */
  function FileFrom(r: Receiver, hash: MapHash, chunk: Chunk, j: nat, end: nat): (r': Receiver)
    requires ValidReceiver(r) && j <= end <= |r.parts|
    ensures ValidReceiver(r') && |r'.parts| == |r.parts|
    ensures r' == r.(parts := r'.parts, receivedCount := r'.receivedCount, outstanding := r'.outstanding, cch := r'.cch)
    decreases end - j
  {
    if j == end then r
    else if r.hashmap[j] == hash && r.parts[j].None? then
      var filed := FileAt(r, chunk, j);
      AdvanceStays(filed.parts, if j == r.cch + 1 then j else r.cch);
      FileFrom(filed, hash, chunk, j + 1, end)
    else FileFrom(r, hash, chunk, j + 1, end)
  }

  lemma {:induction false} AdvanceStays(parts: seq<Option<Chunk>>, c: int)
    requires -1 <= c < |parts|
    ensures c <= Advance(parts, c) < |parts|
    ensures forall k :: c < k <= Advance(parts, c) ==> parts[k].Some?
    ensures Advance(parts, c) + 1 < |parts| ==> parts[Advance(parts, c) + 1].None?
    decreases |parts| - c
  {
    if c + 1 < |parts| && parts[c + 1].Some? {
      AdvanceStays(parts, c + 1);
    }
  }

  /** The map hashes of the empty slots in [idx, end), up to the first empty slot whose hash is unknown. */
  function Scan(r: Receiver, idx: nat, end: nat): (seq<MapHash>, bool)
    requires ValidReceiver(r) && idx <= end <= |r.parts|
    decreases end - idx
  {
    if idx == end then ([], false)
    else if r.parts[idx].Some? then Scan(r, idx + 1, end)
    else if r.hashmap[idx] == UNKNOWN then ([], true)
    else
      var (wanted, exhausted) := Scan(r, idx + 1, end);
      ([r.hashmap[idx]] + wanted, exhausted)
  }

  function RequestNext(r: Receiver): (res: (Receiver, Option<Request>))
    requires ValidReceiver(r)
    ensures ValidReceiver(res.0)
  {
    if r.status == Failed || r.waitingForHmu then (r, None)
    else
      var (wanted, exhausted) := Scan(r, r.cch + 1, Min(r.cch + 1 + r.window, |r.parts|));
      var last := if exhausted && 0 < r.height <= |r.hashmap| then r.hashmap[r.height - 1] else UNKNOWN;
      (r.(outstanding := |wanted|, waitingForHmu := exhausted), Some(Request(exhausted, last, wanted)))
  }

  /** Copy hashes[i..] into the slots from base + i on, counting those that were unknown. */
  function ApplyHashes(hashmap: seq<MapHash>, height: nat, base: nat, hashes: seq<MapHash>, i: nat)
    : (res: (seq<MapHash>, nat))
    requires i <= |hashes|
    ensures |res.0| == |hashmap|
    decreases |hashes| - i
  {
    if i == |hashes| || base + i >= |hashmap| then (hashmap, height)
    else
      var height' := if hashmap[base + i] == UNKNOWN then height + 1 else height;
      ApplyHashes(hashmap[base + i := hashes[i]], height', base, hashes, i + 1)
  }

  function WithHashes(r: Receiver, segment: nat, hashes: seq<MapHash>): Receiver {
    var (hashmap, height) := ApplyHashes(r.hashmap, r.height, segment * HASHMAP_MAX_LEN, hashes, 0);
    r.(status := Transferring, hashmap := hashmap, height := height, waitingForHmu := false)
  }

  /** hashmap_update, called on acceptance with segment 0 and on every hashmap packet. */
  function HashmapUpdate(r: Receiver, segment: nat, hashes: seq<MapHash>): (res: (Receiver, Option<Request>))
    requires ValidReceiver(r)
    ensures ValidReceiver(res.0)
  {
    if r.status == Failed then (r, None) else RequestNext(WithHashes(r, segment, hashes))
  }

  /** hashmap_update_packet: the segment number travels as 32 bits and is cut to 16. */
  function HashmapUpdatePacket(r: Receiver, segment: nat, hashes: seq<MapHash>): (res: (Receiver, Option<Request>))
    requires ValidReceiver(r)
    ensures ValidReceiver(res.0)
  {
    if r.status == Failed then (r, None)
    else HashmapUpdate(r.(retriesLeft := MAX_RETRIES), segment % 65536, hashes)
  }

  /** A fast round counts towards the fast window limit. */
  function CountFast(r: Receiver, fast: bool): Receiver {
    if fast && r.fastRounds < FAST_RATE_THRESHOLD then
      r.(fastRounds := r.fastRounds + 1,
         windowMax := if r.fastRounds + 1 == FAST_RATE_THRESHOLD then WINDOW_MAX_FAST else r.windowMax)
    else r
  }

  function CountVerySlow(r: Receiver, slow: bool): Receiver {
    if r.fastRounds == 0 && slow && r.slowRounds < VERY_SLOW_RATE_THRESHOLD then
      r.(slowRounds := r.slowRounds + 1,
         windowMax := if r.slowRounds + 1 == VERY_SLOW_RATE_THRESHOLD then WINDOW_MAX_VERY_SLOW else r.windowMax)
    else r
  }

  function WidenWindow(r: Receiver): Receiver {
    if r.window < r.windowMax then
      r.(window := r.window + 1,
         windowMin := if r.window + 1 - r.windowMin > WINDOW_FLEXIBILITY - 1 then r.windowMin + 1 else r.windowMin)
    else r
  }

  /** The slots that receive_part searches start at the last consecutive one, or at slot 0. */
  function SearchStart(r: Receiver): nat { if r.cch >= 0 then r.cch else 0 }

  function FilePart(r: Receiver, hash: MapHash, chunk: Chunk): Receiver
    requires ValidReceiver(r)
  {
    var start := Min(SearchStart(r), |r.parts|);
    FileFrom(r, hash, chunk, start, Min(start + r.window, |r.parts|))
  }

  /** What receive_part does once a part is filed: finish, start the next round, or wait for more. */
  datatype Received = Received(receiver: Receiver, request: Option<Request>, assemble: bool)

  function Searching(r: Receiver, sample: RateSample): Receiver {
    CountFast(r.(retriesLeft := MAX_RETRIES), sample.responseFast).(status := Transferring)
  }

  function NextRound(r: Receiver, sample: RateSample): Receiver {
    CountVerySlow(CountFast(WidenWindow(r), sample.roundFast), sample.roundVerySlow)
  }

  function AfterFiling(r: Receiver, sample: RateSample): (res: Received)
    requires ValidReceiver(r)
    ensures ValidReceiver(res.receiver)
  {
    if r.receivedCount == |r.parts| then Received(r, None, true)
    else if r.outstanding == 0 then
      var (next, request) := RequestNext(NextRound(r, sample));
      Received(next, request, false)
    else Received(r, None, false)
  }

  function ReceivePart(r: Receiver, hash: MapHash, chunk: Chunk, sample: RateSample): (res: Received)
    requires ValidReceiver(r)
    ensures ValidReceiver(res.receiver)
  {
    if r.status == Failed
    then Received(CountFast(r.(retriesLeft := MAX_RETRIES), sample.responseFast), None, false)
    else AfterFiling(FilePart(Searching(r, sample), hash, chunk), sample)
  }

  function NarrowWindow(r: Receiver): Receiver {
    if r.window > r.windowMin then
      var r1 := r.(window := r.window - 1);
      if r1.windowMax > r1.windowMin then
        var r2 := r1.(windowMax := r1.windowMax - 1);
        if r2.windowMax - r2.window > WINDOW_FLEXIBILITY - 1 then r2.(windowMax := r2.windowMax - 1) else r2
      else r1
    else r
  }

  /** The receiver's watchdog tick once its timeout has run out. */
  function ReceiverExpired(r: Receiver): (res: (Receiver, Option<Request>))
    requires ValidReceiver(r)
    ensures ValidReceiver(res.0)
  {
    if r.status != Transferring then (r, None)
    else if r.retriesLeft == 0 then (r.(status := Failed), None)
    else RequestNext(NarrowWindow(r).(retriesLeft := r.retriesLeft - 1, waitingForHmu := false))
  }

  /** The receiver's fields as accept leaves them, before its call of hashmap_update. */
  function Accepted(total: nat): Receiver {
    Receiver(Transferring, seq(total, _ => None), seq(total, _ => UNKNOWN), 0, 0, 0, -1,
             WINDOW, WINDOW_MAX_SLOW, WINDOW_MIN, 0, 0, false, MAX_RETRIES)
  }

  // ------------------------------------------------------------------ sender

  function SearchEnd(s: Sender): nat
    requires ValidSender(s)
  {
    Min(s.rmch + COLLISION_GUARD_SIZE, |s.parts|)
  }

  /** Send every part in [i, end) whose map hash is wanted, in index order. */
  function SendWanted(s: Sender, wanted: seq<MapHash>, i: nat, end: nat): (res: (Sender, seq<Response>))
    requires ValidSender(s) && i <= end <= |s.parts|
    ensures ValidSender(res.0)
    ensures res.0 == s.(sent := res.0.sent, sentParts := res.0.sentParts)
    decreases end - i
  {
    if i == end then (s, [])
    else if s.hashmap[i] in wanted then
      var s1 := s.(sent := s.sent[i := true], sentParts := if s.sent[i] then s.sentParts else s.sentParts + 1);
      var (s2, out) := SendWanted(s1, wanted, i + 1, end);
      (s2, [Part(s.parts[i])] + out)
    else SendWanted(s, wanted, i + 1, end)
  }

  /** Number of entries passed until the last known map hash was met, counted from the start of the hashmap. */
  function PartIndex(hashmap: seq<MapHash>, last: MapHash, i: nat, end: nat): (k: nat)
    requires i <= end <= |hashmap|
    ensures i <= k <= end
    decreases end - i
  {
    if i == end then i
    else if hashmap[i] == last then i + 1
    else PartIndex(hashmap, last, i + 1, end)
  }

  function RequestedIndex(s: Sender, request: Request): nat
    requires ValidSender(s)
  {
    PartIndex(s.hashmap, request.last, s.rmch, SearchEnd(s))
  }

  /** The one condition under which request gives up the transfer on its own. */
  predicate SequencingError(s: Sender, request: Request)
    requires ValidSender(s)
  {
    request.exhausted && RequestedIndex(s, request) % HASHMAP_MAX_LEN != 0
  }

  function HashmapSegment(hashmap: seq<MapHash>, segment: nat): seq<MapHash>
    requires segment * HASHMAP_MAX_LEN <= |hashmap|
  {
    hashmap[segment * HASHMAP_MAX_LEN .. Min((segment + 1) * HASHMAP_MAX_LEN, |hashmap|)]
  }

  function Conclude(s: Sender): Sender {
    if s.sentParts == |s.parts| then s.(status := AwaitingProof, retriesLeft := 3) else s
  }

  function SenderRequest(s: Sender, request: Request): (Sender, seq<Response>)
    requires ValidSender(s)
  {
    if s.status == Failed then (s, [])
    else
      var s0 := s.(status := Transferring, retriesLeft := MAX_RETRIES);
      var (s1, out) := SendWanted(s0, request.wanted, s.rmch, SearchEnd(s));
      if !request.exhausted then (Conclude(s1), out)
      else
        var index := RequestedIndex(s, request);
        var s2 := s1.(rmch := Max(index - 1 - WINDOW_MAX, 0));
        if SequencingError(s, request) then (s2.(status := Failed), out)
        else
          var segment := index / HASHMAP_MAX_LEN;
          (Conclude(s2), out + [Hmu(segment, HashmapSegment(s.hashmap, segment))])
  }

  /** The sender's watchdog tick once its timeout has run out. */
  function SenderExpired(s: Sender): Sender {
    match s.status
    case Advertised => if s.retriesLeft == 0 then s.(status := Failed) else s.(retriesLeft := s.retriesLeft - 1)
    case Transferring => s.(status := Failed)
    case AwaitingProof => if s.retriesLeft == 0 then s.(status := Failed) else s.(retriesLeft := s.retriesLeft - 1)
    case _ => s
  }

  /** validate_proof on a 64-byte packet whose second half is proof. */
  function ValidateProof(s: Sender, proof: Chunk, expected: Chunk): Sender {
    if s.status != Failed && proof == expected then s.(status := Complete) else s
  }
}
