/**
 The two ends of a transfer as objects whose methods update their fields step by step.
 Each method is proved to do exactly what its step function in ResourceModel says, so
 everything proved about the step functions holds of the objects.
 */
module ResourceObjects {
  import opened Basics
  import opened ResourceModel
  import opened ResourceLossless

  class IncomingResource {
    const mapHash: Chunk -> MapHash
    var status: Status
    var parts: seq<Option<Chunk>>
    var hashmap: seq<MapHash>
    var height: nat
    var receivedCount: nat
    var outstanding: nat
    var cch: int
    var window: nat
    var windowMax: nat
    var windowMin: nat
    var fastRounds: nat
    var slowRounds: nat
    var waitingForHmu: bool
    var retriesLeft: nat

    function State(): Receiver
      reads this
    {
      Receiver(status, parts, hashmap, height, receivedCount, outstanding, cch, window, windowMax, windowMin,
               fastRounds, slowRounds, waitingForHmu, retriesLeft)
    }

    /** accept, up to its call of hashmap_update. */
    constructor (mapHash: Chunk -> MapHash, total: nat)
      ensures State() == Accepted(total) && this.mapHash == mapHash
    {
      this.mapHash := mapHash;
      status := Transferring;
      parts := seq(total, _ => None);
      hashmap := seq(total, _ => UNKNOWN);
      height, receivedCount, outstanding, cch := 0, 0, 0, -1;
      window, windowMax, windowMin := WINDOW, WINDOW_MAX_SLOW, WINDOW_MIN;
      fastRounds, slowRounds, waitingForHmu, retriesLeft := 0, 0, false, MAX_RETRIES;
    }

    method RequestNextParts() returns (request: Option<Request>)
      requires ValidReceiver(State())
      modifies this
      ensures var next := old(RequestNext(State())); State() == next.0 && request == next.1
    {
      if status == Failed || waitingForHmu {
        return None;
      }
      var wanted, exhausted := Collect();
      var last := if exhausted && 0 < height <= |hashmap| then hashmap[height - 1] else UNKNOWN;
      outstanding := |wanted|;
      waitingForHmu := exhausted;
      request := Some(Request(exhausted, last, wanted));
    }

    /** The loop of request_next over the window of slots above the consecutive ones. */
    method Collect() returns (wanted: seq<MapHash>, exhausted: bool)
      requires ValidReceiver(State())
      ensures var all := Scan(State(), cch + 1, Min(cch + 1 + window, |parts|)); wanted == all.0 && exhausted == all.1
    {
      wanted, exhausted := [], false;
      var idx: nat := cch + 1;
      var end := Min(cch + 1 + window, |parts|);
      while idx < end && !exhausted
        invariant idx <= end
        invariant var all, rest := Scan(State(), cch + 1, end), Scan(State(), idx, end);
                  all.0 == wanted + rest.0 && all.1 == rest.1 && (exhausted ==> rest == ([], true))
        decreases end - idx, !exhausted
      {
        if parts[idx].None? && hashmap[idx] == UNKNOWN {
          exhausted := true;
        } else {
          if parts[idx].None? {
            assert wanted + Scan(State(), idx, end).0 == wanted + [hashmap[idx]] + Scan(State(), idx + 1, end).0;
            wanted := wanted + [hashmap[idx]];
          }
          idx := idx + 1;
        }
      }
    }

    method UpdateHashmap(segment: nat, hashes: seq<MapHash>) returns (request: Option<Request>)
      requires ValidReceiver(State())
      modifies this
      ensures var next := old(HashmapUpdate(State(), segment, hashes)); State() == next.0 && request == next.1
    {
      if status == Failed {
        return None;
      }
      ghost var start := State();
      status := Transferring;
      var base := segment * HASHMAP_MAX_LEN;
      var i := 0;
      while i < |hashes| && base + i < |hashmap|
        invariant i <= |hashes| && |hashmap| == |start.hashmap|
        invariant State() == start.(status := Transferring, hashmap := hashmap, height := height)
        invariant ApplyHashes(hashmap, height, base, hashes, i) == ApplyHashes(start.hashmap, start.height, base, hashes, 0)
      {
        if hashmap[base + i] == UNKNOWN {
          height := height + 1;
        }
        hashmap := hashmap[base + i := hashes[i]];
        i := i + 1;
      }
      waitingForHmu := false;
      request := RequestNextParts();
    }

    method UpdateHashmapPacket(segment: nat, hashes: seq<MapHash>) returns (request: Option<Request>)
      requires ValidReceiver(State())
      modifies this
      ensures var next := old(HashmapUpdatePacket(State(), segment, hashes)); State() == next.0 && request == next.1
    {
      if status == Failed {
        return None;
      }
      retriesLeft := MAX_RETRIES;
      request := UpdateHashmap(segment % 65536, hashes);
    }

    /** The loop of receive_part over the open slots. */
    method Search(hash: MapHash, chunk: Chunk)
      requires ValidReceiver(State())
      modifies this
      ensures State() == old(FilePart(State(), hash, chunk))
    {
      ghost var start := State();
      var j := Min(SearchStart(State()), |parts|);
      var end := Min(j + window, |parts|);
      ghost var from := j;
      while j < end
        invariant from <= j <= end <= |parts| && |parts| == |start.parts|
        invariant ValidReceiver(State())
        invariant FileFrom(State(), hash, chunk, j, end) == FileFrom(start, hash, chunk, from, end)
      {
        if hashmap[j] == hash && parts[j].None? {
          File(chunk, j);
        }
        j := j + 1;
      }
    }

    method File(chunk: Chunk, i: nat)
      requires ValidReceiver(State()) && i < |parts|
      modifies this
      ensures State() == old(FileAt(State(), chunk, i)) && ValidReceiver(State())
    {
      parts := parts[i := Some(chunk)];
      receivedCount := receivedCount + 1;
      if outstanding > 0 {
        outstanding := outstanding - 1;
      }
      if i == cch + 1 {
        cch := i;
      }
      AdvanceStays(parts, cch);
      ExtendPrefix();
    }

    method ExtendPrefix()
      requires -1 <= cch < |parts|
      modifies this`cch
      ensures cch == old(Advance(parts, cch))
    {
      var cp := cch + 1;
      while cp < |parts| && parts[cp].Some?
        invariant cp == cch + 1 <= |parts|
        invariant Advance(parts, cch) == old(Advance(parts, cch))
      {
        cch := cp;
        cp := cp + 1;
      }
    }

    method CountFastRound(fast: bool)
      modifies this`fastRounds, this`windowMax
      ensures State() == CountFast(old(State()), fast)
    {
      if fast && fastRounds < FAST_RATE_THRESHOLD {
        fastRounds := fastRounds + 1;
        if fastRounds == FAST_RATE_THRESHOLD {
          windowMax := WINDOW_MAX_FAST;
        }
      }
    }

    method BeginRound(sample: RateSample)
      modifies this
      ensures State() == NextRound(old(State()), sample)
    {
      if window < windowMax {
        window := window + 1;
        if window - windowMin > WINDOW_FLEXIBILITY - 1 {
          windowMin := windowMin + 1;
        }
      }
      CountFastRound(sample.roundFast);
      if fastRounds == 0 && sample.roundVerySlow && slowRounds < VERY_SLOW_RATE_THRESHOLD {
        slowRounds := slowRounds + 1;
        if slowRounds == VERY_SLOW_RATE_THRESHOLD {
          windowMax := WINDOW_MAX_VERY_SLOW;
        }
      }
    }

    /** receive_part; assemble tells the caller to put the parts together. */
    method Receive(chunk: Chunk, sample: RateSample) returns (request: Option<Request>, assemble: bool)
      requires ValidReceiver(State())
      modifies this
      ensures Received(State(), request, assemble) == old(ReceivePart(State(), mapHash(chunk), chunk, sample))
    {
      request, assemble := None, false;
      retriesLeft := MAX_RETRIES;
      CountFastRound(sample.responseFast);
      if status == Failed {
        return;
      }
      status := Transferring;
      Search(mapHash(chunk), chunk);
      if receivedCount == |parts| {
        assemble := true;
      } else if outstanding == 0 {
        BeginRound(sample);
        request := RequestNextParts();
      }
    }

    /** The watchdog tick of a receiver whose timeout has run out. */
    method Expire() returns (request: Option<Request>)
      requires ValidReceiver(State())
      modifies this
      ensures var next := old(ReceiverExpired(State())); State() == next.0 && request == next.1
    {
      request := None;
      if status == Transferring {
        if retriesLeft > 0 {
          Narrow();
          retriesLeft := retriesLeft - 1;
          waitingForHmu := false;
          request := RequestNextParts();
        } else {
          status := Failed;
        }
      }
    }

    method Narrow()
      modifies this`window, this`windowMax
      ensures State() == NarrowWindow(old(State()))
    {
      if window > windowMin {
        window := window - 1;
        if windowMax > windowMin {
          windowMax := windowMax - 1;
          if windowMax - window > WINDOW_FLEXIBILITY - 1 {
            windowMax := windowMax - 1;
          }
        }
      }
    }
  }

  class OutgoingResource {
    var status: Status
    var parts: seq<Chunk>
    var hashmap: seq<MapHash>
    var sent: seq<bool>
    var sentParts: nat
    var rmch: nat
    var retriesLeft: nat

    function State(): Sender
      reads this
    {
      Sender(status, parts, hashmap, sent, sentParts, rmch, retriesLeft)
    }

    /** start: cut the encrypted stream into parts and hash each. */
    constructor (resource: Resource)
      requires resource.sdu > 0
      ensures State() == StartSender(resource)
    {
      var stream, sdu := Stream(resource), resource.sdu;
      var built, hashes, rest := [], [], stream;
      while rest != []
        invariant |hashes| == |built| <= |Slices(stream, sdu)|
        invariant forall k :: 0 <= k < |built| ==> built[k] == Cut(Slices(stream, sdu)[k])
        invariant forall k :: 0 <= k < |built| ==> hashes[k] == resource.crypto.mapHash(Slices(stream, sdu)[k])
        invariant Slices(rest, sdu) == Slices(stream, sdu)[|built|..]
        decreases |rest|
      {
        var chunk := rest[..Min(sdu, |rest|)];
        assert chunk == Slices(rest, sdu)[0] && Slices(rest[|chunk|..], sdu) == Slices(rest, sdu)[1..];
        assert Slices(stream, sdu)[|built|..][0] == Slices(stream, sdu)[|built|];
        assert Slices(stream, sdu)[|built|..][1..] == Slices(stream, sdu)[|built| + 1..];
        built := built + [Cut(chunk)];
        hashes := hashes + [resource.crypto.mapHash(chunk)];
        rest := rest[|chunk|..];
      }
      status, parts, hashmap := Advertised, built, hashes;
      sent, sentParts, rmch, retriesLeft := seq(|built|, _ => false), 0, 0, MAX_ADV_RETRIES;
    }

    /** request: the parts asked for and, if the receiver ran out of hashmap, the next segment. */
    method Answer(request: Request) returns (out: seq<Response>)
      requires ValidSender(State())
      modifies this
      ensures var next := old(SenderRequest(State(), request)); State() == next.0 && out == next.1
    {
      out := [];
      if status == Failed {
        return;
      }
      ghost var start := State();
      status, retriesLeft := Transferring, MAX_RETRIES;
      var end := SearchEnd(State());
      out := SendParts(request.wanted, end);
      if request.exhausted {
        var index := Locate(request.last, end);
        rmch := Max(index - 1 - WINDOW_MAX, 0);
        if index % HASHMAP_MAX_LEN != 0 {
          status := Failed;
          return;
        }
        var segment := index / HASHMAP_MAX_LEN;
        out := out + [Hmu(segment, HashmapSegment(hashmap, segment))];
      }
      if sentParts == |parts| {
        status, retriesLeft := AwaitingProof, 3;
      }
    }

    method SendParts(wanted: seq<MapHash>, end: nat) returns (out: seq<Response>)
      requires ValidSender(State()) && rmch <= end <= |parts|
      modifies this`sent, this`sentParts
      ensures var next := old(SendWanted(State(), wanted, rmch, end)); State() == next.0 && out == next.1
    {
      ghost var start := State();
      out := [];
      var i := rmch;
      while i < end
        invariant rmch <= i <= end && ValidSender(State())
        invariant var all, rest := SendWanted(start, wanted, rmch, end), SendWanted(State(), wanted, i, end);
                  all.0 == rest.0 && all.1 == out + rest.1
      {
        ghost var rest := SendWanted(State(), wanted, i, end).1;
        if hashmap[i] in wanted {
          assert out + rest == out + [Part(parts[i])] + rest[1..];
          if !sent[i] {
            sentParts := sentParts + 1;
          }
          sent := sent[i := true];
          out := out + [Part(parts[i])];
        }
        i := i + 1;
      }
    }

    method Locate(last: MapHash, end: nat) returns (index: nat)
      requires ValidSender(State()) && rmch <= end <= |parts|
      ensures index == PartIndex(hashmap, last, rmch, end)
    {
      index := rmch;
      var i := rmch;
      while i < end
        invariant rmch <= i <= end && index == i
        invariant PartIndex(hashmap, last, i, end) == PartIndex(hashmap, last, rmch, end)
      {
        index := index + 1;
        if hashmap[i] == last {
          return;
        }
        i := i + 1;
      }
    }

    method Prove(proof: Chunk, expected: Chunk)
      modifies this`status
      ensures State() == ValidateProof(old(State()), proof, expected)
    {
      if status != Failed && proof == expected {
        status := Complete;
      }
    }

    method Expire()
      modifies this`status, this`retriesLeft
      ensures State() == SenderExpired(old(State()))
    {
      if status == Advertised || status == AwaitingProof {
        if retriesLeft == 0 {
          status := Failed;
        } else {
          retriesLeft := retriesLeft - 1;
        }
      } else if status == Transferring {
        status := Failed;
      }
    }
  }
}
