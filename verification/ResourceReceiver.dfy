/**
 What the receiving side of a resource keeps, whatever arrives and whenever its
 watchdog fires: the counters match the slots, the consecutive height is the maximal
 filled prefix, the known map hashes are a prefix of the sender's, the window stays in
 its band, and every request asks for the lowest missing part or for more hashmap.
 */
module ResourceReceiver {
  import opened Basics
  import opened ResourceModel

  /** The sender's map hashes can be told apart, and none reads as "unknown". */
  predicate Distinct(hm: seq<MapHash>) {
    && (forall j :: 0 <= j < |hm| ==> hm[j] != UNKNOWN)
    && (forall j, k :: 0 <= j < k < |hm| ==> hm[j] != hm[k])
  }

  function FilledSlots(parts: seq<Option<Chunk>>): set<nat> {
    set k: nat | k < |parts| && parts[k].Some?
  }

  function MissingSlots(parts: seq<Option<Chunk>>): set<nat> {
    set k: nat | k < |parts| && parts[k].None?
  }

  /** The receiver knows exactly the first r.height map hashes. */
  predicate KnowsPrefix(r: Receiver, hm: seq<MapHash>) {
    && |r.hashmap| == |hm|
    && r.height <= |hm|
    && (forall j :: 0 <= j < r.height ==> r.hashmap[j] == hm[j])
    && (forall j :: r.height <= j < |hm| ==> r.hashmap[j] == UNKNOWN)
  }

  predicate WindowBand(r: Receiver) {
    && 2 <= r.windowMin <= r.window <= WINDOW_MAX
    && r.window - r.windowMin <= 3
    && r.windowMax <= WINDOW_MAX
  }

  predicate MaximalPrefix(r: Receiver)
    requires ValidReceiver(r)
  {
    && (forall k :: 0 <= k <= r.cch ==> r.parts[k].Some?)
    && (r.cch + 1 < |r.parts| ==> r.parts[r.cch + 1].None?)
  }

  /** A filled slot holds a part that hashes to the slot's map hash. */
  ghost predicate SlotsMatch(r: Receiver, hm: seq<MapHash>, H: Chunk -> MapHash)
    requires ValidReceiver(r) && |r.parts| == |hm|
  {
    forall j :: 0 <= j < |r.parts| && r.parts[j].Some? ==> j < r.height && H(r.parts[j].value) == hm[j]
  }

  ghost predicate ReceiverInv(r: Receiver, hm: seq<MapHash>, H: Chunk -> MapHash) {
    && |r.parts| > 0
    && ValidReceiver(r)
    && KnowsPrefix(r, hm)
    && SlotsMatch(r, hm, H)
    && MaximalPrefix(r)
    && r.receivedCount == |FilledSlots(r.parts)|
    && r.outstanding <= |MissingSlots(r.parts)|
    && WindowBand(r)
  }

  // ------------------------------------------------------------- filing parts

  lemma {:induction false} FilingMovesOneSlot(parts: seq<Option<Chunk>>, i: nat, chunk: Chunk)
    requires i < |parts| && parts[i].None?
    ensures |FilledSlots(parts[i := Some(chunk)])| == |FilledSlots(parts)| + 1
    ensures |MissingSlots(parts[i := Some(chunk)])| == |MissingSlots(parts)| - 1
  {
    assert FilledSlots(parts[i := Some(chunk)]) == FilledSlots(parts) + {i};
    assert MissingSlots(parts[i := Some(chunk)]) == MissingSlots(parts) - {i};
  }

  lemma {:induction false} FileAtKeeps(r: Receiver, hm: seq<MapHash>, H: Chunk -> MapHash, chunk: Chunk, i: nat)
    requires ReceiverInv(r, hm, H)
    requires i < r.height && r.parts[i].None? && H(chunk) == hm[i]
    ensures ReceiverInv(FileAt(r, chunk, i), hm, H)
    ensures FileAt(r, chunk, i).cch >= r.cch
  {
    var f := FileAt(r, chunk, i);
    FilingMovesOneSlot(r.parts, i, chunk);
    var c := if i == r.cch + 1 then i else r.cch;
    AdvanceStays(f.parts, c);
    forall k | 0 <= k <= f.cch ensures f.parts[k].Some? { }
  }

  lemma {:induction false} FileFromKeeps(r: Receiver, hm: seq<MapHash>, H: Chunk -> MapHash, chunk: Chunk, j: nat, end: nat)
    requires ReceiverInv(r, hm, H) && Distinct(hm) && H(chunk) != UNKNOWN
    requires j <= end <= |r.parts|
    ensures var f := FileFrom(r, H(chunk), chunk, j, end);
            ReceiverInv(f, hm, H) && f.cch >= r.cch
    decreases end - j
  {
    if j < end {
      FileStepKeeps(r, hm, H, chunk, j);
      var next := if r.hashmap[j] == H(chunk) && r.parts[j].None? then FileAt(r, chunk, j) else r;
      FileFromKeeps(next, hm, H, chunk, j + 1, end);
    }
  }

  lemma {:induction false} FileStepKeeps(r: Receiver, hm: seq<MapHash>, H: Chunk -> MapHash, chunk: Chunk, j: nat)
    requires ReceiverInv(r, hm, H) && H(chunk) != UNKNOWN && j < |r.parts|
    ensures var next := if r.hashmap[j] == H(chunk) && r.parts[j].None? then FileAt(r, chunk, j) else r;
            ReceiverInv(next, hm, H) && next.cch >= r.cch && |next.parts| == |r.parts|
  {
    if r.hashmap[j] == H(chunk) && r.parts[j].None? {
      assert j < r.height && H(chunk) == hm[j];
      FileAtKeeps(r, hm, H, chunk, j);
    }
  }

  /** With distinct map hashes a part is filed in its own slot, if that slot is open to it, and nowhere else. */
  lemma {:induction false} FileFromHits(r: Receiver, hm: seq<MapHash>, H: Chunk -> MapHash, chunk: Chunk, i: nat, j: nat, end: nat)
    requires ReceiverInv(r, hm, H) && Distinct(hm)
    requires i < r.height && H(chunk) == hm[i]
    requires j <= end <= |r.parts|
    ensures FileFrom(r, H(chunk), chunk, j, end) ==
            if j <= i < end && r.parts[i].None? then FileAt(r, chunk, i) else r
    decreases end - j
  {
    if j < end {
      if r.hashmap[j] == H(chunk) {
        assert j == i;
        if r.parts[j].None? {
          FileAtKeeps(r, hm, H, chunk, j);
          AdvanceStays(FileAt(r, chunk, j).parts, if j == r.cch + 1 then j else r.cch);
          FileFromHits(FileAt(r, chunk, j), hm, H, chunk, i, j + 1, end);
        } else {
          FileFromHits(r, hm, H, chunk, i, j + 1, end);
        }
      } else {
        FileFromHits(r, hm, H, chunk, i, j + 1, end);
      }
    }
  }

  // ---------------------------------------------------------------- requests

  /** The map hashes of the empty slots of [lo, hi), in order. */
  function MissingHashes(parts: seq<Option<Chunk>>, hm: seq<MapHash>, lo: nat, hi: nat): seq<MapHash>
    requires lo <= hi <= |parts| == |hm|
    decreases hi - lo
  {
    if lo == hi then []
    else if parts[lo].Some? then MissingHashes(parts, hm, lo + 1, hi)
    else [hm[lo]] + MissingHashes(parts, hm, lo + 1, hi)
  }

  lemma {:induction false} MissingHashesMember(parts: seq<Option<Chunk>>, hm: seq<MapHash>, lo: nat, hi: nat, x: MapHash) returns (k: nat)
    requires lo <= hi <= |parts| == |hm| && x in MissingHashes(parts, hm, lo, hi)
    ensures lo <= k < hi && parts[k].None? && hm[k] == x
    decreases hi - lo
  {
    if parts[lo].None? && hm[lo] == x {
      k := lo;
    } else {
      k := MissingHashesMember(parts, hm, lo + 1, hi, x);
    }
  }

  lemma {:induction false} MissingHashesCount(parts: seq<Option<Chunk>>, hm: seq<MapHash>, lo: nat, hi: nat)
    requires lo <= hi <= |parts| == |hm|
    ensures |MissingHashes(parts, hm, lo, hi)| == |set k: nat | lo <= k < hi && parts[k].None?|
    decreases hi - lo
  {
    var all := set k: nat | lo <= k < hi && parts[k].None?;
    if lo == hi {
      assert all == {};
    } else {
      var rest := set k: nat | lo + 1 <= k < hi && parts[k].None?;
      MissingHashesCount(parts, hm, lo + 1, hi);
      assert all == if parts[lo].None? then rest + {lo} else rest;
    }
  }

  lemma {:induction false} ScanMeaning(r: Receiver, hm: seq<MapHash>, H: Chunk -> MapHash, idx: nat, end: nat)
    requires ReceiverInv(r, hm, H) && Distinct(hm)
    requires idx <= end <= |r.parts| && idx <= r.height
    ensures Scan(r, idx, end) == (MissingHashes(r.parts, hm, idx, Min(end, r.height)), r.height < end)
    decreases end - idx
  {
    if idx < end && idx < r.height {
      ScanMeaning(r, hm, H, idx + 1, end);
    }
  }

  /** The request an unblocked receiver makes, read off its state. */
  function ExpectedRequest(r: Receiver, hm: seq<MapHash>): Request
    requires ValidReceiver(r) && KnowsPrefix(r, hm) && r.cch + 1 <= r.height
  {
    var end := Min(r.cch + 1 + r.window, |r.parts|);
    var exhausted := r.height < end;
    Request(exhausted,
            if exhausted && r.height > 0 then hm[r.height - 1] else UNKNOWN,
            MissingHashes(r.parts, hm, r.cch + 1, Min(end, r.height)))
  }

  lemma {:induction false} FilledBelowHeight(r: Receiver, hm: seq<MapHash>, H: Chunk -> MapHash)
    requires ReceiverInv(r, hm, H)
    ensures r.cch + 1 <= r.height
  {
    if r.cch >= 0 {
      assert r.parts[r.cch].Some?;
    }
  }

  lemma {:induction false} RequestNextMeaning(r: Receiver, hm: seq<MapHash>, H: Chunk -> MapHash)
    requires ReceiverInv(r, hm, H) && Distinct(hm)
    requires r.status != Failed && !r.waitingForHmu
    ensures r.cch + 1 <= r.height
    ensures var q := ExpectedRequest(r, hm);
            RequestNext(r) == (r.(outstanding := |q.wanted|, waitingForHmu := q.exhausted), Some(q))
  {
    FilledBelowHeight(r, hm, H);
    ScanMeaning(r, hm, H, r.cch + 1, Min(r.cch + 1 + r.window, |r.parts|));
  }

  lemma {:induction false} RequestNextKeeps(r: Receiver, hm: seq<MapHash>, H: Chunk -> MapHash)
    requires ReceiverInv(r, hm, H) && Distinct(hm)
    ensures ReceiverInv(RequestNext(r).0, hm, H)
  {
    if r.status != Failed && !r.waitingForHmu {
      RequestNextMeaning(r, hm, H);
      var lo, hi := r.cch + 1, Min(Min(r.cch + 1 + r.window, |r.parts|), r.height);
      MissingHashesCount(r.parts, hm, lo, hi);
      var asked := set k: nat | lo <= k < hi && r.parts[k].None?;
      SubsetCardinality(asked, MissingSlots(r.parts));
    }
  }

  lemma {:induction false} SubsetCardinality(a: set<nat>, b: set<nat>)
    requires a <= b
    ensures |a| <= |b|
  {
    assert b == a + (b - a);
  }

  /**
   Progress of every request: unless it is blocked or finished, the receiver asks first
   for the lowest part it misses, or says that its hashmap ends there.
   */
  lemma {:induction false} RequestAsksForLowestMissing(r: Receiver, hm: seq<MapHash>, H: Chunk -> MapHash)
    requires ReceiverInv(r, hm, H) && Distinct(hm)
    requires r.status != Failed && !r.waitingForHmu && r.receivedCount < |r.parts|
    ensures r.cch + 1 < |r.parts| && r.parts[r.cch + 1].None?
    ensures forall k :: 0 <= k < r.cch + 1 ==> r.parts[k].Some?
    ensures RequestNext(r).1.Some?
    ensures var q := RequestNext(r).1.value;
            if r.cch + 1 < r.height then |q.wanted| > 0 && q.wanted[0] == hm[r.cch + 1] else q.exhausted && q.wanted == []
  {
    RequestNextMeaning(r, hm, H);
    SlotsPartition(r.parts);
  }

  lemma {:induction false} SlotsPartition(parts: seq<Option<Chunk>>)
    ensures |FilledSlots(parts)| + |MissingSlots(parts)| == |parts|
  {
    if parts != [] {
      var n := |parts| - 1;
      SlotsPartition(parts[..n]);
      LastSlot(parts, n);
    }
  }

  lemma {:induction false} LastSlot(parts: seq<Option<Chunk>>, n: nat)
    requires |parts| == n + 1
    ensures FilledSlots(parts) == FilledSlots(parts[..n]) + if parts[n].Some? then {n} else {}
    ensures MissingSlots(parts) == MissingSlots(parts[..n]) + if parts[n].None? then {n} else {}
  {
  }

  // ----------------------------------------------------------------- hashmap

  lemma {:induction false} ApplyHashesExtends(hashmap: seq<MapHash>, height: nat, known: nat, hm: seq<MapHash>, base: nat, hashes: seq<MapHash>, i: nat)
    requires i <= |hashes| && |hashmap| == |hm|
    requires base + |hashes| <= |hm| && hashes == hm[base..base + |hashes|]
    requires base <= known <= |hm| && known >= base + i && height == known
    requires forall j :: 0 <= j < |hm| ==> hashmap[j] == if j < known then hm[j] else UNKNOWN
    requires Distinct(hm)
    ensures var res := ApplyHashes(hashmap, height, base, hashes, i);
            && |res.0| == |hm|
            && res.1 == Max(known, base + |hashes|)
            && forall j :: 0 <= j < |hm| ==> res.0[j] == if j < res.1 then hm[j] else UNKNOWN
    decreases |hashes| - i
  {
    if i < |hashes| {
      var known' := if base + i < known then known else known + 1;
      ApplyHashesExtends(hashmap[base + i := hashes[i]], known', known', hm, base, hashes, i + 1);
    }
  }

  /** A hashmap segment that starts at or below the known height extends the prefix to its own end. */
  lemma {:induction false} HashmapUpdateKeeps(r: Receiver, hm: seq<MapHash>, H: Chunk -> MapHash, segment: nat)
    requires ReceiverInv(r, hm, H) && Distinct(hm) && r.status != Failed
    requires segment * HASHMAP_MAX_LEN <= r.height
    ensures var w := WithHashes(r, segment, HashmapSegment(hm, segment));
            ReceiverInv(w, hm, H)
            && w == r.(status := Transferring, hashmap := w.hashmap, height := w.height, waitingForHmu := false)
            && w.height == Max(r.height, Min((segment + 1) * HASHMAP_MAX_LEN, |hm|))
  {
    ApplyHashesExtends(r.hashmap, r.height, r.height, hm, segment * HASHMAP_MAX_LEN, HashmapSegment(hm, segment), 0);
  }

  // ------------------------------------------------------------ whole methods

  /** Every other field is free to change as long as the window stays in its band. */
  lemma {:induction false} OtherFieldsFree(r: Receiver, q: Receiver, hm: seq<MapHash>, H: Chunk -> MapHash)
    requires ReceiverInv(r, hm, H)
    requires q.parts == r.parts && q.hashmap == r.hashmap && q.height == r.height && q.cch == r.cch
    requires q.receivedCount == r.receivedCount && q.outstanding == r.outstanding && WindowBand(q)
    ensures ReceiverInv(q, hm, H)
  {
  }

  lemma {:induction false} WindowStaysInBand(r: Receiver, sample: RateSample)
    requires WindowBand(r)
    ensures WindowBand(CountFast(r, sample.responseFast))
    ensures WindowBand(CountVerySlow(CountFast(WidenWindow(r), sample.roundFast), sample.roundVerySlow))
    ensures WindowBand(NarrowWindow(r))
  {
  }

  lemma {:induction false} FilePartKeeps(r: Receiver, hm: seq<MapHash>, H: Chunk -> MapHash, chunk: Chunk)
    requires ReceiverInv(r, hm, H) && Distinct(hm) && H(chunk) != UNKNOWN
    ensures var f := FilePart(r, H(chunk), chunk);
            ReceiverInv(f, hm, H) && f.cch >= r.cch && f.height == r.height && |f.parts| == |r.parts|
            && (f.receivedCount == |f.parts| <==> MissingSlots(f.parts) == {})
  {
    var start := Min(SearchStart(r), |r.parts|);
    FileFromKeeps(r, hm, H, chunk, start, Min(start + r.window, |r.parts|));
    SlotsPartition(FilePart(r, H(chunk), chunk).parts);
  }

  lemma {:induction false} AfterFilingKeeps(r: Receiver, hm: seq<MapHash>, H: Chunk -> MapHash, sample: RateSample)
    requires ReceiverInv(r, hm, H) && Distinct(hm)
    ensures var res := AfterFiling(r, sample).receiver;
            ReceiverInv(res, hm, H) && res.height == r.height && res.cch == r.cch && res.parts == r.parts
  {
    if r.receivedCount != |r.parts| && r.outstanding == 0 {
      WindowStaysInBand(r, sample);
      OtherFieldsFree(r, NextRound(r, sample), hm, H);
      RequestNextKeeps(NextRound(r, sample), hm, H);
    }
  }

  lemma {:induction false} ReceivePartKeeps(r: Receiver, hm: seq<MapHash>, H: Chunk -> MapHash, chunk: Chunk, sample: RateSample)
    requires ReceiverInv(r, hm, H) && Distinct(hm) && H(chunk) != UNKNOWN
    ensures var res := ReceivePart(r, H(chunk), chunk, sample);
            ReceiverInv(res.receiver, hm, H) && res.receiver.height == r.height && res.receiver.cch >= r.cch
            && (res.assemble <==> r.status != Failed && MissingSlots(res.receiver.parts) == {})
  {
    if r.status == Failed {
      OtherFieldsFree(r, CountFast(r.(retriesLeft := MAX_RETRIES), sample.responseFast), hm, H);
    } else {
      OtherFieldsFree(r, Searching(r, sample), hm, H);
      FilePartKeeps(Searching(r, sample), hm, H, chunk);
      AfterFilingKeeps(FilePart(Searching(r, sample), H(chunk), chunk), hm, H, sample);
    }
  }

  lemma {:induction false} ExpiredKeeps(r: Receiver, hm: seq<MapHash>, H: Chunk -> MapHash)
    requires ReceiverInv(r, hm, H) && Distinct(hm)
    ensures ReceiverInv(ReceiverExpired(r).0, hm, H)
    ensures ReceiverExpired(r).0.height == r.height && ReceiverExpired(r).0.cch == r.cch
  {
    if r.status == Transferring && r.retriesLeft > 0 {
      var q := NarrowWindow(r).(retriesLeft := r.retriesLeft - 1, waitingForHmu := false);
      WindowStaysInBand(r, RateSample(false, false, false));
      OtherFieldsFree(r, q, hm, H);
      RequestNextKeeps(q, hm, H);
    }
  }

  lemma {:induction false} AcceptedHolds(hm: seq<MapHash>, H: Chunk -> MapHash)
    requires |hm| > 0
    ensures ReceiverInv(Accepted(|hm|), hm, H)
  {
    assert FilledSlots(Accepted(|hm|).parts) == {};
  }
}
