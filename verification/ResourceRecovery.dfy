/**
 A transfer that has been through any losses, repetitions and reorderings can still be
 completed, as long as the sender has not given up and the receiver has a retry left: the
 receiver times out, asks again, is answered, and gets the lowest part it lacks or more of
 the hashmap; and so on.
 */
module ResourceRecovery {
  import opened Basics
  import opened ResourceModel
  import opened ResourceReceiver
  import opened ResourceSystem
  import opened ResourceLossless

  // --------------------------------------------------------------- going on

  ghost function Onward(sys: System, events: seq<Event>, H: Chunk -> MapHash): (r: System)
    requires SystemInv(sys, H)
    ensures SystemInv(r, H)
    decreases |events|
  {
    if events == [] then sys
    else
      StepKeeps(sys, events[0], H);
      Onward(Step(sys, events[0], H), events[1..], H)
  }

  lemma {:induction false} OnwardJoin(sys: System, a: seq<Event>, b: seq<Event>, H: Chunk -> MapHash)
    requires SystemInv(sys, H)
    ensures Onward(sys, a + b, H) == Onward(Onward(sys, a, H), b, H)
    decreases |a|
  {
    if a == [] {
      assert a + b == b;
    } else {
      assert (a + b)[1..] == a[1..] + b;
      StepKeeps(sys, a[0], H);
      OnwardJoin(Step(sys, a[0], H), a[1..], b, H);
    }
  }

  lemma {:induction false} RunOnward(s: Sender, events: seq<Event>, more: seq<Event>, H: Chunk -> MapHash)
    requires Transferable(s, H) && s.rmch == 0
    ensures Run(s, events + more, H) == Onward(Run(s, events, H), more, H)
    decreases |more|
  {
    if more == [] {
      assert events + more == events;
    } else {
      assert (events + [more[0]])[..|events|] == events;
      assert events + more == events + [more[0]] + more[1..];
      RunOnward(s, events + [more[0]], more[1..], H);
    }
  }

  // ---------------------------------------------- nothing is full but Complete

  ghost predicate Open(sys: System)
    requires ValidReceiver(sys.receiver)
  {
    sys.receiver.status == Complete || MissingSlots(sys.receiver.parts) != {}
  }

  lemma {:induction false} FullCount(r: Receiver, hm: seq<MapHash>, H: Chunk -> MapHash)
    requires ReceiverInv(r, hm, H)
    ensures r.receivedCount == |r.parts| <==> MissingSlots(r.parts) == {}
    ensures r.receivedCount <= |r.parts|
  {
    SlotsPartition(r.parts);
  }

  lemma {:induction false} PartKeepsOpen(sys: System, chunk: Chunk, sample: RateSample, H: Chunk -> MapHash)
    requires SystemInv(sys, H) && Open(sys) && H(chunk) != UNKNOWN && sys.receiver.status == Transferring
    ensures ValidReceiver(DeliverPart(sys, chunk, sample, H).receiver) && Open(DeliverPart(sys, chunk, sample, H))
  {
    var r, hm := sys.receiver, sys.sender.hashmap;
    var q := Searching(r, sample);
    OtherFieldsFree(r, q, hm, H);
    FilePartKeeps(q, hm, H, chunk);
    FullCount(FilePart(q, H(chunk), chunk), hm, H);
    PartLeaves(sys, chunk, sample, H);
  }

  /** What a part leaves of the receiver it was filed in. */
  predicate LeftOf(f: Receiver, d: Receiver) {
    && d.parts == f.parts && d.hashmap == f.hashmap && d.height == f.height && d.cch == f.cch
    && d.receivedCount == f.receivedCount && d.retriesLeft == f.retriesLeft
  }

  lemma {:induction false} AfterFilingLeaves(f: Receiver, sample: RateSample)
    requires ValidReceiver(f)
    ensures var res := AfterFiling(f, sample);
            LeftOf(f, res.receiver) && res.receiver.status == f.status && (res.assemble <==> f.receivedCount == |f.parts|)
  {
    NextAsks(NextRound(f, sample));
  }

  lemma {:induction false} PartLeaves(sys: System, chunk: Chunk, sample: RateSample, H: Chunk -> MapHash)
    requires ValidReceiver(sys.receiver) && sys.receiver.status == Transferring
    ensures var f, d := FilePart(Searching(sys.receiver, sample), H(chunk), chunk), DeliverPart(sys, chunk, sample, H).receiver;
            LeftOf(f, d) && d.status == if f.receivedCount == |f.parts| then Complete else f.status
    ensures DeliverPart(sys, chunk, sample, H).sender == sys.sender
  {
    AfterFilingLeaves(FilePart(Searching(sys.receiver, sample), H(chunk), chunk), sample);
  }

  lemma {:induction false} OthersKeepOpen(sys: System, e: Event, H: Chunk -> MapHash)
    requires ValidSender(sys.sender) && ValidReceiver(sys.receiver) && Open(sys)
    requires e.Deliver? && e.response.Part? ==> e.response !in sys.responses || sys.receiver.status != Transferring
    ensures ValidReceiver(Step(sys, e, H).receiver) && Open(Step(sys, e, H))
  {
    match e
    case Deliver(Hmu(segment, hashes), _) =>
      RequestNextSlots(WithHashes(sys.receiver.(retriesLeft := MAX_RETRIES), segment % 65536, hashes));
    case ReceiverTimeout =>
      if sys.receiver.retriesLeft > 0 {
        RequestNextSlots(NarrowWindow(sys.receiver).(retriesLeft := sys.receiver.retriesLeft - 1, waitingForHmu := false));
      }
    case _ =>
  }

  lemma {:induction false} StepKeepsOpen(sys: System, e: Event, H: Chunk -> MapHash)
    requires SystemInv(sys, H) && Open(sys)
    ensures ValidReceiver(Step(sys, e, H).receiver) && Open(Step(sys, e, H))
  {
    if e.Deliver? && e.response.Part? && e.response in sys.responses && sys.receiver.status == Transferring {
      assert ResponseOk(e.response, sys.sender, sys.served);
      PartKeepsOpen(sys, e.response.chunk, e.sample, H);
    } else {
      OthersKeepOpen(sys, e, H);
    }
  }

  lemma {:induction false} RunIsOpen(s: Sender, events: seq<Event>, H: Chunk -> MapHash)
    requires Transferable(s, H) && s.rmch == 0
    ensures Open(Run(s, events, H))
  {
    if events == [] {
      StartIsEmpty(s);
      assert 0 in MissingSlots(Start(s).receiver.parts);
    } else {
      RunIsOpen(s, events[..|events| - 1], H);
      StepKeepsOpen(Run(s, events[..|events| - 1], H), events[|events| - 1], H);
    }
  }

  // ------------------------------------------------------------------ one cycle

  /** The sender goes on, the receiver has a retry left, and each part has its map hash. */
  ghost predicate Viable(sys: System, H: Chunk -> MapHash) {
    && SystemInv(sys, H) && Open(sys)
    && sys.sender.status != Failed && sys.receiver.status == Transferring && sys.receiver.retriesLeft > 0
    && forall k :: 0 <= k < |sys.sender.parts| ==> H(sys.sender.parts[k]) == sys.sender.hashmap[k]
  }

  /** The parts missing and the map hashes unknown. */
  function Lacks(r: Receiver): int { |r.parts| - r.receivedCount + |r.hashmap| - r.height }

  /** The requests under way are lost. */
  lemma {:induction false} AllLost(sys: System, H: Chunk -> MapHash) returns (events: seq<Event>)
    requires SystemInv(sys, H)
    ensures Onward(sys, events, H) == sys.(requests := [])
    decreases |sys.requests|
  {
    if sys.requests == [] {
      events := [];
    } else {
      StepKeeps(sys, Lose(0), H);
      assert Step(sys, Lose(0), H) == sys.(requests := sys.requests[1..]);
      var rest := AllLost(Step(sys, Lose(0), H), H);
      events := [Lose(0)] + rest;
      assert events[1..] == rest;
    }
  }

  /** What the receiver asks for on a timeout: the lowest part it lacks, or hashmap. */
  ghost predicate AsksForLowest(r: Receiver, q: Request, hm: seq<MapHash>) {
    && ValidReceiver(r) && |r.parts| == |hm| && r.cch + 1 < |hm| && r.parts[r.cch + 1].None?
    && if r.cch + 1 < r.height then hm[r.cch + 1] in q.wanted else q.exhausted && r.height == r.cch + 1
  }

  lemma {:induction false} TimeoutAsks(r: Receiver, hm: seq<MapHash>, H: Chunk -> MapHash)
    requires ReceiverInv(r, hm, H) && Distinct(hm) && r.status == Transferring && r.retriesLeft > 0
    requires MissingSlots(r.parts) != {}
    ensures var (r', q) := ReceiverExpired(r);
            && q.Some? && AsksForLowest(r', q.value, hm) && r'.status == Transferring
            && r'.receivedCount == r.receivedCount && r'.height == r.height && |r'.parts| == |r.parts|
  {
    var w := NarrowWindow(r).(retriesLeft := r.retriesLeft - 1, waitingForHmu := false);
    WindowStaysInBand(r, RateSample(false, false, false));
    OtherFieldsFree(r, w, hm, H);
    OpenAsks(w, hm, H);
  }

  lemma {:induction false} OpenAsks(w: Receiver, hm: seq<MapHash>, H: Chunk -> MapHash)
    requires ReceiverInv(w, hm, H) && Distinct(hm) && w.status == Transferring && !w.waitingForHmu && MissingSlots(w.parts) != {}
    ensures var (r', q) := RequestNext(w);
            && q.Some? && AsksForLowest(r', q.value, hm) && r'.status == Transferring
            && r'.receivedCount == w.receivedCount && r'.height == w.height && |r'.parts| == |w.parts|
  {
    FullCount(w, hm, H);
    RequestAsksForLowestMissing(w, hm, H);
    RequestNextMeaning(w, hm, H);
  }

  /** A viable system in which the receiver has asked, alone, for the lowest part it lacks or for hashmap. */
  ghost predicate Asked(sys: System, H: Chunk -> MapHash) {
    && SystemInv(sys, H) && Open(sys) && sys.sender.status != Failed && sys.receiver.status == Transferring
    && (forall k :: 0 <= k < |sys.sender.parts| ==> H(sys.sender.parts[k]) == sys.sender.hashmap[k])
    && |sys.requests| == 1 && sys.requests[0].height == sys.receiver.height
    && AsksForLowest(sys.receiver, sys.requests[0].request, sys.sender.hashmap)
  }

  lemma {:induction false} TimeoutLeavesAsked(sys: System, H: Chunk -> MapHash)
    requires Viable(sys, H) && sys.requests == []
    ensures Asked(Step(sys, ReceiverTimeout, H), H)
    ensures Lacks(Step(sys, ReceiverTimeout, H).receiver) == Lacks(sys.receiver)
  {
    TimeoutAsks(sys.receiver, sys.sender.hashmap, H);
    StepKeeps(sys, ReceiverTimeout, H);
    StepKeepsOpen(sys, ReceiverTimeout, H);
  }

  /** The response that brings the receiver on. */
  function Wanted(sys: System): Response
    requires ValidSender(sys.sender) && 0 <= sys.receiver.cch + 1 < |sys.sender.parts|
  {
    var r, s := sys.receiver, sys.sender;
    if r.cch + 1 < r.height then Part(s.parts[r.cch + 1])
    else Hmu(r.height / HASHMAP_MAX_LEN, HashmapSegment(s.hashmap, r.height / HASHMAP_MAX_LEN))
  }

  /** The same system with the answer sent. */
  ghost predicate AnswerSent(sys: System, H: Chunk -> MapHash) {
    && SystemInv(sys, H) && Open(sys) && sys.sender.status != Failed && sys.receiver.status == Transferring
    && (forall k :: 0 <= k < |sys.sender.parts| ==> H(sys.sender.parts[k]) == sys.sender.hashmap[k])
    && 0 <= sys.receiver.cch + 1 < |sys.sender.parts| && Wanted(sys) in sys.responses
    && sys.receiver.parts[sys.receiver.cch + 1].None?
    && (sys.receiver.cch + 1 >= sys.receiver.height ==>
          sys.receiver.height % HASHMAP_MAX_LEN == 0 && sys.receiver.height < |sys.sender.hashmap|)
  }

  lemma {:induction false} WantedIsSent(sys: System, H: Chunk -> MapHash)
    requires Asked(sys, H)
    ensures 0 <= sys.receiver.cch + 1 < |sys.sender.parts|
    ensures Wanted(sys) in SenderRequest(sys.sender, sys.requests[0].request).1
    ensures sys.receiver.cch + 1 >= sys.receiver.height ==>
              sys.receiver.height % HASHMAP_MAX_LEN == 0 && sys.receiver.height < |sys.sender.hashmap|
  {
    HeadIsAnswered(sys, H);
  }

  lemma {:induction false} ServingAnswers(sys: System, H: Chunk -> MapHash)
    requires Asked(sys, H)
    ensures AnswerSent(Step(sys, Serve, H), H) && Step(sys, Serve, H).receiver == sys.receiver
  {
    WantedIsSent(sys, H);
    StepKeeps(sys, Serve, H);
    StepKeepsOpen(sys, Serve, H);
    StepStatus(sys, Serve, H);
    StepKeepsResource(sys, Serve, H);
    assert Wanted(Step(sys, Serve, H)) == Wanted(sys);
  }

  /** The lowest part lacking, when it arrives, is filed. */
  lemma {:induction false} LowestIsFound(q: Receiver, hm: seq<MapHash>, H: Chunk -> MapHash, chunk: Chunk, i: nat)
    requires ReceiverInv(q, hm, H) && Distinct(hm) && i == q.cch + 1 < q.height && q.parts[i].None? && H(chunk) == hm[i]
    ensures FilePart(q, H(chunk), chunk) == FileAt(q, chunk, i)
  {
    var start := Min(SearchStart(q), |q.parts|);
    FileFromHits(q, hm, H, chunk, i, start, Min(start + q.window, |q.parts|));
  }

  lemma {:induction false} LowestPartFiled(r: Receiver, hm: seq<MapHash>, H: Chunk -> MapHash, chunk: Chunk, sample: RateSample)
    requires ReceiverInv(r, hm, H) && Distinct(hm) && r.status == Transferring
    requires r.cch + 1 < r.height && r.parts[r.cch + 1].None? && H(chunk) == hm[r.cch + 1]
    ensures var f := FilePart(Searching(r, sample), H(chunk), chunk);
            && ReceiverInv(f, hm, H) && f.receivedCount == r.receivedCount + 1 && f.height == r.height
            && f.status == Transferring && f.retriesLeft == MAX_RETRIES && |f.parts| == |r.parts|
  {
    var q := Searching(r, sample);
    OtherFieldsFree(r, q, hm, H);
    LowestIsFound(q, hm, H, chunk, r.cch + 1);
    FileAtKeeps(q, hm, H, chunk, r.cch + 1);
  }

  /** Completed, or with less to go. */
  ghost predicate Nearer(sys: System, sys': System, H: Chunk -> MapHash) {
    sys'.receiver.status == Complete || (Viable(sys', H) && Lacks(sys'.receiver) < Lacks(sys.receiver))
  }

  /** A response that leaves the receiver complete, or with a retry left and less to go. */
  predicate Helps(r: Receiver, d: Receiver) {
    d.status == Complete || (d.status == Transferring && d.retriesLeft > 0 && Lacks(d) < Lacks(r))
  }

  lemma {:induction false} HelpIsNearer(sys: System, e: Event, H: Chunk -> MapHash)
    requires AnswerSent(sys, H) && ValidReceiver(Step(sys, e, H).receiver) && Helps(sys.receiver, Step(sys, e, H).receiver)
    requires Step(sys, e, H).sender == sys.sender
    ensures Nearer(sys, Step(sys, e, H), H)
  {
    StepKeeps(sys, e, H);
    StepKeepsOpen(sys, e, H);
  }

  lemma {:induction false} PartHelps(sys: System, H: Chunk -> MapHash, chunk: Chunk, sample: RateSample)
    requires ValidSender(sys.sender) && Distinct(sys.sender.hashmap) && ReceiverInv(sys.receiver, sys.sender.hashmap, H)
    requires var r := sys.receiver;
             && r.status == Transferring && r.cch + 1 < r.height && r.parts[r.cch + 1].None?
             && H(chunk) == sys.sender.hashmap[r.cch + 1]
    ensures var sys' := DeliverPart(sys, chunk, sample, H);
            ValidReceiver(sys'.receiver) && Helps(sys.receiver, sys'.receiver) && sys'.sender == sys.sender
  {
    LowestPartFiled(sys.receiver, sys.sender.hashmap, H, chunk, sample);
    PartLeaves(sys, chunk, sample, H);
  }

  lemma {:induction false} PartBringsNearer(sys: System, H: Chunk -> MapHash, sample: RateSample)
    requires AnswerSent(sys, H) && sys.receiver.cch + 1 < sys.receiver.height
    ensures Nearer(sys, Step(sys, Deliver(Wanted(sys), sample), H), H)
  {
    PartHelps(sys, H, sys.sender.parts[sys.receiver.cch + 1], sample);
    HelpIsNearer(sys, Deliver(Wanted(sys), sample), H);
  }

  lemma {:induction false} HashmapHelps(sys: System, H: Chunk -> MapHash, segment: nat)
    requires Transferable(sys.sender, H) && ReceiverInv(sys.receiver, sys.sender.hashmap, H) && sys.receiver.status == Transferring
    requires segment * HASHMAP_MAX_LEN == sys.receiver.height < |sys.sender.hashmap|
    ensures var sys' := DeliverHmu(sys, segment, HashmapSegment(sys.sender.hashmap, segment));
            ValidReceiver(sys'.receiver) && Helps(sys.receiver, sys'.receiver) && sys'.sender == sys.sender
  {
    var r, hm := sys.receiver, sys.sender.hashmap;
    var q := r.(retriesLeft := MAX_RETRIES);
    OtherFieldsFree(r, q, hm, H);
    HashmapUpdateKeeps(q, hm, H, segment);
    HashmapLeaves(sys, segment, HashmapSegment(hm, segment));
  }

  lemma {:induction false} HashmapBringsNearer(sys: System, H: Chunk -> MapHash, sample: RateSample)
    requires AnswerSent(sys, H) && sys.receiver.cch + 1 >= sys.receiver.height
    ensures Nearer(sys, Step(sys, Deliver(Wanted(sys), sample), H), H)
  {
    HashmapHelps(sys, H, sys.receiver.height / HASHMAP_MAX_LEN);
    HelpIsNearer(sys, Deliver(Wanted(sys), sample), H);
  }

  lemma {:induction false} HashmapLeaves(sys: System, segment: nat, hashes: seq<MapHash>)
    requires ValidReceiver(sys.receiver) && sys.receiver.status == Transferring && segment < 65536
    ensures var w, d := WithHashes(sys.receiver.(retriesLeft := MAX_RETRIES), segment, hashes), DeliverHmu(sys, segment, hashes).receiver;
            && d.parts == w.parts && d.hashmap == w.hashmap && d.height == w.height
            && d.receivedCount == w.receivedCount && d.retriesLeft == w.retriesLeft && d.status == Transferring
    ensures DeliverHmu(sys, segment, hashes).sender == sys.sender
  {
    HmuOutcome(sys, segment, hashes);
    NextAsks(WithHashes(sys.receiver.(retriesLeft := MAX_RETRIES), segment, hashes));
  }

  lemma {:induction false} NextAsks(r: Receiver)
    requires ValidReceiver(r)
    ensures var n := RequestNext(r).0;
            n.status == r.status && n.retriesLeft == r.retriesLeft && n.receivedCount == r.receivedCount
            && n.height == r.height && n.parts == r.parts && n.hashmap == r.hashmap && n.cch == r.cch
  {
  }

  /** Losing what is under way, a timeout, a request served and one response bring a viable transfer nearer to its end. */
  lemma {:induction false} Cycle(sys: System, H: Chunk -> MapHash, sample: RateSample) returns (events: seq<Event>)
    requires Viable(sys, H)
    ensures Nearer(sys, Onward(sys, events, H), H)
  {
    var lost := AllLost(sys, H);
    var sys0 := sys.(requests := []);
    assert SystemInv(sys0, H);
    TimeoutLeavesAsked(sys0, H);
    var sys1 := Step(sys0, ReceiverTimeout, H);
    ServingAnswers(sys1, H);
    var sys2 := Step(sys1, Serve, H);
    var e := Deliver(Wanted(sys2), sample);
    if sys2.receiver.cch + 1 < sys2.receiver.height {
      PartBringsNearer(sys2, H, sample);
    } else {
      HashmapBringsNearer(sys2, H, sample);
    }
    events := lost + [ReceiverTimeout, Serve, e];
    OnwardJoin(sys, lost, [ReceiverTimeout, Serve, e], H);
    ThreeSteps(sys0, ReceiverTimeout, Serve, e, H);
  }

  lemma {:induction false} ThreeSteps(sys: System, a: Event, b: Event, c: Event, H: Chunk -> MapHash)
    requires SystemInv(sys, H)
    ensures ValidSender(Step(sys, a, H).sender) && ValidReceiver(Step(sys, a, H).receiver)
    ensures var two := Step(Step(sys, a, H), b, H);
            ValidSender(two.sender) && ValidReceiver(two.receiver) && Onward(sys, [a, b, c], H) == Step(two, c, H)
  {
    StepKeeps(sys, a, H);
    StepKeeps(Step(sys, a, H), b, H);
    StepKeeps(Step(Step(sys, a, H), b, H), c, H);
    assert [a, b, c][1..] == [b, c] && [b, c][1..] == [c] && [c][1..] == [];
    assert Onward(Step(Step(sys, a, H), b, H), [c], H) == Step(Step(Step(sys, a, H), b, H), c, H);
    assert Onward(Step(sys, a, H), [b, c], H) == Onward(Step(Step(sys, a, H), b, H), [c], H);
  }

  lemma {:induction false} Completion(sys: System, H: Chunk -> MapHash, sample: RateSample) returns (events: seq<Event>)
    requires Viable(sys, H)
    ensures Onward(sys, events, H).receiver.status == Complete
    decreases if Lacks(sys.receiver) >= 0 then Lacks(sys.receiver) else 0
  {
    FullCount(sys.receiver, sys.sender.hashmap, H);
    events := Cycle(sys, H, sample);
    var sys' := Onward(sys, events, H);
    if sys'.receiver.status != Complete {
      FullCount(sys'.receiver, sys'.sender.hashmap, H);
      var rest := Completion(sys', H, sample);
      OnwardJoin(sys, events, rest, H);
      events := events + rest;
    }
  }

  /**
   Recovery: whatever has been lost, repeated and reordered, if the sender has not given up and
   the receiver is transferring with a retry left, then the run can be continued, at whatever
   rates, to one that completes.
   */
  lemma {:induction false} TransferRecovers(s: Sender, events: seq<Event>, H: Chunk -> MapHash, sample: RateSample) returns (more: seq<Event>)
    requires Transferable(s, H) && s.rmch == 0
    requires forall k :: 0 <= k < |s.parts| ==> H(s.parts[k]) == s.hashmap[k]
    requires var sys := Run(s, events, H);
             sys.sender.status != Failed && sys.receiver.status == Transferring && sys.receiver.retriesLeft > 0
    ensures Run(s, events + more, H).receiver.status == Complete
  {
    RunKeepsResource(s, events, H);
    RunIsOpen(s, events, H);
    more := Completion(Run(s, events, H), H, sample);
    RunOnward(s, events, more, H);
  }
}
