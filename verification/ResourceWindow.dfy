/**
 The window of a resource against its limit window_max. A round that turns out to be the
 second very slow one lowers the limit without looking at the window, and nothing else
 does; so the window can be over its limit, and this says exactly when.
 */
module ResourceWindow {
  import opened Basics
  import opened ResourceModel
  import opened ResourceReceiver
  import opened ResourceSystem
  import opened ResourceLossless
  import opened ResourceWatchdog

  predicate WithinLimit(r: Receiver) { r.window <= r.windowMax }

  /** The round lowers the limit below the window. */
  predicate LimitDrops(r: Receiver, sample: RateSample) {
    && r.fastRounds == 0 && !sample.roundFast && sample.roundVerySlow
    && r.slowRounds + 1 == VERY_SLOW_RATE_THRESHOLD && WidenWindow(r).window > WINDOW_MAX_VERY_SLOW
  }

  /** The end of a round takes the window over its limit if and only if it lowers the limit. */
  lemma {:induction false} RoundExceedsExactlyWhen(r: Receiver, sample: RateSample)
    requires WindowBand(r) && WithinLimit(r)
    ensures !WithinLimit(NextRound(r, sample)) <==> LimitDrops(r, sample)
  {
  }

  lemma {:induction false} OthersStayWithin(r: Receiver, fast: bool)
    requires WindowBand(r) && WithinLimit(r)
    ensures WithinLimit(NarrowWindow(r)) && WithinLimit(CountFast(r, fast))
  {
  }

  lemma {:induction false} FilingKeepsWindow(r: Receiver, hash: MapHash, chunk: Chunk, j: nat, end: nat)
    requires ValidReceiver(r) && j <= end <= |r.parts|
    ensures var f := FileFrom(r, hash, chunk, j, end);
            f.window == r.window && f.windowMax == r.windowMax && f.windowMin == r.windowMin
            && f.fastRounds == r.fastRounds && f.slowRounds == r.slowRounds && f.status == r.status
    decreases end - j
  {
    if j < end {
      if r.hashmap[j] == hash && r.parts[j].None? {
        AdvanceStays(FileAt(r, chunk, j).parts, if j == r.cch + 1 then j else r.cch);
        FilingKeepsWindow(FileAt(r, chunk, j), hash, chunk, j + 1, end);
      } else {
        FilingKeepsWindow(r, hash, chunk, j + 1, end);
      }
    }
  }

  /** Any part at all: the window goes over its limit exactly if the part ends a round that lowers the limit. */
  lemma {:induction false} PartExceedsExactlyWhen(r: Receiver, hash: MapHash, chunk: Chunk, sample: RateSample)
    requires ValidReceiver(r) && WindowBand(r) && WithinLimit(r)
    ensures var f := FilePart(Searching(r, sample), hash, chunk);
            !WithinLimit(ReceivePart(r, hash, chunk, sample).receiver) <==>
              r.status != Failed && f.receivedCount != |f.parts| && f.outstanding == 0
              && LimitDrops(CountFast(r, sample.responseFast), sample)
  {
    var q := Searching(r, sample);
    var f := FilePart(q, hash, chunk);
    var start := Min(SearchStart(q), |q.parts|);
    FilingKeepsWindow(q, hash, chunk, start, Min(start + q.window, |q.parts|));
    OthersStayWithin(r, sample.responseFast);
    WindowStaysInBand(r, sample);
    RoundExceedsExactlyWhen(f, sample);
  }

  /** A timeout never takes the window over its limit. */
  lemma {:induction false} TimeoutStaysWithin(r: Receiver)
    requires ValidReceiver(r) && WindowBand(r) && WithinLimit(r)
    ensures WithinLimit(ReceiverExpired(r).0)
  {
    OthersStayWithin(r, false);
  }

  // --------------------------------------------------------- what a timeout does

  /** A survived timeout takes one slot off a window above its minimum, and one or two off the limit. */
  lemma {:induction false} TimeoutNarrows(r: Receiver)
    requires ValidReceiver(r) && r.status == Transferring && r.retriesLeft > 0
    ensures var n := ReceiverExpired(r).0;
            && n.windowMin == r.windowMin
            && (r.window <= r.windowMin ==> n.window == r.window && n.windowMax == r.windowMax)
            && (r.window > r.windowMin ==>
                  && n.window == r.window - 1
                  && n.windowMax == if r.windowMax <= r.windowMin then r.windowMax
                                    else if r.windowMax - r.window > 3 then r.windowMax - 2
                                    else r.windowMax - 1)
  {
  }

  /** After so many survived timeouts in a row the window is as many slots smaller, down to its minimum. */
  lemma {:induction false} TimeoutsNarrow(r: Receiver, ticks: nat)
    requires ValidReceiver(r) && WindowBand(r) && r.status == Transferring && ticks <= r.retriesLeft
    ensures var n := ReceiverTicks(r, ticks);
            n.windowMin == r.windowMin && n.window == Max(r.windowMin, r.window - ticks)
    decreases ticks
  {
    if ticks > 0 {
      var next := ReceiverExpired(r).0;
      TimeoutNarrows(r);
      OneReceiverTick(r);
      WindowStaysInBand(r, Slow);
      TimeoutsNarrow(next, ticks - 1);
    }
  }

  // --------------------------------------------------------- what rates do

  /** A receiver after rounds of these rates, with nothing said about its parts. */
  function AfterRounds(r: Receiver, samples: seq<RateSample>): Receiver
    decreases |samples|
  {
    if samples == [] then r else AfterRounds(NextRound(r, samples[0]), samples[1..])
  }

  function FastOnes(samples: seq<RateSample>): nat
    decreases |samples|
  {
    if samples == [] then 0 else (if samples[0].roundFast then 1 else 0) + FastOnes(samples[1..])
  }

  /** The fourth fast round raises the limit to 75, none before does, and none after raises it again. */
  lemma {:induction false} FastRoundsCount(r: Receiver, samples: seq<RateSample>)
    requires r.fastRounds <= FAST_RATE_THRESHOLD && forall i :: 0 <= i < |samples| ==> !samples[i].roundVerySlow
    ensures var n := AfterRounds(r, samples);
            && n.fastRounds == Min(r.fastRounds + FastOnes(samples), 4)
            && n.windowMax == (if r.fastRounds < 4 <= r.fastRounds + FastOnes(samples) then 75 else r.windowMax)
            && n.slowRounds == r.slowRounds
    decreases |samples|
  {
    if samples != [] {
      FastRoundsCount(NextRound(r, samples[0]), samples[1..]);
    }
  }

  function SlowOnes(samples: seq<RateSample>): nat
    decreases |samples|
  {
    if samples == [] then 0 else (if samples[0].roundVerySlow then 1 else 0) + SlowOnes(samples[1..])
  }

  /** While no round is fast, the second very slow one lowers the limit to 4, and no other round moves it. */
  lemma {:induction false} SlowRoundsCount(r: Receiver, samples: seq<RateSample>)
    requires r.fastRounds == 0 && r.slowRounds <= VERY_SLOW_RATE_THRESHOLD && forall i :: 0 <= i < |samples| ==> !samples[i].roundFast
    ensures var n := AfterRounds(r, samples);
            && n.slowRounds == Min(r.slowRounds + SlowOnes(samples), 2) && n.fastRounds == 0
            && n.windowMax == (if r.slowRounds < 2 <= r.slowRounds + SlowOnes(samples) then 4 else r.windowMax)
    decreases |samples|
  {
    if samples != [] {
      SlowRoundsCount(NextRound(r, samples[0]), samples[1..]);
    }
  }

  /** Once a round has been fast, very slow ones are not counted any more. */
  lemma {:induction false} FastExcludesSlow(r: Receiver, sample: RateSample)
    requires r.fastRounds > 0 || sample.roundFast
    ensures NextRound(r, sample).slowRounds == r.slowRounds
    ensures NextRound(r, sample).windowMax >= r.windowMax || NextRound(r, sample).windowMax == 75
  {
  }

  /** Every round widens the window by one slot below its limit, and lifts its minimum to stay within three of it. */
  lemma {:induction false} RoundWidens(r: Receiver, sample: RateSample)
    requires WindowBand(r)
    ensures NextRound(r, sample).window == if r.window < r.windowMax then r.window + 1 else r.window
    ensures NextRound(r, sample).windowMin == if r.window < r.windowMax && r.window - r.windowMin == 3 then r.windowMin + 1 else r.windowMin
  {
  }

  // ------------------------------------------------------------- it does happen

  const Slow := RateSample(false, false, true)

  /** In the first round, or in the second after a very slow first, with this round's parts still to come. */
  predicate Early(r: Receiver) {
    && r.status == Transferring && |r.parts| >= 9 && r.height >= 9 && !r.waitingForHmu
    && r.windowMax == WINDOW_MAX_SLOW && r.fastRounds == 0 && r.outstanding > 0
    && ((r.slowRounds == 0 && r.window == 4 && r.cch + 1 + r.outstanding == 4)
        || (r.slowRounds == 1 && r.window == 5 && r.cch + 1 + r.outstanding == 9))
  }

  predicate EarlyRound(t: Session) { Early(t.sys.receiver) }

  lemma {:induction false} RequestKeepsRound(res: Resource, t: Session)
    requires Sound(res) && SessionInv(res, t) && Requesting(t) && EarlyRound(t)
    ensures SessionInv(res, SessionStep(res, t, DeliverRequest)) && EarlyRound(SessionStep(res, t, DeliverRequest))
  {
    StepProgress(res, t, DeliverRequest);
  }

  /** The receiver after the next part of a very slow round. */
  lemma {:induction false} SlowPart(res: Resource, t: Session) returns (f: Receiver)
    requires Sound(res) && SessionInv(res, t) && Answering(t) && EarlyRound(t) && t.sys.receiver.cch + 2 < |t.sys.receiver.parts|
    ensures FiledNext(t, f) && ReceiverInv(f, t.sys.sender.hashmap, res.crypto.mapHash) && f.receivedCount != |f.parts|
    ensures var r := t.sys.receiver;
            f.window == r.window && f.windowMax == r.windowMax && f.fastRounds == r.fastRounds && f.slowRounds == r.slowRounds
    ensures var t' := SessionStep(res, t, DeliverResponse(Slow));
            t'.sys.receiver == if f.outstanding > 0 then f else RequestNext(NextRound(f, Slow)).0
  {
    var q := Searching(t.sys.receiver, Slow);
    f := DeliverNext(res, t, Slow);
    var start := Min(SearchStart(q), |q.parts|);
    FilingKeepsWindow(q, res.crypto.mapHash(t.inbox[0].chunk), t.inbox[0].chunk, start, Min(start + q.window, |q.parts|));
    PartSession(res, t, Slow, f);
  }

  /** The next round asks for as many parts as the window has slots. */
  lemma {:induction false} AsksForWindow(s: Sender, g: Receiver, H: Chunk -> MapHash)
    requires ValidSender(s) && Distinct(s.hashmap) && |g.parts| == |s.parts| && ReceiverInv(g, s.hashmap, H)
    requires InOrder(s, g) && g.status == Transferring && !g.waitingForHmu
    requires g.cch + 1 + g.window <= g.height
    ensures RequestNext(g).0 == g.(outstanding := g.window)
  {
    RequestNextMeaning(g, s.hashmap, H);
    InOrderMissing(s, g, g.cch + 1, g.cch + 1 + g.window);
  }

  /** The last part of such a round. */
  lemma {:induction false} RoundEnds(s: Sender, f: Receiver, H: Chunk -> MapHash)
    requires ValidSender(s) && Distinct(s.hashmap) && |f.parts| == |s.parts| && ReceiverInv(f, s.hashmap, H)
    requires InOrder(s, f) && f.outstanding == 0 && Early(f.(outstanding := 1, cch := f.cch - 1))
    ensures var r := RequestNext(NextRound(f, Slow)).0;
            if f.slowRounds == 0 then Early(r) else !WithinLimit(r)
  {
    var g := NextRound(f, Slow);
    WindowStaysInBand(f, Slow);
    OtherFieldsFree(f, g, s.hashmap, H);
    if f.slowRounds == 0 {
      AsksForWindow(s, g, H);
    }
  }

  lemma {:induction false} PartKeepsRound(res: Resource, t: Session)
    requires Sound(res) && SessionInv(res, t) && Answering(t) && EarlyRound(t) && t.sys.receiver.cch + 2 < |t.sys.receiver.parts|
    ensures var t' := SessionStep(res, t, DeliverResponse(Slow));
            && SessionInv(res, t') && (EarlyRound(t') || !WithinLimit(t'.sys.receiver))
            && (t.sys.receiver.slowRounds == 0 ==> EarlyRound(t')) && |t'.sys.receiver.parts| == |t.sys.receiver.parts|
  {
    StepProgress(res, t, DeliverResponse(Slow));
    var f := SlowPart(res, t);
    if f.outstanding == 0 {
      RoundEnds(t.sys.sender, f, res.crypto.mapHash);
    }
  }

  lemma {:induction false} SlowRoundsExceed(res: Resource, t: Session) returns (schedule: seq<Delivery>)
    requires Sound(res) && SessionInv(res, t) && EarlyRound(t) && |t.sys.receiver.parts| >= 10
    ensures FeasibleFrom(res, t, schedule) && !WithinLimit(FinalFrom(res, t, schedule).sys.receiver)
    decreases Measure(t)
  {
    var d := if Requesting(t) then DeliverRequest else DeliverResponse(Slow);
    StepProgress(res, t, d);
    var t' := SessionStep(res, t, d);
    if Requesting(t) {
      RequestKeepsRound(res, t);
    } else {
      PartKeepsRound(res, t);
    }
    var rest := [];
    if EarlyRound(t') {
      rest := SlowRoundsExceed(res, t');
    }
    schedule := [d] + rest;
    assert schedule[1..] == rest;
  }

  lemma {:induction false} StartsEarly(res: Resource)
    requires Sound(res) && |Slices(Stream(res), res.sdu)| >= 9
    ensures SessionInv(res, Initial(res)) && EarlyRound(Initial(res))
    ensures |Initial(res).sys.receiver.parts| == |Slices(Stream(res), res.sdu)| && Initial(res).sys.receiver.slowRounds == 0
  {
    InitialHolds(res);
    var s, H := StartSender(res), res.crypto.mapHash;
    var a := Accepted(|s.parts|);
    var g := WithHashes(a, 0, HashmapSegment(s.hashmap, 0));
    AcceptedHolds(s.hashmap, H);
    HashmapUpdateKeeps(a, s.hashmap, H, 0);
    AsksForWindow(s, g, H);
  }

  /** In the transfer of any resource of ten parts or more, two very slow rounds to begin with take the window over its limit. */
  lemma {:induction false} WindowExceedsItsLimit(res: Resource) returns (schedule: seq<Delivery>)
    requires Sound(res) && |Slices(Stream(res), res.sdu)| >= 10
    ensures Feasible(res, schedule) && !WithinLimit(Final(res, schedule).sys.receiver)
  {
    StartsEarly(res);
    schedule := SlowRoundsExceed(res, Initial(res));
  }

  // ------------------------------------------------------ what is asked and found

  /**
   A request asks for the window after the filled prefix, but a part is searched for in a
   window that starts with the prefix's last slot. A part that was asked for is filed if and
   only if its slot is not the last of the window asked for, or nothing is filled yet.
   */
  lemma {:induction false} AskedPartFiledExactlyWhen(r: Receiver, hm: seq<MapHash>, H: Chunk -> MapHash, chunk: Chunk, i: nat)
    requires ReceiverInv(r, hm, H) && Distinct(hm) && r.status != Failed
    requires r.cch + 1 <= i < r.cch + 1 + r.window && i < r.height && r.parts[i].None? && H(chunk) == hm[i]
    ensures FilePart(r, H(chunk), chunk).parts[i].Some? <==> i < r.cch + r.window || r.cch < 0
    ensures !(i < r.cch + r.window || r.cch < 0) ==> FilePart(r, H(chunk), chunk) == r
  {
    var start := Min(SearchStart(r), |r.parts|);
    FileFromHits(r, hm, H, chunk, i, start, Min(start + r.window, |r.parts|));
  }

  /** The second round has been answered and nothing of it delivered. */
  ghost predicate SecondRound(t: Session)
    requires WellFormed(t) && |t.sys.receiver.parts| == |t.sys.sender.parts|
  {
    Answering(t) && EarlyRound(t) && t.sys.receiver.cch == 3
  }

  lemma {:induction false} ReachesSecondRound(res: Resource, t: Session) returns (schedule: seq<Delivery>)
    requires Sound(res) && SessionInv(res, t) && EarlyRound(t)
    requires t.sys.receiver.slowRounds == 0 || t.sys.receiver.cch == 3
    ensures FeasibleFrom(res, t, schedule)
    ensures var t' := FinalFrom(res, t, schedule);
            |t'.sys.receiver.parts| == |t'.sys.sender.parts| && SecondRound(t')
    decreases Measure(t)
  {
    if Answering(t) && t.sys.receiver.cch == 3 {
      schedule := [];
    } else {
      var d := if Requesting(t) then DeliverRequest else DeliverResponse(Slow);
      StepProgress(res, t, d);
      if Requesting(t) {
        RequestKeepsRound(res, t);
      } else {
        PartKeepsRound(res, t);
        FirstRoundEndsAtFour(res, t);
      }
      var rest := ReachesSecondRound(res, SessionStep(res, t, d));
      schedule := [d] + rest;
      assert schedule[1..] == rest;
    }
  }

  lemma {:induction false} FirstRoundEndsAtFour(res: Resource, t: Session)
    requires Sound(res) && SessionInv(res, t) && Answering(t) && EarlyRound(t) && t.sys.receiver.slowRounds == 0
    requires EarlyRound(SessionStep(res, t, DeliverResponse(Slow)))
    ensures var r := SessionStep(res, t, DeliverResponse(Slow)).sys.receiver;
            r.slowRounds == 0 || r.cch == 3
  {
    var f := SlowPart(res, t);
    if f.outstanding == 0 {
      RequestKeepsCch(NextRound(f, Slow));
    }
  }

  lemma {:induction false} RequestKeepsCch(r: Receiver)
    requires ValidReceiver(r)
    ensures RequestNext(r).0.cch == r.cch && RequestNext(r).0.slowRounds == r.slowRounds
  {
  }

  /** In the second round the last part asked for, if it comes first, changes nothing that is filed. */
  lemma {:induction false} LastPartComesFirst(res: Resource, t: Session, sample: RateSample)
    requires SessionInv(res, t) && SecondRound(t)
    ensures |t.sys.sender.parts| >= 9 && Part(t.sys.sender.parts[8]) in t.sys.responses
    ensures DeliverPart(t.sys, t.sys.sender.parts[8], sample, res.crypto.mapHash).receiver.parts == t.sys.receiver.parts
  {
    var H, s, r := res.crypto.mapHash, t.sys.sender, t.sys.receiver;
    var q := Searching(r, sample);
    LastIsAnswered(t);
    OtherFieldsFree(r, q, s.hashmap, H);
    AskedPartFiledExactlyWhen(q, s.hashmap, H, s.parts[8], 8);
    PartOutcome(t.sys, s.parts[8], sample, H);
  }

  lemma {:induction false} LastIsAnswered(t: Session)
    requires WellFormed(t) && |t.sys.receiver.parts| == |t.sys.sender.parts| && SecondRound(t)
    requires forall x :: x in t.inbox ==> x in t.sys.responses
    ensures |t.sys.sender.parts| >= 9 && Part(t.sys.sender.parts[8]) in t.sys.responses
  {
    assert t.inbox[4] == Part(t.sys.sender.parts[8]);
  }

  /**
   A transfer of nine parts or more can be where that happens: from the start it reaches the
   second round, which asks for part 8; the sender sends it; and if it comes first, whatever
   the rates, the receiver does not file it.
   */
  lemma {:induction false} AskedPartCanBeDropped(res: Resource) returns (schedule: seq<Delivery>)
    requires Sound(res) && |Slices(Stream(res), res.sdu)| >= 9
    ensures Feasible(res, schedule)
    ensures var sys := Final(res, schedule).sys;
            && |sys.sender.parts| >= 9 && sys.receiver.cch == 3 && sys.receiver.outstanding == 5 && sys.receiver.window == 5
            && Part(sys.sender.parts[8]) in sys.responses
            && forall sample :: DeliverPart(sys, sys.sender.parts[8], sample, res.crypto.mapHash).receiver.parts == sys.receiver.parts
  {
    StartsEarly(res);
    schedule := ReachesSecondRound(res, Initial(res));
    var t := Final(res, schedule);
    forall sample: RateSample
      ensures DeliverPart(t.sys, t.sys.sender.parts[8], sample, res.crypto.mapHash).receiver.parts == t.sys.receiver.parts
    {
      LastPartComesFirst(res, t, sample);
    }
    LastPartComesFirst(res, t, Slow);
  }
}
