/**
 A transfer that hears nothing ends: how many expired watchdog ticks in a row each kind
 of resource survives, and that nothing brings a failed one back.
 */
module ResourceWatchdog {
  import opened Basics
  import opened ResourceModel

  function SenderTicks(s: Sender, ticks: nat): Sender
    decreases ticks
  {
    if ticks == 0 then s else SenderTicks(SenderExpired(s), ticks - 1)
  }

  function ReceiverTicks(r: Receiver, ticks: nat): (r': Receiver)
    requires ValidReceiver(r)
    ensures ValidReceiver(r')
    decreases ticks
  {
    if ticks == 0 then r else ReceiverTicks(ReceiverExpired(r).0, ticks - 1)
  }

  /** The expired ticks a resource in this state survives. */
  function SenderPatience(s: Sender): nat {
    if s.status == Transferring then 0 else s.retriesLeft
  }

  predicate Pending(s: Sender) {
    s.status == Advertised || s.status == Transferring || s.status == AwaitingProof
  }

  lemma {:induction false} FailedSenderStays(s: Sender, ticks: nat)
    requires s.status == Failed
    ensures SenderTicks(s, ticks) == s
  {
    if ticks > 0 {
      FailedSenderStays(SenderExpired(s), ticks - 1);
    }
  }

  /** A pending sender fails after exactly one expired tick more than its retries, or at once while transferring. */
  lemma {:induction false} StalledSenderFails(s: Sender, ticks: nat)
    requires Pending(s)
    ensures SenderTicks(s, ticks).status == Failed <==> ticks > SenderPatience(s)
    ensures ticks <= SenderPatience(s) ==> SenderTicks(s, ticks) == s.(retriesLeft := s.retriesLeft - ticks)
    decreases ticks
  {
    if ticks > 0 {
      if SenderExpired(s).status == Failed {
        FailedSenderStays(SenderExpired(s), ticks - 1);
      } else {
        StalledSenderFails(SenderExpired(s), ticks - 1);
      }
    }
  }

  lemma {:induction false} FailedReceiverStays(r: Receiver, ticks: nat)
    requires ValidReceiver(r) && r.status == Failed
    ensures ReceiverTicks(r, ticks) == r
  {
    if ticks > 0 {
      FailedReceiverStays(ReceiverExpired(r).0, ticks - 1);
    }
  }

  lemma {:induction false} OneReceiverTick(r: Receiver)
    requires ValidReceiver(r) && r.status == Transferring
    ensures var (r', request) := ReceiverExpired(r);
            if r.retriesLeft == 0 then r'.status == Failed
            else r'.status == Transferring && r'.retriesLeft == r.retriesLeft - 1 && request.Some?
  {
  }

  /** A receiver asks again on each of its retries and fails on the tick after the last, never earlier. */
  lemma {:induction false} StalledReceiverFails(r: Receiver, ticks: nat)
    requires ValidReceiver(r) && r.status == Transferring
    ensures ReceiverTicks(r, ticks).status == Failed <==> ticks > r.retriesLeft
    ensures ticks <= r.retriesLeft ==> ReceiverTicks(r, ticks).retriesLeft == r.retriesLeft - ticks
    ensures ticks < r.retriesLeft ==> ReceiverExpired(ReceiverTicks(r, ticks)).1.Some?
    decreases ticks
  {
    OneReceiverTick(r);
    if ticks > 0 {
      var r' := ReceiverExpired(r).0;
      if r'.status == Failed {
        FailedReceiverStays(r', ticks - 1);
      } else {
        StalledReceiverFails(r', ticks - 1);
      }
    }
  }

  /** cancel: a resource that has not come to an end fails. */
  function Cancelled(status: Status): Status {
    if status == Complete || status == Failed || status == Corrupt then status else Failed
  }

  /** rejected, on the sender: the original's REJECTED is the number of its NONE. */
  function Rejected(status: Status): Status {
    if status == Complete || status == Failed || status == Corrupt then status else Unset
  }

  /** A failed receiver takes no hashmap and asks for nothing. */
  lemma {:induction false} FailedIgnoresHashmap(r: Receiver, segment: nat, hashes: seq<MapHash>)
    requires ValidReceiver(r) && r.status == Failed
    ensures HashmapUpdate(r, segment, hashes) == (r, None) && HashmapUpdatePacket(r, segment, hashes) == (r, None)
  {
  }

  datatype SenderEvent = Asked(request: Request) | Proved(proof: Chunk, expected: Chunk) | SenderTick | SenderCancel | Refused

  datatype ReceiverEvent =
    | GotPart(hash: MapHash, chunk: Chunk, sample: RateSample)
    | GotHashmap(segment: nat, hashes: seq<MapHash>)
    | ReceiverTick
    | ReceiverCancel

  function SenderAfter(s: Sender, events: seq<SenderEvent>): Sender
    requires ValidSender(s)
    decreases |events|
  {
    if events == [] then s
    else
      var s' := match events[0]
        case Asked(request) => SenderRequest(s, request).0
        case Proved(proof, expected) => ValidateProof(s, proof, expected)
        case SenderTick => SenderExpired(s)
        case SenderCancel => s.(status := Cancelled(s.status))
        case Refused => s.(status := Rejected(s.status));
      SenderAfter(s', events[1..])
  }

  function ReceiverAfter(r: Receiver, events: seq<ReceiverEvent>): Receiver
    requires ValidReceiver(r)
    decreases |events|
  {
    if events == [] then r
    else
      var r' := match events[0]
        case GotPart(hash, chunk, sample) => ReceivePart(r, hash, chunk, sample).receiver
        case GotHashmap(segment, hashes) => HashmapUpdatePacket(r, segment, hashes).0
        case ReceiverTick => ReceiverExpired(r).0
        case ReceiverCancel => r.(status := Cancelled(r.status));
      ReceiverAfter(r', events[1..])
  }

  lemma {:induction false} SenderIsFinal(s: Sender, events: seq<SenderEvent>)
    requires ValidSender(s) && s.status == Failed
    ensures SenderAfter(s, events) == s
    decreases |events|
  {
    if events != [] {
      SenderIsFinal(s, events[1..]);
    }
  }

  lemma {:induction false} ReceiverIsFinal(r: Receiver, events: seq<ReceiverEvent>)
    requires ValidReceiver(r) && r.status == Failed
    ensures ReceiverAfter(r, events).status == Failed && ReceiverAfter(r, events).parts == r.parts
    decreases |events|
  {
    if events != [] {
      var r' := match events[0]
        case GotPart(hash, chunk, sample) => ReceivePart(r, hash, chunk, sample).receiver
        case GotHashmap(segment, hashes) => HashmapUpdatePacket(r, segment, hashes).0
        case ReceiverTick => ReceiverExpired(r).0
        case ReceiverCancel => r.(status := Cancelled(r.status));
      ReceiverIsFinal(r', events[1..]);
    }
  }

  /** Failed is final: no sequence of packets, ticks, cancellations and rejections changes anything but the retry and rate counters. */
  lemma {:induction false} FailedIsFinal(s: Sender, r: Receiver, sent: seq<SenderEvent>, got: seq<ReceiverEvent>)
    requires ValidSender(s) && s.status == Failed
    requires ValidReceiver(r) && r.status == Failed
    ensures SenderAfter(s, sent) == s
    ensures ReceiverAfter(r, got).status == Failed && ReceiverAfter(r, got).parts == r.parts
  {
    SenderIsFinal(s, sent);
    ReceiverIsFinal(r, got);
  }

  predicate Ended(status: Status) {
    status in {Complete, Failed, Corrupt}
  }

  /**
   cancel puts an end to an unfinished resource, for good, whatever comes after it; a
   finished one keeps its status, and so it does when a rejection comes late. A sender
   rejected in time is back at the status of one never advertised.
   */
  lemma {:induction false} CancelEnds(s: Sender, r: Receiver, sent: seq<SenderEvent>, got: seq<ReceiverEvent>)
    requires ValidSender(s) && ValidReceiver(r)
    ensures if Ended(s.status) then SenderAfter(s, [SenderCancel]) == s == SenderAfter(s, [Refused])
            else SenderAfter(s, [SenderCancel] + sent) == s.(status := Failed) && SenderAfter(s, [Refused]) == s.(status := Unset)
    ensures if Ended(r.status) then ReceiverAfter(r, [ReceiverCancel]) == r
            else ReceiverAfter(r, [ReceiverCancel] + got).status == Failed && ReceiverAfter(r, [ReceiverCancel] + got).parts == r.parts
  {
    if !Ended(s.status) {
      assert ([SenderCancel] + sent)[1..] == sent;
      SenderIsFinal(s.(status := Failed), sent);
    }
    if !Ended(r.status) {
      assert ([ReceiverCancel] + got)[1..] == got;
      ReceiverIsFinal(r.(status := Failed), got);
    }
  }
}
