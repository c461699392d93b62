/**
 Packets over a LoRa radio: those too long for a frame go out as two, which share a
 three-bit sequence number. The channel may lose any frame and keeps the order of the rest.
 */
module LoRa {
  import opened Basics

  const MAX_PAYLOAD: nat := 254
  const HW_MTU: nat := 508
  const SEQUENCES: nat := 8

  datatype Frame<T> = Frame(split: bool, seqNo: nat, payload: seq<T>)
  datatype Receiver<T> = Receiver(rxSeq: Option<nat>, buffer: seq<T>)
  datatype Heard<T> = Heard(receiver: Receiver<T>, delivered: seq<seq<T>>)

  // ------------------------------------------------------------- both ends

  predicate IsSplit<T>(packet: seq<T>) { |packet| > MAX_PAYLOAD }

  /** send_outgoing. */
  function FramesOf<T>(packet: seq<T>, seqNo: nat): seq<Frame<T>> {
    if IsSplit(packet)
    then [Frame(true, seqNo, packet[..MAX_PAYLOAD]), Frame(true, seqNo, packet[MAX_PAYLOAD..])]
    else [Frame(false, 0, packet)]
  }

  /** loop, on one received frame. */
  function Hear<T>(r: Receiver<T>, f: Frame<T>): Heard<T> {
    if !f.split then Heard(Receiver(None, f.payload), [f.payload])
    else if r.rxSeq != Some(f.seqNo) then Heard(Receiver(Some(f.seqNo), f.payload), [])
    else Heard(Receiver(None, r.buffer + f.payload), [r.buffer + f.payload])
  }

  function HearAll<T>(r: Receiver<T>, frames: seq<Frame<T>>): Heard<T>
    decreases |frames|
  {
    if frames == [] then Heard(r, [])
    else
      var one := Hear(r, frames[0]);
      var rest := HearAll(one.receiver, frames[1..]);
      Heard(rest.receiver, one.delivered + rest.delivered)
  }

  // --------------------------------------------------------------- channel

  /** Which frames of a packet arrive; a packet in one frame has only the first. */
  datatype Fate = Fate(first: bool, second: bool)

  function Kept<T>(packet: seq<T>, seqNo: nat, fate: Fate): seq<Frame<T>> {
    var frames := FramesOf(packet, seqNo);
    (if fate.first then frames[..1] else []) + (if fate.second then frames[1..] else [])
  }

  predicate Silent<T>(packet: seq<T>, fate: Fate) { !fate.first && (IsSplit(packet) ==> !fate.second) }

  predicate Whole<T>(packet: seq<T>, fate: Fate) { fate.first && (IsSplit(packet) ==> fate.second) }

  predicate Broken<T>(packet: seq<T>, fate: Fate) { IsSplit(packet) && fate.first != fate.second }

  /** The sequence counter after a packet. */
  function Next<T>(packet: seq<T>, counter: nat): nat { if IsSplit(packet) then counter + 1 else counter }

  /** What the receiver passes up while packets k and on are sent. */
  function Delivered<T>(packets: seq<seq<T>>, fates: seq<Fate>, k: nat, counter: nat, r: Receiver<T>): seq<seq<T>>
    requires |fates| == |packets| && k <= |packets|
    decreases |packets| - k
  {
    if k == |packets| then []
    else
      var heard := HearAll(r, Kept(packets[k], counter % SEQUENCES, fates[k]));
      heard.delivered + Delivered(packets, fates, k + 1, Next(packets[k], counter), heard.receiver)
  }

  /** The packets that arrived with every frame. */
  function Complete<T>(packets: seq<seq<T>>, fates: seq<Fate>, k: nat): seq<seq<T>>
    requires |fates| == |packets| && k <= |packets|
    decreases |packets| - k
  {
    if k == |packets| then []
    else (if Whole(packets[k], fates[k]) then [packets[k]] else []) + Complete(packets, fates, k + 1)
  }

  // ----------------------------------------------------------- confusion

  /** Split packets among a .. b. */
  function Splits<T>(packets: seq<seq<T>>, a: nat, b: nat): nat
    requires a <= b <= |packets|
    decreases b - a
  {
    if a == b then 0 else (if IsSplit(packets[a]) then 1 else 0) + Splits(packets, a + 1, b)
  }

  ghost predicate SilentBetween<T>(packets: seq<seq<T>>, fates: seq<Fate>, a: nat, b: nat)
    requires |fates| == |packets| && b <= |packets|
  {
    forall x :: a <= x < b ==> Silent(packets[x], fates[x])
  }

  /**
   Packets j and i are confused: one frame of j arrives, then nothing until a frame of i, and
   the sequence numbers have come full circle in between.
   */
  ghost predicate Confused<T>(packets: seq<seq<T>>, fates: seq<Fate>, j: nat, i: nat)
    requires |fates| == |packets|
  {
    j < i < |packets| && Broken(packets[j], fates[j]) && Meets(packets, fates, j + 1, i, 0)
  }

  /** A split packet i heard first from k on, when lost split packets have gone by before k. */
  ghost predicate Meets<T>(packets: seq<seq<T>>, fates: seq<Fate>, k: nat, i: nat, lost: nat)
    requires |fates| == |packets| && k <= i < |packets|
  {
    && IsSplit(packets[i]) && !Silent(packets[i], fates[i]) && SilentBetween(packets, fates, k, i)
    && (lost + Splits(packets, k, i)) % SEQUENCES == SEQUENCES - 1
  }

  ghost predicate Confusion<T>(packets: seq<seq<T>>, fates: seq<Fate>, k: nat)
    requires |fates| == |packets|
  {
    exists j, i :: k <= j < i < |packets| && Confused(packets, fates, j, i)
  }

  ghost predicate Meeting<T>(packets: seq<seq<T>>, fates: seq<Fate>, k: nat, lost: nat)
    requires |fates| == |packets|
  {
    exists i :: k <= i < |packets| && Meets(packets, fates, k, i, lost)
  }

  /** Confusion from k on, with a broken packet possibly pending. */
  ghost predicate Trouble<T>(packets: seq<seq<T>>, fates: seq<Fate>, k: nat, lost: Option<nat>)
    requires |fates| == |packets|
  {
    (lost.Some? && Meeting(packets, fates, k, lost.value)) || Confusion(packets, fates, k)
  }

  // -------------------------------------------------------- receiver state

  /** The number of split packets wholly lost since a broken one is pending at the receiver. */
  ghost predicate Pending<T>(r: Receiver<T>, counter: nat, lost: Option<nat>) {
    match lost
    case None => r.rxSeq.None?
    case Some(n) => r.rxSeq.Some? && r.rxSeq.value < SEQUENCES && (r.rxSeq.value + n + 1) % SEQUENCES == counter % SEQUENCES
  }

  /** How the number changes with a packet. */
  function Account<T>(packet: seq<T>, fate: Fate, lost: Option<nat>): Option<nat> {
    if Silent(packet, fate) then
      if lost.Some? && IsSplit(packet) then Some(lost.value + 1) else lost
    else if Broken(packet, fate) then Some(0)
    else None
  }

  predicate Clashes<T>(packet: seq<T>, fate: Fate, lost: Option<nat>) {
    IsSplit(packet) && !Silent(packet, fate) && lost.Some? && lost.value % SEQUENCES == SEQUENCES - 1
  }

  /** A packet that does not clash is passed up exactly if it is whole. */
  lemma {:induction false} OnePacket<T>(packet: seq<T>, fate: Fate, counter: nat, r: Receiver<T>, lost: Option<nat>)
    requires |packet| <= HW_MTU && Pending(r, counter, lost) && !Clashes(packet, fate, lost)
    ensures var heard := HearAll(r, Kept(packet, counter % SEQUENCES, fate));
            && heard.delivered == (if Whole(packet, fate) then [packet] else [])
            && Pending(heard.receiver, Next(packet, counter), Account(packet, fate, lost))
  {
    var seqNo := counter % SEQUENCES;
    var frames := FramesOf(packet, seqNo);
    if IsSplit(packet) {
      SequenceClash(r, counter, lost);
      assert packet[..MAX_PAYLOAD] + packet[MAX_PAYLOAD..] == packet;
      if fate.first && fate.second {
        assert Kept(packet, seqNo, fate) == frames;
        HearTwo(r, frames[0], frames[1]);
      } else if fate.first {
        assert Kept(packet, seqNo, fate) == [frames[0]];
        HearOne(r, frames[0]);
      } else if fate.second {
        assert Kept(packet, seqNo, fate) == [frames[1]];
        HearOne(r, frames[1]);
      }
    } else if fate.first {
      assert Kept(packet, seqNo, fate) == [frames[0]];
      HearOne(r, frames[0]);
    } else {
      assert Kept(packet, seqNo, fate) == [];
    }
  }

  lemma {:induction false} SequenceClash<T>(r: Receiver<T>, counter: nat, lost: Option<nat>)
    requires Pending(r, counter, lost)
    ensures r.rxSeq == Some(counter % SEQUENCES) <==> lost.Some? && lost.value % SEQUENCES == SEQUENCES - 1
  {
  }

  lemma {:induction false} HearOne<T>(r: Receiver<T>, f: Frame<T>)
    ensures HearAll(r, [f]) == Hear(r, f)
  {
    assert [f][1..] == [];
    assert Hear(r, f).delivered + [] == Hear(r, f).delivered;
  }

  lemma {:induction false} HearTwo<T>(r: Receiver<T>, f: Frame<T>, g: Frame<T>)
    ensures var one := Hear(r, f);
            var two := Hear(one.receiver, g);
            HearAll(r, [f, g]) == Heard(two.receiver, one.delivered + two.delivered)
  {
    assert [f, g][1..] == [g];
    HearOne(Hear(r, f).receiver, g);
  }

  // -------------------------------------------------------------- theorems

  lemma {:induction false} MeetingStep<T>(packets: seq<seq<T>>, fates: seq<Fate>, k: nat, lost: nat)
    requires |fates| == |packets| && k < |packets|
    ensures Meeting(packets, fates, k, lost) <==>
              if Silent(packets[k], fates[k]) then Meeting(packets, fates, k + 1, if IsSplit(packets[k]) then lost + 1 else lost)
              else Clashes(packets[k], fates[k], Some(lost))
  {
    var next := if IsSplit(packets[k]) then lost + 1 else lost;
    forall i | k < i < |packets|
      ensures Meets(packets, fates, k, i, lost) <==> Silent(packets[k], fates[k]) && Meets(packets, fates, k + 1, i, next)
    {
      assert SilentBetween(packets, fates, k, i) <==> Silent(packets[k], fates[k]) && SilentBetween(packets, fates, k + 1, i);
    }
    assert Meets(packets, fates, k, k, lost) <==> Clashes(packets[k], fates[k], Some(lost));
    if Meeting(packets, fates, k, lost) {
      var i :| k <= i < |packets| && Meets(packets, fates, k, i, lost);
    }
    if Silent(packets[k], fates[k]) && Meeting(packets, fates, k + 1, next) {
      var i :| k + 1 <= i < |packets| && Meets(packets, fates, k + 1, i, next);
      assert Meets(packets, fates, k, i, lost);
    }
  }

  lemma {:induction false} ConfusionStep<T>(packets: seq<seq<T>>, fates: seq<Fate>, k: nat)
    requires |fates| == |packets| && k < |packets|
    ensures Confusion(packets, fates, k) <==>
              (Broken(packets[k], fates[k]) && Meeting(packets, fates, k + 1, 0)) || Confusion(packets, fates, k + 1)
  {
    if Broken(packets[k], fates[k]) && Meeting(packets, fates, k + 1, 0) {
      var i :| k + 1 <= i < |packets| && Meets(packets, fates, k + 1, i, 0);
      assert Confused(packets, fates, k, i);
    }
    if Confusion(packets, fates, k) {
      var j, i :| k <= j < i < |packets| && Confused(packets, fates, j, i);
      if j == k {
        assert Meets(packets, fates, k + 1, i, 0);
      }
    }
  }

  /** Confusion is a clash now or trouble with the next packet. */
  lemma {:induction false} TroubleStep<T>(packets: seq<seq<T>>, fates: seq<Fate>, k: nat, lost: Option<nat>)
    requires |fates| == |packets| && k < |packets|
    ensures Clashes(packets[k], fates[k], lost) ==> Trouble(packets, fates, k, lost)
    ensures !Clashes(packets[k], fates[k], lost) ==>
              (Trouble(packets, fates, k, lost) <==> Trouble(packets, fates, k + 1, Account(packets[k], fates[k], lost)))
  {
    if lost.Some? {
      MeetingStep(packets, fates, k, lost.value);
    }
    ConfusionStep(packets, fates, k);
  }

  ghost predicate Sendable<T>(packets: seq<seq<T>>) {
    forall x :: 0 <= x < |packets| ==> 1 <= |packets[x]| <= HW_MTU
  }

  /** Without confusion the receiver passes up exactly the packets all of whose frames arrived. */
  lemma {:induction false} UnconfusedDelivers<T>(packets: seq<seq<T>>, fates: seq<Fate>, k: nat, counter: nat, r: Receiver<T>, lost: Option<nat>)
    requires |fates| == |packets| && k <= |packets| && Sendable(packets) && Pending(r, counter, lost)
    requires !Trouble(packets, fates, k, lost)
    ensures Delivered(packets, fates, k, counter, r) == Complete(packets, fates, k)
    decreases |packets| - k
  {
    if k < |packets| {
      TroubleStep(packets, fates, k, lost);
      OnePacket(packets[k], fates[k], counter, r, lost);
      var heard := HearAll(r, Kept(packets[k], counter % SEQUENCES, fates[k]));
      UnconfusedDelivers(packets, fates, k + 1, Next(packets[k], counter), heard.receiver, Account(packets[k], fates[k], lost));
    }
  }

  /** Packets that no two have a byte in common, as when each byte is told apart by where it comes from. */
  ghost predicate Apart<T(!new)>(packets: seq<seq<T>>) {
    forall a, b, x :: 0 <= a < |packets| && 0 <= b < |packets| && a != b && x in packets[a] ==> x !in packets[b]
  }

  /** The buffer holds part of a packet before k. */
  ghost predicate HoldsEarlier<T(!new)>(packets: seq<seq<T>>, k: nat, buffer: seq<T>)
    requires k <= |packets|
  {
    buffer != [] && exists j :: 0 <= j < k && forall x :: x in buffer ==> x in packets[j]
  }

  lemma {:induction false} MixedIsForeign<T(!new)>(packets: seq<seq<T>>, k: nat, buffer: seq<T>, piece: seq<T>)
    requires k < |packets| && Apart(packets) && HoldsEarlier(packets, k, buffer)
    requires piece != [] && forall x :: x in piece ==> x in packets[k]
    ensures buffer + piece !in packets
  {
    var j :| 0 <= j < k && forall x :: x in buffer ==> x in packets[j];
    var d := buffer + piece;
    assert d[0] == buffer[0] && d[0] in buffer;
    assert d[|buffer|] == piece[0] && d[|buffer|] in piece;
    assert d[0] in packets[j] && d[|buffer|] in packets[k] && d[0] in d && d[|buffer|] in d;
  }

  /** A clash passes up something nobody sent. */
  lemma {:induction false} ClashDelivers<T(!new)>(packets: seq<seq<T>>, fates: seq<Fate>, k: nat, counter: nat, r: Receiver<T>, lost: Option<nat>) returns (d: seq<T>)
    requires |fates| == |packets| && k < |packets| && InTrouble(packets, fates, k, counter, r, lost)
    requires Clashes(packets[k], fates[k], lost)
    ensures d in HearAll(r, Kept(packets[k], counter % SEQUENCES, fates[k])).delivered && d !in packets
  {
    var packet, fate, seqNo := packets[k], fates[k], counter % SEQUENCES;
    var frames := FramesOf(packet, seqNo);
    SequenceClash(r, counter, lost);
    var f := if fate.first then frames[0] else frames[1];
    d := r.buffer + f.payload;
    MixedIsForeign(packets, k, r.buffer, f.payload);
    if fate.first && fate.second {
      assert Kept(packet, seqNo, fate) == frames;
      HearTwo(r, frames[0], frames[1]);
    } else {
      assert Kept(packet, seqNo, fate) == [f];
      HearOne(r, f);
    }
    assert Hear(r, f).delivered[0] == d;
  }

  lemma {:induction false} BufferHolds<T(!new)>(packets: seq<seq<T>>, fates: seq<Fate>, k: nat, counter: nat, r: Receiver<T>, lost: Option<nat>)
    requires |fates| == |packets| && k < |packets| && Sendable(packets)
    requires Pending(r, counter, lost) && !Clashes(packets[k], fates[k], lost)
    requires lost.Some? ==> HoldsEarlier(packets, k, r.buffer)
    requires Account(packets[k], fates[k], lost).Some?
    ensures HoldsEarlier(packets, k + 1, HearAll(r, Kept(packets[k], counter % SEQUENCES, fates[k])).receiver.buffer)
  {
    var packet, fate, seqNo := packets[k], fates[k], counter % SEQUENCES;
    var frames := FramesOf(packet, seqNo);
    SequenceClash(r, counter, lost);
    if Silent(packet, fate) {
      assert Kept(packet, seqNo, fate) == [];
    } else {
      var f := if fate.first then frames[0] else frames[1];
      assert Kept(packet, seqNo, fate) == [f];
      HearOne(r, f);
      assert forall x :: x in f.payload ==> x in packets[k];
    }
  }

  ghost predicate InTrouble<T(!new)>(packets: seq<seq<T>>, fates: seq<Fate>, k: nat, counter: nat, r: Receiver<T>, lost: Option<nat>)
    requires |fates| == |packets| && k <= |packets|
  {
    && Sendable(packets) && Apart(packets) && Pending(r, counter, lost)
    && (lost.Some? ==> HoldsEarlier(packets, k, r.buffer)) && Trouble(packets, fates, k, lost)
  }

  lemma {:induction false} TroubleIsAhead<T(!new)>(packets: seq<seq<T>>, fates: seq<Fate>, k: nat, counter: nat, r: Receiver<T>, lost: Option<nat>)
    requires |fates| == |packets| && k <= |packets| && InTrouble(packets, fates, k, counter, r, lost)
    ensures k < |packets|
  {
  }

  /** Something passed up that nobody sent. */
  ghost predicate PassesForeign<T(!new)>(packets: seq<seq<T>>, fates: seq<Fate>, k: nat, counter: nat, r: Receiver<T>)
    requires |fates| == |packets| && k <= |packets|
  {
    exists d :: d in Delivered(packets, fates, k, counter, r) && d !in packets
  }

  lemma {:induction false} ForeignNow<T(!new)>(packets: seq<seq<T>>, fates: seq<Fate>, k: nat, counter: nat, r: Receiver<T>, lost: Option<nat>)
    requires |fates| == |packets| && k < |packets| && InTrouble(packets, fates, k, counter, r, lost)
    requires Clashes(packets[k], fates[k], lost)
    ensures PassesForeign(packets, fates, k, counter, r)
  {
    var d := ClashDelivers(packets, fates, k, counter, r, lost);
    assert d in Delivered(packets, fates, k, counter, r);
  }

  lemma {:induction false} ForeignLater<T(!new)>(packets: seq<seq<T>>, fates: seq<Fate>, k: nat, counter: nat, r: Receiver<T>)
    requires |fates| == |packets| && k < |packets|
    requires PassesForeign(packets, fates, k + 1, Next(packets[k], counter),
                           HearAll(r, Kept(packets[k], counter % SEQUENCES, fates[k])).receiver)
    ensures PassesForeign(packets, fates, k, counter, r)
  {
    var receiver := HearAll(r, Kept(packets[k], counter % SEQUENCES, fates[k])).receiver;
    var d :| d in Delivered(packets, fates, k + 1, Next(packets[k], counter), receiver) && d !in packets;
    assert d in Delivered(packets, fates, k, counter, r);
  }

  /** With confusion it passes up something that nobody sent. */
  lemma {:induction false} ConfusedDelivers<T(!new)>(packets: seq<seq<T>>, fates: seq<Fate>, k: nat, counter: nat, r: Receiver<T>, lost: Option<nat>)
    requires |fates| == |packets| && k <= |packets| && InTrouble(packets, fates, k, counter, r, lost)
    ensures PassesForeign(packets, fates, k, counter, r)
    decreases |packets| - k
  {
    TroubleIsAhead(packets, fates, k, counter, r, lost);
    if Clashes(packets[k], fates[k], lost) {
      ForeignNow(packets, fates, k, counter, r, lost);
    } else {
      CleanStep(packets, fates, k, counter, r, lost);
      var receiver := HearAll(r, Kept(packets[k], counter % SEQUENCES, fates[k])).receiver;
      ConfusedDelivers(packets, fates, k + 1, Next(packets[k], counter), receiver, Account(packets[k], fates[k], lost));
      ForeignLater(packets, fates, k, counter, r);
    }
  }

  lemma {:induction false} CleanStep<T(!new)>(packets: seq<seq<T>>, fates: seq<Fate>, k: nat, counter: nat, r: Receiver<T>, lost: Option<nat>)
    requires |fates| == |packets| && k < |packets| && InTrouble(packets, fates, k, counter, r, lost)
    requires !Clashes(packets[k], fates[k], lost)
    ensures InTrouble(packets, fates, k + 1, Next(packets[k], counter),
                      HearAll(r, Kept(packets[k], counter % SEQUENCES, fates[k])).receiver, Account(packets[k], fates[k], lost))
  {
    TroubleStep(packets, fates, k, lost);
    OnePacket(packets[k], fates[k], counter, r, lost);
    if Account(packets[k], fates[k], lost).Some? {
      BufferHolds(packets, fates, k, counter, r, lost);
    }
  }

  /** These are the packets at these places, all of them k or later. */
  ghost predicate Picks<T>(packets: seq<seq<T>>, k: nat, places: seq<nat>, picked: seq<seq<T>>) {
    |places| == |picked| && forall x :: 0 <= x < |places| ==> k <= places[x] < |packets| && picked[x] == packets[places[x]]
  }

  predicate Increasing(places: seq<nat>) {
    forall x, y :: 0 <= x < y < |places| ==> places[x] < places[y]
  }

  lemma {:induction false} PickFirst<T>(packets: seq<seq<T>>, k: nat, places: seq<nat>, picked: seq<seq<T>>)
    requires k < |packets| && Picks(packets, k + 1, places, picked) && Increasing(places)
    ensures Picks(packets, k, [k] + places, [packets[k]] + picked) && Increasing([k] + places)
  {
    var all := [k] + places;
    forall x, y | 0 <= x < y < |all| ensures all[x] < all[y] {
      assert all[y] == places[y - 1];
    }
  }

  /** The complete packets are a subsequence of those sent. */
  lemma {:induction false} CompleteIsSubsequence<T>(packets: seq<seq<T>>, fates: seq<Fate>, k: nat) returns (places: seq<nat>)
    requires |fates| == |packets| && k <= |packets|
    ensures Picks(packets, k, places, Complete(packets, fates, k)) && Increasing(places)
    decreases |packets| - k
  {
    places := [];
    if k < |packets| {
      places := CompleteIsSubsequence(packets, fates, k + 1);
      if Whole(packets[k], fates[k]) {
        PickFirst(packets, k, places, Complete(packets, fates, k + 1));
        places := [k] + places;
      } else {
        assert Complete(packets, fates, k) == Complete(packets, fates, k + 1);
      }
    }
  }

  /**
   Over a lossy channel that keeps order, the receiver passes up exactly the packets all of
   whose frames arrived if no two packets are confused; and if two are, it passes up bytes
   that nobody sent together, which shows when bytes are told apart by where they come from.
   */
  lemma {:induction false} FramingExactlyWhen<T(!new)>(packets: seq<seq<T>>, fates: seq<Fate>, counter: nat)
    requires |fates| == |packets| && Sendable(packets)
    ensures var delivered := Delivered(packets, fates, 0, counter, Receiver(None, []));
            && (!Confusion(packets, fates, 0) ==> delivered == Complete(packets, fates, 0))
            && (Apart(packets) ==> (delivered == Complete(packets, fates, 0) <==> !Confusion(packets, fates, 0)))
  {
    if !Confusion(packets, fates, 0) {
      UnconfusedDelivers(packets, fates, 0, counter, Receiver(None, []), None);
    } else if Apart(packets) {
      ConfusedDelivers(packets, fates, 0, counter, Receiver(None, []), None);
      var d :| d in Delivered(packets, fates, 0, counter, Receiver(None, [])) && d !in packets;
      var places := CompleteIsSubsequence(packets, fates, 0);
      assert d !in Complete(packets, fates, 0);
    }
  }

  /** Confusion takes seven split packets in a row lost with both frames and nothing heard meanwhile. */
  lemma {:induction false} FewLossesDeliver<T>(packets: seq<seq<T>>, fates: seq<Fate>, counter: nat)
    requires |fates| == |packets| && Sendable(packets)
    requires forall a, b :: 0 <= a <= b <= |packets| && SilentBetween(packets, fates, a, b) ==> Splits(packets, a, b) < 7
    ensures Delivered(packets, fates, 0, counter, Receiver(None, [])) == Complete(packets, fates, 0)
  {
    UnconfusedDelivers(packets, fates, 0, counter, Receiver(None, []), None);
  }

  /** Without loss everything arrives. */
  lemma {:induction false} LosslessDelivers<T>(packets: seq<seq<T>>, fates: seq<Fate>, counter: nat)
    requires |fates| == |packets| && Sendable(packets)
    requires forall x :: 0 <= x < |packets| ==> Whole(packets[x], fates[x])
    ensures Delivered(packets, fates, 0, counter, Receiver(None, [])) == packets
  {
    UnconfusedDelivers(packets, fates, 0, counter, Receiver(None, []), None);
    WholeIsComplete(packets, fates, 0);
  }

  lemma {:induction false} WholeIsComplete<T>(packets: seq<seq<T>>, fates: seq<Fate>, k: nat)
    requires |fates| == |packets| && k <= |packets|
    requires forall x :: 0 <= x < |packets| ==> Whole(packets[x], fates[x])
    ensures Complete(packets, fates, k) == packets[k..]
    decreases |packets| - k
  {
    if k < |packets| {
      WholeIsComplete(packets, fates, k + 1);
    }
  }

  /** It does happen: nine split packets, the first broken, seven lost, the ninth heard. */
  lemma {:induction false} SequenceComesFullCircle()
    ensures var packets := seq(9, i => seq(MAX_PAYLOAD + 1, b => i));
            var fates := seq(9, i => Fate(i == 0 || i == 8, i == 8));
            Sendable(packets) && Apart(packets) && Confusion(packets, fates, 0)
  {
    var packets := seq(9, i => seq(MAX_PAYLOAD + 1, b => i));
    var fates := seq(9, i => Fate(i == 0 || i == 8, i == 8));
    AllSplit(packets, 1, 8);
    assert Meets(packets, fates, 1, 8, 0);
    assert Confused(packets, fates, 0, 8);
  }

  lemma {:induction false} AllSplit<T>(packets: seq<seq<T>>, a: nat, b: nat)
    requires a <= b <= |packets| && forall x :: a <= x < b ==> IsSplit(packets[x])
    ensures Splits(packets, a, b) == b - a
    decreases b - a
  {
    if a < b { AllSplit(packets, a + 1, b); }
  }

  // ------------------------------------------------------------------ bytes

  /** Bytes by their value; masks and shifts are remainders and quotients. */
  type Air = seq<Octet>

  const SEQ_UNSET: Octet := 0xFF

  /** Bit 3 of a header tells a split packet; its lowest three bits are the sequence number. */
  predicate SplitBit(header: Octet) { header / 8 % 2 == 1 }

  function SequenceBits(header: Octet): nat { header % 8 }

  /** A frame on the air: a header with a random upper half, then the payload. */
  function Decode(raw: Air): Frame<Octet>
    requires |raw| > 1
  {
    if SplitBit(raw[0]) then Frame(true, SequenceBits(raw[0]), raw[1..]) else Frame(false, 0, raw[1..])
  }

  function DecodeAll(raws: seq<Air>): seq<Frame<Octet>>
    requires forall i :: 0 <= i < |raws| ==> |raws[i]| > 1
  {
    seq(|raws|, i requires 0 <= i < |raws| => Decode(raws[i]))
  }

  lemma {:induction false} HeaderBits(nibble: Octet, seqNo: nat)
    requires nibble % 16 == 0 && seqNo < 8
    ensures nibble + 8 + seqNo < 0x100
    ensures !SplitBit(nibble) && SplitBit(nibble + 8 + seqNo) && SequenceBits(nibble + 8 + seqNo) == seqNo
  {
  }

  class LoRaInterface {
    var rxSeq: Octet
    var txSeqCtr: Octet
    var buffer: Air

    ghost predicate Valid()
      reads this
    {
      rxSeq == SEQ_UNSET || rxSeq < SEQUENCES
    }

    ghost function Listening(): Receiver<Octet>
      reads this
    {
      Receiver(if rxSeq == SEQ_UNSET then None else Some(rxSeq), buffer)
    }

    constructor ()
      ensures Valid() && Listening() == Receiver(None, []) && txSeqCtr == 0
    {
      rxSeq, txSeqCtr, buffer := SEQ_UNSET, 0, [];
    }

    /** send_outgoing: the frames on the air decode to those of the packet. */
    method Send(data: Air, random: Octet) returns (frames: seq<Air>)
      requires Valid() && 1 <= |data| <= HW_MTU
      modifies this`txSeqCtr
      ensures txSeqCtr == if IsSplit(data) then (old(txSeqCtr) + 1) % 0x100 else old(txSeqCtr)
      ensures forall i :: 0 <= i < |frames| ==> 1 < |frames[i]| <= 1 + MAX_PAYLOAD
      ensures DecodeAll(frames) == FramesOf(data, old(txSeqCtr) % SEQUENCES)
      ensures |frames| == if |data| <= 254 then 1 else 2
      ensures forall i :: 0 <= i < |frames| ==> frames[i][0] / 16 == random / 16
      ensures forall i :: 0 <= i < |frames| ==> frames[i][0] % 16 == if |data| <= 254 then 0 else 8 + old(txSeqCtr) % 8
    {
      var nibble := random - random % 16;
      HeaderBits(nibble, txSeqCtr % 8);
      if |data| <= MAX_PAYLOAD {
        frames := [[nibble] + data];
        assert frames[0][1..] == data;
      } else {
        var header := nibble + 8 + txSeqCtr % 8;
        txSeqCtr := (txSeqCtr + 1) % 0x100;
        frames := [[header] + data[..MAX_PAYLOAD], [header] + data[MAX_PAYLOAD..]];
        assert frames[0][1..] == data[..MAX_PAYLOAD] && frames[1][1..] == data[MAX_PAYLOAD..];
      }
    }

    /** loop, when a frame has been received. */
    method Poll(raw: Air) returns (delivered: seq<Air>)
      requires Valid()
      modifies this`rxSeq, this`buffer
      ensures Valid()
      ensures |raw| <= 1 ==> delivered == [] && Listening() == old(Listening())
      ensures |raw| > 1 ==> Heard(Listening(), delivered) == Hear(old(Listening()), Decode(raw))
    {
      delivered := [];
      if |raw| <= 1 {
        return;
      }
      var header := raw[0];
      if SplitBit(header) {
        if rxSeq == SEQ_UNSET || rxSeq != SequenceBits(header) {
          rxSeq := SequenceBits(header);
          buffer := raw[1..];
        } else {
          buffer := buffer + raw[1..];
          rxSeq := SEQ_UNSET;
          delivered := [buffer];
        }
      } else {
        rxSeq := SEQ_UNSET;
        buffer := raw[1..];
        delivered := [buffer];
      }
    }
  }

  /** A byte that counts along with an unbounded counter, also when it wraps. */
  predicate InStep(byte: Octet, counter: nat) { byte % SEQUENCES == counter % SEQUENCES }

  lemma {:induction false} StaysInStep(byte: Octet, counter: nat)
    requires InStep(byte, counter)
    ensures InStep((byte + 1) % 0x100, counter + 1)
  {
  }

  lemma {:induction false} DecodeKept(packet: Air, frames: seq<Air>, kept: seq<Air>, seqNo: nat, fate: Fate)
    requires forall i :: 0 <= i < |frames| ==> |frames[i]| > 1
    requires DecodeAll(frames) == FramesOf(packet, seqNo)
    requires kept == (if fate.first then frames[..1] else []) + (if fate.second then frames[1..] else [])
    ensures forall i :: 0 <= i < |kept| ==> |kept[i]| > 1
    ensures DecodeAll(kept) == Kept(packet, seqNo, fate)
  {
    assert |frames| == |FramesOf(packet, seqNo)|;
    forall i | 0 <= i < |kept| ensures |kept[i]| > 1 && Decode(kept[i]) == Kept(packet, seqNo, fate)[i] {
      var j := if fate.first then i else i + 1;
      assert kept[i] == frames[j];
      assert DecodeAll(frames)[j] == Decode(frames[j]);
    }
  }

  /** The frames of one packet that arrive, one poll each. */
  method Arrive(receiver: LoRaInterface, kept: seq<Air>) returns (delivered: seq<Air>)
    requires receiver.Valid() && forall i :: 0 <= i < |kept| ==> |kept[i]| > 1
    modifies receiver`rxSeq, receiver`buffer
    ensures receiver.Valid()
    ensures Heard(receiver.Listening(), delivered) == HearAll(old(receiver.Listening()), DecodeAll(kept))
  {
    delivered := [];
    var frames := DecodeAll(kept);
    for i := 0 to |kept|
      invariant receiver.Valid()
      invariant var rest := HearAll(receiver.Listening(), frames[i..]);
                HearAll(old(receiver.Listening()), frames) == Heard(rest.receiver, delivered + rest.delivered)
    {
      assert frames[i..][1..] == frames[i + 1..];
      var more := receiver.Poll(kept[i]);
      delivered := delivered + more;
    }
  }

  lemma {:induction false} DeliveredExtends<T>(done: seq<seq<T>>, packets: seq<seq<T>>, fates: seq<Fate>, k: nat, counter: nat, r: Receiver<T>)
    requires |fates| == |packets| && k < |packets|
    ensures var heard := HearAll(r, Kept(packets[k], counter % SEQUENCES, fates[k]));
            done + Delivered(packets, fates, k, counter, r)
            == done + heard.delivered + Delivered(packets, fates, k + 1, Next(packets[k], counter), heard.receiver)
  {
  }

  /** Two interfaces and a channel that loses what the fates say: the packets passed up are Delivered. */
  method Exchange(packets: seq<Air>, fates: seq<Fate>, random: seq<Octet>) returns (delivered: seq<Air>)
    requires |fates| == |packets| == |random| && Sendable(packets)
    ensures delivered == Delivered(packets, fates, 0, 0, Receiver(None, []))
  {
    var sender := new LoRaInterface();
    var receiver := new LoRaInterface();
    delivered := [];
    ghost var counter: nat := 0;
    for k := 0 to |packets|
      invariant sender.Valid() && receiver.Valid() && InStep(sender.txSeqCtr, counter)
      invariant delivered + Delivered(packets, fates, k, counter, receiver.Listening())
                == Delivered(packets, fates, 0, 0, Receiver(None, []))
    {
      ghost var before := receiver.Listening();
      var more := Transfer(sender, receiver, packets[k], fates[k], random[k], counter);
      DeliveredExtends(delivered, packets, fates, k, counter, before);
      delivered := delivered + more;
      counter := Next(packets[k], counter);
    }
  }

  method Transfer(sender: LoRaInterface, receiver: LoRaInterface, packet: Air, fate: Fate, random: Octet, ghost counter: nat)
    returns (delivered: seq<Air>)
    requires sender != receiver && sender.Valid() && receiver.Valid() && 1 <= |packet| <= HW_MTU
    requires InStep(sender.txSeqCtr, counter)
    modifies sender`txSeqCtr, receiver`rxSeq, receiver`buffer
    ensures sender.Valid() && receiver.Valid() && InStep(sender.txSeqCtr, Next(packet, counter))
    ensures Heard(receiver.Listening(), delivered)
            == HearAll(old(receiver.Listening()), Kept(packet, counter % SEQUENCES, fate))
  {
    StaysInStep(sender.txSeqCtr, counter);
    var frames := sender.Send(packet, random);
    var kept := (if fate.first then frames[..1] else []) + (if fate.second then frames[1..] else []);
    DecodeKept(packet, frames, kept, counter % SEQUENCES, fate);
    delivered := Arrive(receiver, kept);
  }
}
