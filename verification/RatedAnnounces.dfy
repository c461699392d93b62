/** The rate limiter at work in a node: how often the announces of one destination are queued for rebroadcast. */
module RatedAnnounces {
  import opened Basics
  import opened Routing
  import RateLimiter

  /** An announce that arrives; the limiter, not the context, decides whether it is rate-blocked. */
  datatype Arrival = Arrival(announce: Announce, now: real, ctx: Context)

  /** A node after some arrivals: when those it accepted came, and how often it has queued a rebroadcast. */
  datatype Heard = Heard(node: Node, times: seq<real>, queued: nat)

  /** Only announces that are accepted are put to the limiter. */
  function Hear(h: Heard, a: Arrival, limits: RateLimiter.Limits): Heard {
    if !Accepts(h.node, a.announce, a.ctx) then h.(node := Receive(h.node, a.announce, a.ctx))
    else
      var verdict := RateLimiter.Evaluate(RateLimiter.Run(h.times, limits).0, a.now, limits);
      var next := Receive(h.node, a.announce, a.ctx.(rateBlocked := verdict.blocked));
      var dest := a.announce.dest;
      var settled := Overhear(h.node.pending, a.announce, a.ctx);
      Heard(next, h.times + [a.now], if dest !in settled && dest in next.pending then h.queued + 1 else h.queued)
  }

  function HearAll(node: Node, arrivals: seq<Arrival>, limits: RateLimiter.Limits): Heard {
    if arrivals == [] then Heard(node, [], 0)
    else Hear(HearAll(node, arrivals[..|arrivals| - 1], limits), arrivals[|arrivals| - 1], limits)
  }

  /** No more is queued than the limiter lets through. */
  lemma {:induction false} QueuedIsAdmitted(node: Node, arrivals: seq<Arrival>, limits: RateLimiter.Limits)
    ensures var h := HearAll(node, arrivals, limits);
            h.queued <= RateLimiter.Run(h.times, limits).1 && |h.times| <= |arrivals|
    decreases |arrivals|
  {
    if arrivals != [] {
      var n := |arrivals| - 1;
      var before, a := HearAll(node, arrivals[..n], limits), arrivals[n];
      QueuedIsAdmitted(node, arrivals[..n], limits);
      HearQueues(before, a, limits);
      RunNext(before.times, a.now, limits);
    }
  }

  /** One arrival: a queued announce has been let through. */
  lemma {:induction false} HearQueues(h: Heard, a: Arrival, limits: RateLimiter.Limits)
    ensures var after, verdict := Hear(h, a, limits), RateLimiter.Evaluate(RateLimiter.Run(h.times, limits).0, a.now, limits);
            || (after.times == h.times && after.queued == h.queued)
            || (after.times == h.times + [a.now] && after.queued <= if verdict.blocked then h.queued else h.queued + 1)
  {
  }

  lemma {:induction false} RunNext(times: seq<real>, now: real, limits: RateLimiter.Limits)
    ensures var (entry, admitted) := RateLimiter.Run(times, limits);
            RateLimiter.Run(times + [now], limits).1
            == if RateLimiter.Evaluate(entry, now, limits).blocked then admitted else admitted + 1
  {
    assert (times + [now])[..|times|] == times;
  }

  lemma {:induction false} AcceptedTimes(node: Node, arrivals: seq<Arrival>, limits: RateLimiter.Limits)
    requires forall i, j :: 0 <= i < j < |arrivals| ==> arrivals[i].now <= arrivals[j].now
    ensures var times := HearAll(node, arrivals, limits).times;
            RateLimiter.Monotone(times)
            && forall k :: 0 <= k < |times| ==> arrivals[0].now <= times[k] <= arrivals[|arrivals| - 1].now
    decreases |arrivals|
  {
    if arrivals != [] {
      var n := |arrivals| - 1;
      AcceptedTimes(node, arrivals[..n], limits);
      var before, times := HearAll(node, arrivals[..n], limits).times, HearAll(node, arrivals, limits).times;
      forall k | 0 <= k < |before| ensures arrivals[0].now <= before[k] <= arrivals[n].now {
        assert arrivals[..n][0] == arrivals[0] && arrivals[..n][n - 1] == arrivals[n - 1];
      }
    }
  }

  /**
   However many announces of one destination arrive, and whatever else happens to its pending
   entry: over time T a node queues at most 1 + grace + 2 T / target of them for rebroadcast.
   */
  lemma {:induction false} QueuedBound(node: Node, arrivals: seq<Arrival>, limits: RateLimiter.Limits)
    requires RateLimiter.Sane(limits) && arrivals != []
    requires forall i, j :: 0 <= i < j < |arrivals| ==> arrivals[i].now <= arrivals[j].now
    ensures HearAll(node, arrivals, limits).queued as real
            <= 1.0 + limits.grace as real + 2.0 * ((arrivals[|arrivals| - 1].now - arrivals[0].now) / limits.target)
  {
    QueuedIsAdmitted(node, arrivals, limits);
    AcceptedTimes(node, arrivals, limits);
    var times, span := HearAll(node, arrivals, limits).times, arrivals[|arrivals| - 1].now - arrivals[0].now;
    if times == [] {
      Quotients(0.0, span, limits.target);
    } else {
      RateLimiter.AdmittedBound(times, limits);
      Quotients(times[|times| - 1] - times[0], span, limits.target);
    }
  }

  lemma {:induction false} Quotients(a: real, b: real, target: real)
    requires target > 0.0 && 0.0 <= a <= b
    ensures 0.0 <= a / target <= b / target
  {
    RateLimiter.QuotientBound(a / target, b, target);
    RateLimiter.QuotientBound(0.0, a, target);
  }
}
