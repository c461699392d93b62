/**
 Announce rate limiting per destination in Transport::inbound. The clock is a real number
 that does not go back; the limits belong to the receiving interface and stay fixed. The
 violation count, a double that only moves by one, is an integer here.
 */
module RateLimiter {
  import opened Basics

  const MAX_RATE_TIMESTAMPS: nat := 16

  datatype Limits = Limits(target: real, grace: nat, penalty: real)

  datatype RateEntry = RateEntry(last: real, violations: int, blockedUntil: real, timestamps: seq<real>)

  datatype Verdict = Verdict(entry: RateEntry, blocked: bool)

  function Stamp(timestamps: seq<real>, now: real): seq<real> {
    var all := timestamps + [now];
    if |all| > MAX_RATE_TIMESTAMPS then all[|all| - MAX_RATE_TIMESTAMPS..] else all
  }

  /** One announce of the destination at time now. */
  function Evaluate(entry: Option<RateEntry>, now: real, limits: Limits): Verdict {
    match entry
    case None => Verdict(RateEntry(now, 0, 0.0, [now]), false)
    case Some(e) =>
      var e0 := e.(timestamps := Stamp(e.timestamps, now));
      if now > e.blockedUntil then
        var violations := if now - e.last < limits.target then e.violations + 1
                          else if e.violations - 1 > 0 then e.violations - 1 else 0;
        if violations > limits.grace
        then Verdict(e0.(violations := violations, blockedUntil := e.last + limits.target + limits.penalty), true)
        else Verdict(e0.(violations := violations, last := now), false)
      else Verdict(e0, true)
  }

  predicate Sane(limits: Limits) { limits.target > 0.0 && limits.penalty >= 0.0 }

  /** The violations stay between 0 and one above the grace, and only a block takes them there. */
  predicate EntryInv(e: RateEntry, limits: Limits) {
    && 0 <= e.violations <= limits.grace + 1
    && (e.violations == limits.grace + 1 ==> e.blockedUntil == e.last + limits.target + limits.penalty)
    && 0 < |e.timestamps| <= MAX_RATE_TIMESTAMPS
  }

  predicate Monotone(times: seq<real>) {
    forall i, j :: 0 <= i < j < |times| ==> times[i] <= times[j]
  }

  /** The entry after all the announces, and how many of them were let through. */
  function Run(times: seq<real>, limits: Limits): (Option<RateEntry>, nat) {
    if times == [] then (None, 0)
    else
      var n := |times| - 1;
      var (entry, admitted) := Run(times[..n], limits);
      var v := Evaluate(entry, times[n], limits);
      (Some(v.entry), if v.blocked then admitted else admitted + 1)
  }

  /** The number of admitted announces that came at least the target after the one admitted before. */
  ghost function Paced(times: seq<real>, limits: Limits): nat {
    if times == [] then 0
    else
      var n := |times| - 1;
      var entry := Run(times[..n], limits).0;
      var paced := entry.Some? && !Evaluate(entry, times[n], limits).blocked && times[n] - entry.value.last >= limits.target;
      Paced(times[..n], limits) + if paced then 1 else 0
  }

  function Capped(v: int, grace: nat): int { if v > grace then grace else v }

  /** p times t, by repeated addition. */
  ghost function Times(p: nat, t: real): real { if p == 0 then 0.0 else Times(p - 1, t) + t }

  lemma {:induction false} TimesIsProduct(p: nat, t: real)
    ensures Times(p, t) == p as real * t
  {
    if p > 0 {
      TimesIsProduct(p - 1, t);
      Distribute((p - 1) as real, p as real, t);
    }
  }

  lemma {:induction false} Distribute(x: real, y: real, t: real)
    requires y == x + 1.0
    ensures y * t == x * t + t
  {
    assert (x + 1.0) * t == x * t + t;
  }

  /** What one evaluation does to the entry, and to the number of announces the violations can account for. */
  lemma {:induction false} EvaluateStep(e: RateEntry, now: real, limits: Limits)
    requires Sane(limits) && EntryInv(e, limits) && e.last <= now
    ensures var v := Evaluate(Some(e), now, limits);
            && EntryInv(v.entry, limits)
            && e.last <= v.entry.last <= now
            && (v.blocked ==> Capped(v.entry.violations, limits.grace) == Capped(e.violations, limits.grace))
            && (!v.blocked && now - e.last < limits.target ==>
                  Capped(v.entry.violations, limits.grace) == Capped(e.violations, limits.grace) + 1)
            && (!v.blocked && now - e.last >= limits.target ==>
                  Capped(v.entry.violations, limits.grace) >= Capped(e.violations, limits.grace) - 1
                  && v.entry.last >= e.last + limits.target)
  {
  }

  lemma {:induction false} RunInvariant(times: seq<real>, limits: Limits)
    requires Sane(limits) && Monotone(times) && times != []
    ensures var (entry, admitted) := Run(times, limits);
            && entry.Some? && EntryInv(entry.value, limits)
            && times[0] <= entry.value.last <= times[|times| - 1]
            && admitted <= 1 + Capped(entry.value.violations, limits.grace) + 2 * Paced(times, limits)
            && Times(Paced(times, limits), limits.target) <= entry.value.last - times[0]
  {
    var n := |times| - 1;
    if n > 0 {
      RunInvariant(times[..n], limits);
      assert times[..n][0] == times[0] && times[..n][n - 1] == times[n - 1];
      EvaluateStep(Run(times[..n], limits).0.value, times[n], limits);
    } else {
      assert times[..0] == [];
    }
  }

  /**
   The bound: of all announces of one destination, however many and however timed, at most
   1 + grace + 2 * span / target are let through, where span is the time they cover.
   */
  lemma {:induction false} AdmittedBound(times: seq<real>, limits: Limits)
    requires Sane(limits) && Monotone(times) && times != []
    ensures Run(times, limits).1 as real <= 1.0 + limits.grace as real + 2.0 * ((times[|times| - 1] - times[0]) / limits.target)
  {
    RunInvariant(times, limits);
    BoundOf(Run(times, limits).1, limits.grace, Paced(times, limits), times[|times| - 1] - times[0], limits.target);
  }

  lemma {:induction false} BoundOf(admitted: nat, grace: nat, paced: nat, span: real, target: real)
    requires target > 0.0 && Times(paced, target) <= span && admitted <= 1 + grace + 2 * paced
    ensures admitted as real <= 1.0 + grace as real + 2.0 * (span / target)
  {
    TimesIsProduct(paced, target);
    QuotientBound(paced as real, span, target);
  }

  lemma {:induction false} QuotientBound(p: real, span: real, target: real)
    requires target > 0.0 && p * target <= span
    ensures p <= span / target
  {
    var q := span / target;
    assert q * target == span;
    if p > q {
      assert (p - q) * target > 0.0;
    }
  }

  /** The first announce evaluated after a block has run out is let through, and the block holds until then. */
  lemma {:induction false} BlockEnds(e: RateEntry, now: real, limits: Limits)
    requires Sane(limits) && EntryInv(e, limits) && e.violations > limits.grace
    ensures Evaluate(Some(e), now, limits).blocked <==> now <= e.last + limits.target + limits.penalty
    ensures !Evaluate(Some(e), now, limits).blocked ==> Evaluate(Some(e), now, limits).entry.violations == limits.grace
  {
  }

  /**
   The decision, exactly: an announce is let through if and only if no block is running and it
   comes at least the target after the last one let through, or the violations are below the grace.
   */
  lemma {:induction false} AdmittedExactlyWhen(e: RateEntry, now: real, limits: Limits)
    requires Sane(limits) && EntryInv(e, limits)
    ensures !Evaluate(Some(e), now, limits).blocked <==>
              now > e.blockedUntil && (now - e.last >= limits.target || e.violations < limits.grace)
    ensures !Evaluate(Some(e), now, limits).blocked ==> Evaluate(Some(e), now, limits).entry.last == now
  {
  }

  /** One announce costs or earns one violation, and a block starts when they exceed the grace and lasts for target and penalty. */
  lemma {:induction false} ViolationsExactly(e: RateEntry, now: real, limits: Limits)
    requires Sane(limits) && EntryInv(e, limits)
    ensures var n := Evaluate(Some(e), now, limits).entry;
            && (now <= e.blockedUntil ==> n.violations == e.violations && n.blockedUntil == e.blockedUntil && n.last == e.last)
            && (now > e.blockedUntil && now - e.last < limits.target ==> n.violations == e.violations + 1)
            && (now > e.blockedUntil && now - e.last >= limits.target && e.violations > 0 ==> n.violations == e.violations - 1)
            && (now > e.blockedUntil && now - e.last >= limits.target && e.violations == 0 ==> n.violations == 0)
            && (now > e.blockedUntil && n.violations > limits.grace ==>
                  n.blockedUntil == e.last + limits.target + limits.penalty && n.last == e.last)
  {
  }

  /** Announces paced by the target are all let through. */
  lemma {:induction false} PacedAreAdmitted(times: seq<real>, limits: Limits)
    requires Sane(limits) && times != [] && times[0] > 0.0
    requires forall i :: 0 < i < |times| ==> times[i] - times[i - 1] >= limits.target
    ensures var (entry, admitted) := Run(times, limits);
            admitted == |times| && entry.Some? && entry.value.violations == 0 && entry.value.blockedUntil == 0.0
            && entry.value.last == times[|times| - 1] > 0.0
  {
    var n := |times| - 1;
    if n > 0 {
      var before := times[..n];
      assert before[n - 1] == times[n - 1] && before[0] == times[0];
      PacedAreAdmitted(before, limits);
    } else {
      assert times[..0] == [];
    }
  }

  /** The first announces, one more than the grace, are let through however fast they come. */
  lemma {:induction false} FirstAreAdmitted(times: seq<real>, limits: Limits)
    requires Sane(limits) && times != [] && |times| <= 1 + limits.grace && Monotone(times) && times[0] > 0.0
    ensures var (entry, admitted) := Run(times, limits);
            admitted == |times| && entry.Some? && 0 <= entry.value.violations < |times| && entry.value.blockedUntil == 0.0
  {
    var n := |times| - 1;
    if n > 0 {
      var before := times[..n];
      assert before[0] == times[0];
      FirstAreAdmitted(before, limits);
    } else {
      assert times[..0] == [];
    }
  }

  /** The latest times, as many as are kept. */
  function Latest(times: seq<real>): seq<real> {
    times[if |times| > MAX_RATE_TIMESTAMPS then |times| - MAX_RATE_TIMESTAMPS else 0..]
  }

  lemma {:induction false} StampOfLatest(times: seq<real>)
    requires times != []
    ensures Stamp(Latest(times[..|times| - 1]), times[|times| - 1]) == Latest(times)
  {
  }

  /** The entry's timestamps are the latest arrivals, blocked or not, as many as are kept. */
  lemma {:induction false} TimestampsAreLatest(times: seq<real>, limits: Limits)
    requires times != []
    ensures var entry := Run(times, limits).0;
            entry.Some? && entry.value.timestamps == Latest(times)
  {
    var n := |times| - 1;
    if n > 0 {
      TimestampsAreLatest(times[..n], limits);
      StampOfLatest(times);
    } else {
      assert times[..0] == [];
    }
  }

  /** One destination's entry in the rate table. */
  class RateRecord {
    var last: real
    var violations: int
    var blockedUntil: real
    var timestamps: seq<real>

    function Entry(): RateEntry
      reads this
    {
      RateEntry(last, violations, blockedUntil, timestamps)
    }

    constructor (now: real)
      ensures Entry() == Evaluate(None, now, Limits(0.0, 0, 0.0)).entry
    {
      last, violations, blockedUntil, timestamps := now, 0, 0.0, [now];
    }

    method Note(now: real)
      requires |timestamps| <= MAX_RATE_TIMESTAMPS
      modifies this`timestamps
      ensures timestamps == Stamp(old(timestamps), now)
    {
      ghost var all := timestamps + [now];
      timestamps := timestamps + [now];
      while |timestamps| > MAX_RATE_TIMESTAMPS
        invariant |timestamps| >= MAX_RATE_TIMESTAMPS || timestamps == all
        invariant |timestamps| <= |all| && timestamps == all[|all| - |timestamps|..]
      {
        timestamps := timestamps[1..];
      }
    }

    method Check(now: real, limits: Limits) returns (blocked: bool)
      requires |timestamps| <= MAX_RATE_TIMESTAMPS
      modifies this
      ensures Verdict(Entry(), blocked) == Evaluate(Some(old(Entry())), now, limits)
    {
      blocked := false;
      Note(now);
      var rate := now - last;
      if now > blockedUntil {
        if rate < limits.target {
          violations := violations + 1;
        } else {
          violations := if violations - 1 > 0 then violations - 1 else 0;
        }
        if violations > limits.grace {
          blockedUntil := last + limits.target + limits.penalty;
          blocked := true;
        } else {
          last := now;
        }
      } else {
        blocked := true;
      }
    }
  }
}
