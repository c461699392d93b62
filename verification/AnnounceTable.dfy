/**
 The table of announces waiting for rebroadcast: the pass that jobs makes over it, and the
 culling after each insertion. Held announces, which are put back while the table is being
 iterated, are not part of this model.
 */
module AnnounceTable {
  import opened Basics
  import opened Routing

  const PATHFINDER_R: nat := 1
  const RETRANSMIT_DELAY: real := 5.5

  datatype Entry = Entry(timestamp: real, retransmitAt: real, retries: nat)

  type Table = map<Addr, Entry>

  // ------------------------------------------------------------------ the pass

  predicate Completed(e: Entry) {
    (e.retries > 0 && e.retries >= LOCAL_REBROADCASTS_MAX) || e.retries > PATHFINDER_R
  }

  /** The entry's time has come. */
  predicate Due(e: Entry, now: real) { !Completed(e) && now > e.retransmitAt }

  function Retried(e: Entry, now: real): Entry {
    e.(retransmitAt := now + RETRANSMIT_DELAY, retries := e.retries + 1)
  }

  /** A due entry is rebroadcast if the identity behind it is still known. */
  predicate Sends(e: Entry, now: real, known: bool) { Due(e, now) && known }

  predicate Leaves(e: Entry, now: real, known: bool) { Completed(e) || (Due(e, now) && !known) }

  function After(e: Entry, now: real): Entry { if Due(e, now) then Retried(e, now) else e }

  function Pass(t: Table, now: real, known: set<Addr>): Table {
    map d | d in t && !Leaves(t[d], now, d in known) :: After(t[d], now)
  }

  function Sent(t: Table, now: real, known: set<Addr>): set<Addr> {
    set d | d in t && Sends(t[d], now, d in known)
  }

  /** A pass of jobs: when it ran and which identities were known. */
  datatype Tick = Tick(now: real, known: set<Addr>)

  function Passes(t: Table, ticks: seq<Tick>): Table {
    if ticks == [] then t else Passes(Pass(t, ticks[0].now, ticks[0].known), ticks[1..])
  }

  /** How often destination d is rebroadcast over the passes. */
  function Rebroadcasts(t: Table, ticks: seq<Tick>, d: Addr): nat {
    if ticks == [] then 0
    else
      (if d in Sent(t, ticks[0].now, ticks[0].known) then 1 else 0)
      + Rebroadcasts(Pass(t, ticks[0].now, ticks[0].known), ticks[1..], d)
  }

  function Remaining(e: Entry): nat { if e.retries > PATHFINDER_R then 0 else PATHFINDER_R + 1 - e.retries }

  /**
   An entry is rebroadcast at most once more than PATHFINDER_R, counting the retries it was
   inserted with, and the first pass that finds it has used them up removes it.
   */
  lemma {:induction false} RebroadcastBound(t: Table, ticks: seq<Tick>, d: Addr)
    ensures d !in t ==> Rebroadcasts(t, ticks, d) == 0 && d !in Passes(t, ticks)
    ensures d in t ==> Rebroadcasts(t, ticks, d) <= Remaining(t[d])
    ensures d in t && d in Passes(t, ticks) ==> Passes(t, ticks)[d].retries == t[d].retries + Rebroadcasts(t, ticks, d)
    ensures d in t && Rebroadcasts(t, ticks, d) == Remaining(t[d]) && d in Passes(t, ticks) ==>
              forall now, known :: d !in Pass(Passes(t, ticks), now, known)
    decreases |ticks|
  {
    if ticks != [] {
      RebroadcastBound(Pass(t, ticks[0].now, ticks[0].known), ticks[1..], d);
    }
  }

  /** An entry with retries left is rebroadcast by exactly those passes that come after its time, if its identity is known. */
  lemma {:induction false} SentExactlyWhen(t: Table, now: real, known: set<Addr>, d: Addr)
    requires d in t
    ensures d in Sent(t, now, known) <==> t[d].retries <= PATHFINDER_R && now > t[d].retransmitAt && d in known
    ensures t[d].retries <= PATHFINDER_R && now <= t[d].retransmitAt ==> d in Pass(t, now, known) && Pass(t, now, known)[d] == t[d]
    ensures d in Sent(t, now, known) ==>
              d in Pass(t, now, known)
              && Pass(t, now, known)[d] == t[d].(retries := t[d].retries + 1, retransmitAt := now + RETRANSMIT_DELAY)
    ensures t[d].retries <= PATHFINDER_R && now > t[d].retransmitAt && d !in known ==> d !in Pass(t, now, known)
    ensures t[d].retries > PATHFINDER_R ==> d !in Pass(t, now, known)
  {
  }

  /** Passes at or before its time leave an entry waiting as it is. */
  lemma {:induction false} WaitsForItsTime(t: Table, ticks: seq<Tick>, d: Addr)
    requires d in t && t[d].retries <= PATHFINDER_R && forall i :: 0 <= i < |ticks| ==> ticks[i].now <= t[d].retransmitAt
    ensures d in Passes(t, ticks) && Passes(t, ticks)[d] == t[d] && Rebroadcasts(t, ticks, d) == 0
    decreases |ticks|
  {
    if ticks != [] {
      SentExactlyWhen(t, ticks[0].now, ticks[0].known, d);
      WaitsForItsTime(Pass(t, ticks[0].now, ticks[0].known), ticks[1..], d);
    }
  }

  /**
   Over any passes: an entry waits for its time, the first pass after that rebroadcasts it if its
   identity is known, and after that one it is not rebroadcast again within the delay.
   */
  lemma {:induction false} RebroadcastOnTime(t: Table, early: seq<Tick>, tick: Tick, soon: seq<Tick>, d: Addr)
    requires d in t && t[d].retries <= PATHFINDER_R && d in tick.known
    requires forall i :: 0 <= i < |early| ==> early[i].now <= t[d].retransmitAt
    requires tick.now > t[d].retransmitAt
    requires forall i :: 0 <= i < |soon| ==> soon[i].now <= tick.now + RETRANSMIT_DELAY
    ensures Rebroadcasts(t, early, d) == 0 && d in Sent(Passes(t, early), tick.now, tick.known)
    ensures Rebroadcasts(Pass(Passes(t, early), tick.now, tick.known), soon, d) == 0
  {
    WaitsForItsTime(t, early, d);
    SentExactlyWhen(Passes(t, early), tick.now, tick.known, d);
    var next := Pass(Passes(t, early), tick.now, tick.known);
    if next[d].retries <= PATHFINDER_R {
      WaitsForItsTime(next, soon, d);
    } else {
      SpentIsSilent(next, soon, d);
    }
  }

  lemma {:induction false} SpentIsSilent(t: Table, ticks: seq<Tick>, d: Addr)
    requires d in t ==> t[d].retries > PATHFINDER_R
    ensures Rebroadcasts(t, ticks, d) == 0
    decreases |ticks|
  {
    if ticks != [] {
      SpentIsSilent(Pass(t, ticks[0].now, ticks[0].known), ticks[1..], d);
    }
  }

  // -------------------------------------------------------------- the culling

  /** Entries are dropped in the order of their timestamps, then of their keys. */
  predicate Before(t: Table, a: Addr, b: Addr)
    requires a in t && b in t
  {
    t[a].timestamp < t[b].timestamp || (t[a].timestamp == t[b].timestamp && a < b)
  }

  /** What culling leaves of t: everything, or so many of the latest entries. */
  ghost predicate CullsTo(t: Table, t': Table, announceMax: nat, pathMax: nat) {
    && t'.Keys <= t.Keys
    && (forall d :: d in t' ==> t'[d] == t[d])
    && |t'| == (if |t| <= announceMax then |t| else Min(|t| - 1, pathMax))
    && (forall a, b :: a in t && a !in t' && b in t' ==> Before(t, a, b))
  }

  ghost predicate EvictsOldest(t: Table, t': Table) {
    forall a, b :: a in t && a !in t' && b in t' ==> t[a].timestamp <= t'[b].timestamp
  }

  lemma {:induction false} CullEvictsOldest(t: Table, t': Table, announceMax: nat, pathMax: nat)
    requires CullsTo(t, t', announceMax, pathMax)
    ensures EvictsOldest(t, t')
  {
    forall a, b | a in t && a !in t' && b in t' ensures t[a].timestamp <= t'[b].timestamp {
      assert Before(t, a, b);
    }
  }

  /** The outcome of culling is determined by the table and the limits. */
  lemma {:induction false} CullIsDetermined(t: Table, x: Table, y: Table, announceMax: nat, pathMax: nat)
    requires CullsTo(t, x, announceMax, pathMax) && CullsTo(t, y, announceMax, pathMax)
    ensures x == y
  {
    KeepsTheSame(t, x, y, announceMax, pathMax);
    KeepsTheSame(t, y, x, announceMax, pathMax);
    assert x.Keys == y.Keys;
  }

  lemma {:induction false} KeepsTheSame(t: Table, x: Table, y: Table, announceMax: nat, pathMax: nat)
    requires CullsTo(t, x, announceMax, pathMax) && CullsTo(t, y, announceMax, pathMax)
    ensures x.Keys <= y.Keys
  {
    forall a | a in x.Keys ensures a in y.Keys {
      if a !in y.Keys {
        var b := SameSizeOther(x.Keys, y.Keys, a);
      }
    }
  }

  lemma {:induction false} SameSizeOther(x: set<Addr>, y: set<Addr>, a: Addr) returns (b: Addr)
    requires |x| == |y| && a in x && a !in y
    ensures b in y && b !in x
  {
    assert y == (y * x) + (y - x) && y * x <= x - {a};
    assert x - {a} == (y * x) + (x - {a} - y * x);
    b :| b in y - x;
  }

  /** An insertion keeps an entry that is already there. */
  function Insert(t: Table, d: Addr, e: Entry): Table { if d in t then t else t[d := e] }

  /**
   After any insertion and its cull the table is within its limit, the evicted entries are
   no newer than those that stay, and exactly as many are evicted as needed if and only if
   the limit of the path table, at which the cull stops, is not the smaller one.
   */
  lemma {:induction false} InsertStaysWithinLimit(t: Table, d: Addr, e: Entry, t': Table, announceMax: nat, pathMax: nat)
    requires |t| <= announceMax && CullsTo(Insert(t, d, e), t', announceMax, pathMax)
    ensures |t'| <= announceMax
    ensures EvictsOldest(Insert(t, d, e), t')
    ensures |Insert(t, d, e)| > announceMax ==> (|t'| == announceMax <==> pathMax >= announceMax)
  {
    if d !in t {
      assert t[d := e].Keys == t.Keys + {d};
    }
    CullEvictsOldest(Insert(t, d, e), t', announceMax, pathMax);
  }

  /** An insertion leaves an entry that is there, and every other entry; among equal times the lower key goes first. */
  lemma {:induction false} InsertExactly(t: Table, d: Addr, e: Entry)
    ensures d in Insert(t, d, e) && Insert(t, d, e)[d] == (if d in t then t[d] else e)
    ensures forall k :: k in t ==> k in Insert(t, d, e) && Insert(t, d, e)[k] == t[k]
    ensures Insert(t, d, e).Keys == t.Keys + {d}
  {
  }

  lemma {:induction false} LowerKeyGoesFirst(t: Table, t': Table, announceMax: nat, pathMax: nat, a: Addr, b: Addr)
    requires CullsTo(t, t', announceMax, pathMax) && a in t && b in t && t[a].timestamp == t[b].timestamp && a < b
    ensures a in t' ==> b in t'
  {
  }

  /** With room for two announces but one path, a third announce leaves only itself. */
  lemma {:induction false} CullCanDropMore(first: Entry, second: Entry, third: Entry)
    requires first.timestamp < second.timestamp < third.timestamp
    ensures CullsTo(Insert(map[1 := first, 2 := second], 3, third), map[3 := third], 2, 1)
  {
    var t := Insert(map[1 := first, 2 := second], 3, third);
    assert t.Keys == {1, 2, 3};
    assert map[3 := third].Keys == {3};
  }

  /** Entries are dropped, or one is inserted and the table culled. */
  ghost predicate Moves(t: Table, t': Table, announceMax: nat, pathMax: nat) {
    t'.Keys <= t.Keys || exists d, e :: CullsTo(Insert(t, d, e), t', announceMax, pathMax)
  }

  ghost predicate IsRun(run: seq<Table>, announceMax: nat, pathMax: nat) {
    forall i :: 0 <= i < |run| - 1 ==> Moves(run[i], run[i + 1], announceMax, pathMax)
  }

  lemma {:induction false} RunStaysWithinLimit(run: seq<Table>, announceMax: nat, pathMax: nat, i: nat)
    requires IsRun(run, announceMax, pathMax) && i < |run| && |run[0]| <= announceMax
    ensures |run[i]| <= announceMax
  {
    if i > 0 {
      RunStaysWithinLimit(run, announceMax, pathMax, i - 1);
      var t, t' := run[i - 1], run[i];
      assert Moves(run[i - 1], run[i - 1 + 1], announceMax, pathMax);
      if t'.Keys <= t.Keys {
        assert t.Keys == t'.Keys + (t.Keys - t'.Keys);
      } else {
        var d, e :| CullsTo(Insert(t, d, e), t', announceMax, pathMax);
        InsertStaysWithinLimit(t, d, e, t', announceMax, pathMax);
      }
    }
  }

  // ------------------------------------------------------------------ objects

  /** Visiting every entry and dropping the completed ones is a pass. */
  lemma {:induction false} WholePass(t: Table, visited: Table, completed: set<Addr>, outgoing: set<Addr>, now: real, known: set<Addr>)
    requires visited.Keys == t.Keys && forall d :: d in t ==> visited[d] == After(t[d], now)
    requires forall d :: d in completed <==> d in t && Leaves(t[d], now, d in known)
    requires forall d :: d in outgoing <==> d in t && Sends(t[d], now, d in known)
    ensures visited - completed == Pass(t, now, known)
    ensures outgoing == Sent(t, now, known)
  {
  }

  class Announces {
    var table: Table
    const announceMax: nat
    const pathMax: nat

    constructor (announceMax: nat, pathMax: nat)
      ensures table == map[] && this.announceMax == announceMax && this.pathMax == pathMax
    {
      this.announceMax, this.pathMax := announceMax, pathMax;
      table := map[];
    }

    /** The loop of jobs over the table, and the removal of what it found completed. */
    method RunJobs(now: real, known: set<Addr>) returns (outgoing: set<Addr>)
      modifies this
      ensures table == Pass(old(table), now, known)
      ensures outgoing == Sent(old(table), now, known)
    {
      var t := table;
      var todo, completed := t.Keys, {};
      outgoing := {};
      while todo != {}
        invariant todo <= t.Keys && table.Keys == t.Keys
        invariant forall d :: d in t ==> table[d] == if d in todo then t[d] else After(t[d], now)
        invariant forall d :: d in completed <==> d in t && d !in todo && Leaves(t[d], now, d in known)
        invariant forall d :: d in outgoing <==> d in t && d !in todo && Sends(t[d], now, d in known)
        decreases |todo|
      {
        var d :| d in todo;
        todo := todo - {d};
        var done, send := Visit(d, now, d in known);
        if done {
          completed := completed + {d};
        }
        if send {
          outgoing := outgoing + {d};
        }
      }
      WholePass(t, table, completed, outgoing, now, known);
      table := table - completed;
    }

    /** One entry of the pass. */
    method Visit(d: Addr, now: real, known: bool) returns (done: bool, send: bool)
      requires d in table
      modifies this`table
      ensures table == old(table)[d := After(old(table)[d], now)]
      ensures done == Leaves(old(table)[d], now, known) && send == Sends(old(table)[d], now, known)
    {
      done, send := false, false;
      var e := table[d];
      if e.retries > 0 && e.retries >= LOCAL_REBROADCASTS_MAX {
        done := true;
      } else if e.retries > PATHFINDER_R {
        done := true;
      } else if now > e.retransmitAt {
        table := table[d := Retried(e, now)];
        if known {
          send := true;
        } else {
          done := true;
        }
      }
    }

    /** The keys of the table, oldest entry first. */
    method OldestFirst() returns (keys: seq<Addr>)
      ensures |keys| == |table|
      ensures forall i :: 0 <= i < |keys| ==> keys[i] in table
      ensures forall i, j :: 0 <= i < j < |keys| ==> keys[i] in table && keys[j] in table && Before(table, keys[i], keys[j])
      ensures forall d :: d in table ==> d in keys
    {
      keys := [];
      var rest := table.Keys;
      while rest != {}
        invariant rest <= table.Keys && |keys| + |rest| == |table|
        invariant forall i :: 0 <= i < |keys| ==> keys[i] in table && keys[i] !in rest
        invariant forall i, j :: 0 <= i < j < |keys| ==> Before(table, keys[i], keys[j])
        invariant forall i, d :: 0 <= i < |keys| && d in rest ==> Before(table, keys[i], d)
        invariant forall d :: d in table ==> d in rest || d in keys
        decreases |rest|
      {
        var d := Oldest(rest);
        keys := keys + [d];
        rest := rest - {d};
      }
    }

    method Oldest(among: set<Addr>) returns (d: Addr)
      requires among != {} && among <= table.Keys
      ensures d in among && forall x :: x in among && x != d ==> Before(table, d, x)
    {
      d :| d in among;
      var todo := among - {d};
      while todo != {}
        invariant todo <= among && d in among && d !in todo
        invariant forall x :: x in among && x !in todo && x != d ==> Before(table, d, x)
        decreases |todo|
      {
        var x :| x in todo;
        todo := todo - {x};
        if Before(table, x, d) {
          d := x;
        }
      }
    }

    method Cull()
      modifies this`table
      ensures CullsTo(old(table), table, announceMax, pathMax)
    {
      if |table| <= announceMax {
        return;
      }
      ghost var t := table;
      var keys := OldestFirst();
      var i := 0;
      while i < |keys|
        invariant i <= |keys| && |table| == |t| - i
        invariant table.Keys <= t.Keys && forall d :: d in table ==> table[d] == t[d]
        invariant forall k :: 0 <= k < |keys| ==> (keys[k] in table <==> i <= k)
        invariant i > 0 ==> |table| > pathMax
      {
        Remove(keys[i]);
        i := i + 1;
        if |table| <= pathMax {
          break;
        }
      }
      assert |table| == Min(|t| - 1, pathMax);
    }

    method Remove(d: Addr)
      requires d in table
      modifies this`table
      ensures table == old(table) - {d} && |table| == |old(table)| - 1
    {
      ghost var keys := table.Keys;
      table := table - {d};
      assert table.Keys == keys - {d};
    }

    method Add(d: Addr, e: Entry)
      requires |table| <= announceMax
      modifies this`table
      ensures CullsTo(Insert(old(table), d, e), table, announceMax, pathMax) && |table| <= announceMax
    {
      ghost var t := table;
      if d !in table {
        table := table[d := e];
      }
      Cull();
      InsertStaysWithinLimit(t, d, e, table, announceMax, pathMax);
    }
  }
}
