/**
 Announce handling of Transport: which announces replace a path, what a node remembers
 of them, and what it rebroadcasts. Addresses are the 16-byte hashes, read as numbers;
 a random blob is its five random bytes and the five bytes of its emission time.
 */
module Routing {
  import opened Basics

  type Addr = nat

  const PATHFINDER_M: nat := 128
  const LOCAL_REBROADCASTS_MAX: nat := 2
  const MAX_RANDOM_BLOBS: nat := 32

  datatype Blob = Blob(nonce: nat, emitted: nat)

  /** An announce on the wire; via is the transport id of the node that rebroadcast it. */
  datatype Announce = Announce(dest: Addr, blob: Blob, hops: nat, via: Option<Addr>)

  datatype PathEntry = PathEntry(nextHop: Addr, hops: nat, blobs: seq<Blob>)

  /** An announce waiting to be rebroadcast. */
  datatype Pending = Pending(hops: nat, blob: Blob, retries: nat, localRebroadcasts: nat)

  datatype Node = Node(local: set<Addr>, paths: map<Addr, PathEntry>, pending: map<Addr, Pending>)

  /** What the clock, the path state and the rate limiter say when an announce arrives. */
  datatype Context = Context(expired: bool, unresponsive: bool, rateBlocked: bool, early: bool)

  // ------------------------------------------------------------- the decision

  /** The largest emission time among the blobs, 0 if there are none. */
  function Timebase(blobs: seq<Blob>): nat {
    if blobs == [] then 0
    else
      var last := blobs[|blobs| - 1].emitted;
      var rest := Timebase(blobs[..|blobs| - 1]);
      if last > rest then last else rest
  }

  /** Should an announce of this blob, heard over this many hops, replace the path? */
  predicate ShouldAdd(entry: Option<PathEntry>, hops: nat, blob: Blob, ctx: Context) {
    match entry
    case None => true
    case Some(path) =>
      var newer := blob.emitted > Timebase(path.blobs);
      var unheard := blob !in path.blobs;
      var replace :=
        if hops <= path.hops then unheard && newer
        else if ctx.expired then unheard
        else if newer then unheard
        else blob.emitted == Timebase(path.blobs) && ctx.unresponsive;
      replace || ctx.unresponsive
  }

  /** The blobs kept: the new one goes to the end, the oldest beyond the limit are dropped. */
  function Remember(blobs: seq<Blob>, blob: Blob): seq<Blob> {
    if blob in blobs then blobs
    else
      var all := blobs + [blob];
      if |all| > MAX_RANDOM_BLOBS then all[|all| - MAX_RANDOM_BLOBS..] else all
  }

  function Path(node: Node, dest: Addr): Option<PathEntry> {
    if dest in node.paths then Some(node.paths[dest]) else None
  }

  function HopsOf(a: Announce): nat { (a.hops + 1) % 256 }

  predicate Accepts(node: Node, a: Announce, ctx: Context) {
    a.dest !in node.local && HopsOf(a) < PATHFINDER_M + 1 && ShouldAdd(Path(node, a.dest), HopsOf(a), a.blob, ctx)
  }

  /** Hearing a neighbour rebroadcast an announce can settle our own pending one. */
  function Overhear(pending: map<Addr, Pending>, a: Announce, ctx: Context): map<Addr, Pending> {
    if a.via.None? || a.dest !in pending then pending
    else
      var p := pending[a.dest];
      if HopsOf(a) - 1 == p.hops then
        if p.localRebroadcasts + 1 >= LOCAL_REBROADCASTS_MAX then pending - {a.dest}
        else pending[a.dest := p.(localRebroadcasts := p.localRebroadcasts + 1)]
      else if HopsOf(a) - 1 == p.hops + 1 && p.retries > 0 && ctx.early then pending - {a.dest}
      else pending
  }

  /** The next hop is the node that rebroadcast the announce, or the destination itself. */
  function NextHopOf(a: Announce): Addr { if a.via.Some? then a.via.value else a.dest }

  function KeptBlobs(node: Node, dest: Addr): seq<Blob> {
    if dest in node.paths then node.paths[dest].blobs else []
  }

  function Receive(node: Node, a: Announce, ctx: Context): Node {
    if a.dest in node.local then node
    else
      var heard := node.(pending := Overhear(node.pending, a, ctx));
      if !Accepts(node, a, ctx) then heard
      else
        var entry := PathEntry(NextHopOf(a), HopsOf(a), Remember(KeptBlobs(node, a.dest), a.blob));
        var pending := if ctx.rateBlocked || a.dest in heard.pending then heard.pending
                       else heard.pending[a.dest := Pending(HopsOf(a), a.blob, 0, 0)];
        node.(paths := node.paths[a.dest := entry], pending := pending)
  }

  function Rebroadcast(id: Addr, dest: Addr, p: Pending): Announce {
    Announce(dest, p.blob, p.hops, Some(id))
  }

  // ---------------------------------------------------------- what is remembered

  /** The newest blob is the last one kept. */
  predicate LastIsNewest(blobs: seq<Blob>) {
    |blobs| > 0 && forall k :: 0 <= k < |blobs| ==> blobs[k].emitted <= blobs[|blobs| - 1].emitted
  }

  function Newest(blobs: seq<Blob>): nat
    requires |blobs| > 0
  {
    blobs[|blobs| - 1].emitted
  }

  lemma {:induction false} TimebaseBounds(blobs: seq<Blob>)
    ensures forall k :: 0 <= k < |blobs| ==> blobs[k].emitted <= Timebase(blobs)
    ensures blobs != [] ==> exists k :: 0 <= k < |blobs| && blobs[k].emitted == Timebase(blobs)
  {
    if blobs != [] {
      var n := |blobs| - 1;
      TimebaseBounds(blobs[..n]);
      assert forall k :: 0 <= k < n ==> blobs[..n][k] == blobs[k];
      assert blobs[n].emitted == Timebase(blobs) || n > 0;
    }
  }

  lemma {:induction false} TimebaseIsNewest(blobs: seq<Blob>)
    requires LastIsNewest(blobs)
    ensures Timebase(blobs) == Newest(blobs)
  {
    TimebaseBounds(blobs);
  }

  /**
   The decision, exactly: an announce replaces a path if and only if it is newer than
   every blob kept, or the path is unresponsive, or an expired path is offered a longer
   one by an announce not heard before.
   */
  lemma {:induction false} ReplacesExactlyWhen(path: PathEntry, hops: nat, blob: Blob, ctx: Context)
    requires LastIsNewest(path.blobs)
    ensures ShouldAdd(Some(path), hops, blob, ctx) <==>
            || blob.emitted > Newest(path.blobs)
            || ctx.unresponsive
            || (ctx.expired && hops > path.hops && blob !in path.blobs)
  {
    TimebaseIsNewest(path.blobs);
  }

  lemma {:induction false} RememberKeepsNewest(blobs: seq<Blob>, blob: Blob)
    requires blobs == [] || (LastIsNewest(blobs) && blob.emitted > Newest(blobs))
    ensures LastIsNewest(Remember(blobs, blob)) && Newest(Remember(blobs, blob)) == blob.emitted
    ensures |blobs| <= MAX_RANDOM_BLOBS ==> |Remember(blobs, blob)| <= MAX_RANDOM_BLOBS
  {
  }

  /** Every blob of the history is newer than the one before. */
  predicate Rising(history: seq<Blob>) {
    forall i, j :: 0 <= i < j < |history| ==> history[i].emitted < history[j].emitted
  }

  function LastKept(history: seq<Blob>): seq<Blob> {
    if |history| > MAX_RANDOM_BLOBS then history[|history| - MAX_RANDOM_BLOBS..] else history
  }

  /**
   A path that remembers only the last blobs of its whole history decides as if it remembered
   all of them, but for one case: an expired path that is offered a longer one by an announce
   so old that it is forgotten. And it remembers the right ones next.
   */
  lemma {:induction false} BoundedMemorySuffices(nextHop: Addr, hops: nat, history: seq<Blob>, heard: nat, blob: Blob, ctx: Context)
    requires Rising(history) && history != []
    ensures (ShouldAdd(Some(PathEntry(nextHop, hops, LastKept(history))), heard, blob, ctx)
             <==> ShouldAdd(Some(PathEntry(nextHop, hops, history)), heard, blob, ctx))
        <==> !(ctx.expired && !ctx.unresponsive && heard > hops && blob in history && blob !in LastKept(history))
    ensures blob.emitted > Newest(history) ==>
              Rising(history + [blob]) && Remember(LastKept(history), blob) == LastKept(history + [blob])
  {
    LastKeptRises(history);
    ReplacesExactlyWhen(PathEntry(nextHop, hops, history), heard, blob, ctx);
    ReplacesExactlyWhen(PathEntry(nextHop, hops, LastKept(history)), heard, blob, ctx);
    RememberLast(history, blob);
  }

  lemma {:induction false} LastKeptRises(history: seq<Blob>)
    requires Rising(history) && history != []
    ensures LastIsNewest(history) && LastIsNewest(LastKept(history)) && Newest(LastKept(history)) == Newest(history)
  {
  }

  lemma {:induction false} RememberLast(history: seq<Blob>, blob: Blob)
    requires Rising(history) && history != []
    ensures blob.emitted > Newest(history) ==>
              Rising(history + [blob]) && Remember(LastKept(history), blob) == LastKept(history + [blob])
  {
  }

  // ------------------------------------------------- what is rebroadcast

  /** A rate-blocked announce is not queued for rebroadcast; any other that is accepted is. */
  lemma {:induction false} QueuedExactlyWhen(node: Node, a: Announce, ctx: Context)
    ensures ctx.rateBlocked ==> Receive(node, a, ctx).pending.Keys <= node.pending.Keys
    ensures !ctx.rateBlocked && Accepts(node, a, ctx) ==> a.dest in Receive(node, a, ctx).pending
    ensures !Accepts(node, a, ctx) ==> Receive(node, a, ctx).pending.Keys <= node.pending.Keys
  {
  }

  /** The limiter holds back rebroadcasts, not paths. */
  lemma {:induction false} BlockingKeepsPaths(node: Node, a: Announce, ctx: Context)
    ensures Receive(node, a, ctx.(rateBlocked := true)).paths == Receive(node, a, ctx.(rateBlocked := false)).paths
  {
  }

  /**
   A pending rebroadcast is given up once two neighbours at the node's own distance have made
   it, or one further away has passed it on after the node itself sent it; an announce of another
   destination, from the origin itself or over other distances leaves it alone.
   */
  lemma {:induction false} SettledExactlyWhen(pending: map<Addr, Pending>, a: Announce, ctx: Context, d: Addr)
    requires d in pending
    ensures var p, before := pending[d], HopsOf(a) - 1;
            && (d !in Overhear(pending, a, ctx) <==>
                  && a.dest == d && a.via.Some?
                  && ((before == p.hops && p.localRebroadcasts + 1 >= 2) || (before == p.hops + 1 && p.retries > 0 && ctx.early)))
            && (d in Overhear(pending, a, ctx) ==>
                  Overhear(pending, a, ctx)[d] ==
                  p.(localRebroadcasts := if a.dest == d && a.via.Some? && before == p.hops then p.localRebroadcasts + 1 else p.localRebroadcasts))
  {
  }

  /** Two rebroadcasts heard at the node's own distance settle a fresh entry. */
  lemma {:induction false} TwoNeighboursSettle(pending: map<Addr, Pending>, a: Announce, b: Announce, ctx: Context, ctx': Context)
    requires a.dest in pending && pending[a.dest].localRebroadcasts == 0 && b.dest == a.dest && a.via.Some? && b.via.Some?
    requires HopsOf(a) - 1 == HopsOf(b) - 1 == pending[a.dest].hops
    ensures a.dest in Overhear(pending, a, ctx) && a.dest !in Overhear(Overhear(pending, a, ctx), b, ctx')
  {
    SettledExactlyWhen(pending, a, ctx, a.dest);
    SettledExactlyWhen(Overhear(pending, a, ctx), b, ctx', a.dest);
  }

  // ---------------------------------------------------------------- at the edges

  /** A node ignores announces of its own destinations. */
  lemma {:induction false} OwnAnnouncesAreIgnored(node: Node, a: Announce, ctx: Context)
    requires a.dest in node.local
    ensures Receive(node, a, ctx) == node && !Accepts(node, a, ctx)
  {
  }

  /** The hop count of a packet is a byte, counted up on arrival. */
  lemma {:induction false} HopsAreBytes(a: Announce)
    ensures a.hops < 255 ==> HopsOf(a) == a.hops + 1
    ensures a.hops == 255 ==> HopsOf(a) == 0
  {
  }

  /** What an accepted announce leaves of the blobs: those there were, the new one at the end unless it was heard, and 32 at most. */
  lemma {:induction false} BlobsAfterAccepting(node: Node, a: Announce, ctx: Context)
    requires Accepts(node, a, ctx)
    ensures var was := if a.dest in node.paths then node.paths[a.dest].blobs else [];
            var all := if a.blob in was then was else was + [a.blob];
            && a.dest in Receive(node, a, ctx).paths
            && Receive(node, a, ctx).paths[a.dest].blobs == if a.blob in was || |all| <= 32 then all else all[|all| - 32..]
  {
  }
}
