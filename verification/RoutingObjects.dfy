/** The announce branch of Transport::inbound on the tables it updates, and the loops it runs over the blobs kept. */
module RoutingObjects {
  import opened Routing

  /** timebase_from_random_blobs. */
  method TimebaseFromRandomBlobs(blobs: seq<Blob>) returns (timebase: nat)
    ensures timebase == Timebase(blobs)
    ensures forall b :: b in blobs ==> b.emitted <= timebase
  {
    timebase := 0;
    for i := 0 to |blobs|
      invariant timebase == Timebase(blobs[..i])
    {
      assert blobs[..i + 1][..i] == blobs[..i];
      if blobs[i].emitted > timebase {
        timebase := blobs[i].emitted;
      }
    }
    assert blobs[..|blobs|] == blobs;
    TimebaseBounds(blobs);
  }

  /**
   The search for a longer path's emission time stops at the first blob that is not older
   than the announce. It need not find the maximum, but it tells "newer" exactly.
   */
  method PathAnnounceEmitted(blobs: seq<Blob>, emitted: nat) returns (found: nat)
    ensures emitted > found <==> emitted > Timebase(blobs)
    ensures found <= Timebase(blobs)
  {
    found := 0;
    TimebaseBounds(blobs);
    var i := 0;
    while i < |blobs|
      invariant i <= |blobs| && found == Timebase(blobs[..i]) && found <= Timebase(blobs)
    {
      assert blobs[..i + 1][..i] == blobs[..i];
      if blobs[i].emitted > found {
        found := blobs[i].emitted;
      }
      if found >= emitted {
        return;
      }
      i := i + 1;
    }
    assert blobs[..|blobs|] == blobs;
  }

  class TransportTables {
    const local: set<Addr>
    var paths: map<Addr, PathEntry>
    var pending: map<Addr, Pending>

    constructor (local: set<Addr>)
      ensures Tables() == Node(local, map[], map[])
    {
      this.local := local;
      paths, pending := map[], map[];
    }

    function Tables(): Node
      reads this
    {
      Node(local, paths, pending)
    }

    method Settle(a: Announce, ctx: Context)
      modifies this`pending
      ensures pending == Overhear(old(pending), a, ctx)
    {
      if a.via.Some? && a.dest in pending {
        var p := pending[a.dest];
        var erased := false;
        if HopsOf(a) - 1 == p.hops {
          p := p.(localRebroadcasts := p.localRebroadcasts + 1);
          pending := pending[a.dest := p];
          if p.localRebroadcasts >= LOCAL_REBROADCASTS_MAX {
            pending := pending - {a.dest};
            erased := true;
          }
        }
        if !erased && HopsOf(a) - 1 == p.hops + 1 && p.retries > 0 {
          if ctx.early {
            pending := pending - {a.dest};
          }
        }
      }
    }

    method Judge(a: Announce, ctx: Context) returns (add: bool)
      ensures add == ShouldAdd(Path(Tables(), a.dest), HopsOf(a), a.blob, ctx)
    {
      if a.dest !in paths {
        return true;
      }
      var path := paths[a.dest];
      add := false;
      if HopsOf(a) <= path.hops {
        var timebase := TimebaseFromRandomBlobs(path.blobs);
        add := a.blob !in path.blobs && a.blob.emitted > timebase;
      } else {
        var emitted := PathAnnounceEmitted(path.blobs, a.blob.emitted);
        if ctx.expired {
          add := a.blob !in path.blobs;
        } else if a.blob.emitted > emitted {
          add := a.blob !in path.blobs;
        } else if a.blob.emitted == emitted {
          add := ctx.unresponsive;
        }
      }
      if ctx.unresponsive {
        add := true;
      }
    }

    /** One announce: settle pending rebroadcasts, decide, and update path and announce tables. */
    method Inbound(a: Announce, ctx: Context) returns (added: bool)
      modifies this
      ensures Tables() == Receive(old(Tables()), a, ctx)
      ensures added == Accepts(old(Tables()), a, ctx)
    {
      if a.dest in local {
        return false;
      }
      Settle(a, ctx);
      added := false;
      if HopsOf(a) < PATHFINDER_M + 1 {
        added := Judge(a, ctx);
      }
      if added {
        var blobs := if a.dest in paths then paths[a.dest].blobs else [];
        if a.blob !in blobs {
          blobs := blobs + [a.blob];
          if |blobs| > MAX_RANDOM_BLOBS {
            blobs := blobs[|blobs| - MAX_RANDOM_BLOBS..];
          }
        }
        if !ctx.rateBlocked && a.dest !in pending {
          pending := pending[a.dest := Pending(HopsOf(a), a.blob, 0, 0)];
        }
        paths := paths[a.dest := PathEntry(NextHopOf(a), HopsOf(a), blobs)];
      }
    }
  }
}
