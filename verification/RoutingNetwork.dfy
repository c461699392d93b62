/**
 Any number of nodes that exchange rebroadcast announces over a network that loses,
 reorders and duplicates: the network is the set of all announces ever sent, and any of
 them may reach any node at any time, any number of times.

 As long as no node replaces a path to a destination by an announce that is not newer, the
 next-hop graph of that destination has no cycle, and following next hops from any node
 that has a path leads to a neighbour of the destination. One such override, by expiry or
 by the mark of an unresponsive path, can close a cycle.
 */
module RoutingNetwork {
  import opened Basics
  import opened Routing

  datatype Network = Network(nodes: map<Addr, Node>, sent: set<Announce>)

  datatype Event =
    | Originate(host: Addr, dest: Addr, blob: Blob)
    | Deliver(node: Addr, announce: Announce, ctx: Context)
    | Retransmit(node: Addr, dest: Addr)
    | Forget(node: Addr, dest: Addr)

  predicate Enabled(net: Network, e: Event) {
    match e
    case Originate(host, dest, _) => host in net.nodes && dest in net.nodes[host].local && dest !in net.nodes
    case Deliver(node, announce, _) => node in net.nodes && announce in net.sent
    case Retransmit(node, dest) => node in net.nodes && dest in net.nodes[node].pending
    case Forget(node, dest) => node in net.nodes && dest in net.nodes[node].pending
  }

  function Step(net: Network, e: Event): Network
    requires Enabled(net, e)
  {
    match e
    case Originate(host, dest, blob) => net.(sent := net.sent + {Announce(dest, blob, 0, None)})
    case Deliver(id, announce, ctx) =>
      net.(nodes := net.nodes[id := Receive(net.nodes[id], announce, ctx)])
    case Retransmit(id, dest) =>
      var node := net.nodes[id];
      var p := node.pending[dest];
      net.(nodes := net.nodes[id := node.(pending := node.pending[dest := p.(retries := p.retries + 1)])],
           sent := net.sent + {Rebroadcast(id, dest, p)})
    case Forget(id, dest) =>
      var node := net.nodes[id];
      net.(nodes := net.nodes[id := node.(pending := node.pending - {dest})])
  }

  /** The step replaces a path to dest by an announce no newer than one the path remembers. */
  predicate Overrides(net: Network, e: Event, dest: Addr) {
    && e.Deliver? && e.announce.dest == dest && e.node in net.nodes && Accepts(net.nodes[e.node], e.announce, e.ctx)
    && e.announce.dest in net.nodes[e.node].paths
    && e.announce.blob.emitted <= Timebase(net.nodes[e.node].paths[e.announce.dest].blobs)
  }

  // --------------------------------------------------------------- invariant

  /** How recent a path is: a later emission, or the same one over fewer hops. */
  datatype Key = Key(emitted: nat, hops: nat)

  predicate Below(a: Key, b: Key) { a.emitted < b.emitted || (a.emitted == b.emitted && a.hops > b.hops) }

  predicate WellFormedPath(entry: PathEntry) { LastIsNewest(entry.blobs) && 1 <= entry.hops <= PATHFINDER_M }

  predicate Knows(net: Network, id: Addr, dest: Addr) {
    id in net.nodes && dest in net.nodes[id].paths && WellFormedPath(net.nodes[id].paths[dest])
  }

  function KeyOf(net: Network, id: Addr, dest: Addr): Key
    requires Knows(net, id, dest)
  {
    var entry := net.nodes[id].paths[dest];
    Key(Newest(entry.blobs), entry.hops)
  }

  /** Node id has, or had and replaced by something newer, a path of this emission over this many hops. */
  predicate Vouches(net: Network, id: Addr, dest: Addr, emitted: nat, hops: nat) {
    && Knows(net, id, dest)
    && (emitted < KeyOf(net, id, dest).emitted || KeyOf(net, id, dest) == Key(emitted, hops))
  }

  predicate SentOk(net: Network, a: Announce) {
    && a.dest !in net.nodes
    && match a.via
       case None => a.hops == 0
       case Some(id) => 1 <= a.hops <= PATHFINDER_M && Vouches(net, id, a.dest, a.blob.emitted, a.hops)
  }

  predicate PathOk(net: Network, dest: Addr, entry: PathEntry) {
    && WellFormedPath(entry)
    && dest !in net.nodes
    && if entry.nextHop == dest then entry.hops == 1
       else entry.hops > 1 && Vouches(net, entry.nextHop, dest, Newest(entry.blobs), entry.hops - 1)
  }

  predicate PendingOk(net: Network, id: Addr, dest: Addr, p: Pending) {
    1 <= p.hops <= PATHFINDER_M && Vouches(net, id, dest, p.blob.emitted, p.hops) && dest !in net.nodes
  }

  predicate PathHolds(net: Network, id: Addr, dest: Addr) {
    id in net.nodes && dest in net.nodes[id].paths ==> PathOk(net, dest, net.nodes[id].paths[dest])
  }

  predicate PendingHolds(net: Network, id: Addr, dest: Addr) {
    id in net.nodes && dest in net.nodes[id].pending ==> PendingOk(net, id, dest, net.nodes[id].pending[dest])
  }

  /** What holds of the announces, paths and pending entries of one destination. */
  ghost predicate NetworkInv(net: Network, dest: Addr) {
    && (forall a :: a in net.sent && a.dest == dest ==> SentOk(net, a))
    && (forall id :: PathHolds(net, id, dest))
    && (forall id :: PendingHolds(net, id, dest))
  }

  /** Nodes stay, and each path to dest is kept or replaced by a newer one. */
  ghost predicate Advances(net: Network, net': Network, dest: Addr) {
    && net'.nodes.Keys == net.nodes.Keys
    && forall id :: Knows(net, id, dest) ==>
         Knows(net', id, dest)
         && (KeyOf(net', id, dest) == KeyOf(net, id, dest) || KeyOf(net', id, dest).emitted > KeyOf(net, id, dest).emitted)
  }

  lemma {:induction false} VouchesStays(net: Network, net': Network, id: Addr, dest: Addr, emitted: nat, hops: nat)
    requires Advances(net, net', dest) && Vouches(net, id, dest, emitted, hops)
    ensures Vouches(net', id, dest, emitted, hops)
  {
  }

  /** What an accepted announce changes in the node that accepts it. */
  lemma {:induction false} AcceptedEntry(node: Node, a: Announce, ctx: Context)
    requires Accepts(node, a, ctx)
    requires a.dest in node.paths ==>
               LastIsNewest(node.paths[a.dest].blobs) && a.blob.emitted > Timebase(node.paths[a.dest].blobs)
    ensures var entry := Receive(node, a, ctx).paths[a.dest];
            && entry.nextHop == NextHopOf(a) && entry.hops == HopsOf(a)
            && LastIsNewest(entry.blobs) && Newest(entry.blobs) == a.blob.emitted
            && (a.dest in node.paths ==> a.blob.emitted > Newest(node.paths[a.dest].blobs))
  {
    if a.dest in node.paths {
      TimebaseIsNewest(node.paths[a.dest].blobs);
    }
    RememberKeepsNewest(KeptBlobs(node, a.dest), a.blob);
  }

  /** An announce of another destination leaves the path and the pending entry of this one alone. */
  lemma {:induction false} OtherDestination(node: Node, a: Announce, ctx: Context, dest: Addr)
    requires a.dest != dest
    ensures var node' := Receive(node, a, ctx);
            && Path(node', dest) == Path(node, dest)
            && (dest in node'.pending <==> dest in node.pending)
            && (dest in node.pending ==> node'.pending[dest] == node.pending[dest])
  {
  }

  lemma {:induction false} DeliverAdvances(net: Network, e: Event, dest: Addr)
    requires NetworkInv(net, dest) && Enabled(net, e) && !Overrides(net, e, dest) && e.Deliver?
    ensures Advances(net, Step(net, e), dest)
  {
    var a, node, net' := e.announce, net.nodes[e.node], Step(net, e);
    if a.dest != dest {
      OtherDestination(node, a, e.ctx, dest);
    } else if Accepts(node, a, e.ctx) {
      assert SentOk(net, a);
      assert PathHolds(net, e.node, a.dest);
      AcceptedEntry(node, a, e.ctx);
      assert net'.nodes[e.node].paths == node.paths[a.dest := net'.nodes[e.node].paths[a.dest]];
    }
  }

  lemma {:induction false} OtherAdvances(net: Network, e: Event, dest: Addr)
    requires Enabled(net, e) && !e.Deliver?
    ensures Advances(net, Step(net, e), dest)
  {
  }

  /** What was vouched for before a step still is. */
  lemma {:induction false} SentStays(net: Network, net': Network, a: Announce)
    requires Advances(net, net', a.dest) && SentOk(net, a)
    ensures SentOk(net', a)
  {
    if a.via.Some? {
      VouchesStays(net, net', a.via.value, a.dest, a.blob.emitted, a.hops);
    }
  }

  lemma {:induction false} PathStays(net: Network, net': Network, dest: Addr, entry: PathEntry)
    requires Advances(net, net', dest) && PathOk(net, dest, entry)
    ensures PathOk(net', dest, entry)
  {
    if entry.nextHop != dest {
      VouchesStays(net, net', entry.nextHop, dest, Newest(entry.blobs), entry.hops - 1);
    }
  }

  lemma {:induction false} PendingStays(net: Network, net': Network, id: Addr, dest: Addr, p: Pending)
    requires Advances(net, net', dest) && PendingOk(net, id, dest, p)
    ensures PendingOk(net', id, dest, p)
  {
    VouchesStays(net, net', id, dest, p.blob.emitted, p.hops);
  }

  /** The path that an accepted announce installs is vouched for by its next hop. */
  lemma {:induction false} NewPathOk(net: Network, net': Network, e: Event, dest: Addr)
    requires NetworkInv(net, dest) && Enabled(net, e) && !Overrides(net, e, dest) && e.Deliver? && e.announce.dest == dest
    requires net' == Step(net, e) && Advances(net, net', dest) && Accepts(net.nodes[e.node], e.announce, e.ctx)
    ensures PathOk(net', dest, net'.nodes[e.node].paths[dest])
    ensures Vouches(net', e.node, dest, e.announce.blob.emitted, HopsOf(e.announce))
  {
    var a, node := e.announce, net.nodes[e.node];
    assert SentOk(net, a);
    assert PathHolds(net, e.node, a.dest);
    AcceptedEntry(node, a, e.ctx);
    SentStays(net, net', a);
  }

  /** A pending announce is an earlier one, or the one just accepted. */
  lemma {:induction false} PendingAfter(node: Node, a: Announce, ctx: Context, dest: Addr)
    requires dest in Receive(node, a, ctx).pending
    ensures var p := Receive(node, a, ctx).pending[dest];
            || (dest in node.pending && p.blob == node.pending[dest].blob && p.hops == node.pending[dest].hops)
            || (Accepts(node, a, ctx) && dest == a.dest && p.blob == a.blob && p.hops == HopsOf(a))
  {
  }

  lemma {:induction false} DeliverKeeps(net: Network, e: Event, dest: Addr)
    requires NetworkInv(net, dest) && Enabled(net, e) && !Overrides(net, e, dest) && e.Deliver?
    ensures NetworkInv(Step(net, e), dest)
  {
    var a, node, net' := e.announce, net.nodes[e.node], Step(net, e);
    DeliverAdvances(net, e, dest);
    if a.dest == dest && Accepts(node, a, e.ctx) {
      NewPathOk(net, net', e, dest);
    }
    forall b | b in net'.sent && b.dest == dest ensures SentOk(net', b) {
      SentStays(net, net', b);
    }
    forall id ensures PathHolds(net', id, dest) {
      if id in net'.nodes && dest in net'.nodes[id].paths && !(a.dest == dest && Accepts(node, a, e.ctx) && id == e.node) {
        assert PathHolds(net, id, dest);
        PathStays(net, net', dest, net.nodes[id].paths[dest]);
      }
    }
    forall id ensures PendingHolds(net', id, dest) {
      if id in net'.nodes && dest in net'.nodes[id].pending {
        assert PendingHolds(net, id, dest);
        if dest in net.nodes[id].pending {
          PendingStays(net, net', id, dest, net.nodes[id].pending[dest]);
        }
        if id == e.node {
          PendingAfter(node, a, e.ctx, dest);
        }
      }
    }
  }

  lemma {:induction false} OtherKeeps(net: Network, e: Event, dest: Addr)
    requires NetworkInv(net, dest) && Enabled(net, e) && !e.Deliver?
    ensures NetworkInv(Step(net, e), dest)
  {
    var net' := Step(net, e);
    OtherAdvances(net, e, dest);
    if e.Retransmit? && e.dest == dest {
      assert PendingHolds(net, e.node, e.dest);
      PendingStays(net, net', e.node, e.dest, net.nodes[e.node].pending[e.dest]);
    }
    forall b | b in net'.sent && b.dest == dest ensures SentOk(net', b) {
      if b in net.sent {
        SentStays(net, net', b);
      }
    }
    forall id ensures PathHolds(net', id, dest) {
      assert PathHolds(net, id, dest);
      if id in net'.nodes && dest in net'.nodes[id].paths {
        PathStays(net, net', dest, net.nodes[id].paths[dest]);
      }
    }
    forall id ensures PendingHolds(net', id, dest) {
      assert PendingHolds(net, id, dest);
      if id in net'.nodes && dest in net'.nodes[id].pending {
        PendingStays(net, net', id, dest, net.nodes[id].pending[dest]);
      }
    }
  }

  lemma {:induction false} StepKeeps(net: Network, e: Event, dest: Addr)
    requires NetworkInv(net, dest) && Enabled(net, e) && !Overrides(net, e, dest)
    ensures NetworkInv(Step(net, e), dest) && Advances(net, Step(net, e), dest)
  {
    if e.Deliver? {
      DeliverKeeps(net, e, dest);
      DeliverAdvances(net, e, dest);
    } else {
      OtherKeeps(net, e, dest);
      OtherAdvances(net, e, dest);
    }
  }

  // -------------------------------------------------------------------- runs

  /** A network in which nothing has been sent yet. */
  predicate Quiet(net: Network) {
    net.sent == {} && forall id :: id in net.nodes ==> net.nodes[id].paths == map[] && net.nodes[id].pending == map[]
  }

  /** run[i] is the network before events[i], which is enabled. */
  ghost predicate Steps(run: seq<Network>, events: seq<Event>) {
    && |run| == |events| + 1
    && forall i :: 0 <= i < |events| ==> Enabled(run[i], events[i]) && run[i + 1] == Step(run[i], events[i])
  }

  /** From the start, and without an override of this destination; other destinations may have any. */
  ghost predicate IsRun(run: seq<Network>, events: seq<Event>, dest: Addr) {
    Steps(run, events) && Quiet(run[0]) && forall i :: 0 <= i < |events| ==> !Overrides(run[i], events[i], dest)
  }

  lemma {:induction false} RunKeeps(run: seq<Network>, events: seq<Event>, dest: Addr, i: nat)
    requires IsRun(run, events, dest) && i < |run|
    ensures NetworkInv(run[i], dest)
  {
    if i > 0 {
      RunKeeps(run, events, dest, i - 1);
      StepKeeps(run[i - 1], events[i - 1], dest);
    }
  }

  // ------------------------------------------------------------- loop freedom

  /** Node a forwards packets for dest to node b. */
  predicate Forwards(net: Network, dest: Addr, a: Addr, b: Addr) {
    && a in net.nodes && dest in net.nodes[a].paths
    && net.nodes[a].paths[dest].nextHop == b && b != dest
  }

  predicate Direct(net: Network, dest: Addr, a: Addr) {
    a in net.nodes && dest in net.nodes[a].paths && net.nodes[a].paths[dest].nextHop == dest
  }

  /** Along a next hop the emission time rises, or stays while the hops fall. */
  lemma {:induction false} KeyRises(net: Network, dest: Addr, a: Addr, b: Addr)
    requires NetworkInv(net, dest) && Forwards(net, dest, a, b)
    ensures Knows(net, a, dest) && Knows(net, b, dest)
    ensures Below(KeyOf(net, a, dest), KeyOf(net, b, dest))
  {
    assert PathHolds(net, a, dest);
  }

  /** A forwarding path: every node hands packets for dest to the next. */
  predicate IsPath(net: Network, dest: Addr, path: seq<Addr>) {
    forall i :: 0 <= i < |path| - 1 ==> Forwards(net, dest, path[i], path[i + 1])
  }

  lemma {:induction false} PathRises(net: Network, dest: Addr, path: seq<Addr>, i: nat, j: nat)
    requires NetworkInv(net, dest) && IsPath(net, dest, path) && i < j < |path|
    ensures Knows(net, path[i], dest) && Knows(net, path[j], dest)
    ensures Below(KeyOf(net, path[i], dest), KeyOf(net, path[j], dest))
  {
    assert Forwards(net, dest, path[j - 1], path[j - 1 + 1]);
    KeyRises(net, dest, path[j - 1], path[j]);
    if i < j - 1 {
      PathRises(net, dest, path, i, j - 1);
    }
  }

  /** Loop freedom: in every network of every run, no forwarding path to dest meets a node twice. */
  lemma {:induction false} LoopFree(run: seq<Network>, events: seq<Event>, at: nat, dest: Addr, path: seq<Addr>, i: nat, j: nat)
    requires IsRun(run, events, dest) && at < |run|
    requires IsPath(run[at], dest, path) && i < j < |path|
    ensures path[i] != path[j]
  {
    RunKeeps(run, events, dest, at);
    PathRises(run[at], dest, path, i, j);
  }

  /** The nodes whose path to dest is more recent than that of a. */
  function Ahead(net: Network, dest: Addr, a: Addr): set<Addr>
    requires Knows(net, a, dest)
  {
    set b | b in net.nodes && Knows(net, b, dest) && Below(KeyOf(net, a, dest), KeyOf(net, b, dest))
  }

  lemma {:induction false} SmallerSet(a: set<Addr>, b: set<Addr>, x: Addr)
    requires a <= b && x in b && x !in a
    ensures |a| < |b|
  {
    assert b == a + (b - a) && x in b - a;
  }

  /** From any node that has a path, next hops lead to a neighbour of the destination. */
  lemma {:induction false} NextHopsReach(net: Network, dest: Addr, a: Addr) returns (path: seq<Addr>)
    requires NetworkInv(net, dest) && Knows(net, a, dest)
    ensures path != [] && path[0] == a && IsPath(net, dest, path)
    ensures Direct(net, dest, path[|path| - 1])
    decreases |Ahead(net, dest, a)|
  {
    if net.nodes[a].paths[dest].nextHop == dest {
      path := [a];
    } else {
      var b := net.nodes[a].paths[dest].nextHop;
      KeyRises(net, dest, a, b);
      SmallerSet(Ahead(net, dest, b), Ahead(net, dest, a), b);
      var rest := NextHopsReach(net, dest, b);
      path := [a] + rest;
      assert forall i :: 1 <= i < |path| ==> path[i] == rest[i - 1];
      forall i | 0 <= i < |path| - 1 ensures Forwards(net, dest, path[i], path[i + 1]) {
        if i > 0 {
          assert Forwards(net, dest, rest[i - 1], rest[i - 1 + 1]);
        }
      }
    }
  }

  lemma {:induction false} EveryPathArrives(run: seq<Network>, events: seq<Event>, at: nat, dest: Addr, a: Addr)
    requires IsRun(run, events, dest) && at < |run|
    requires a in run[at].nodes && dest in run[at].nodes[a].paths
    ensures exists path: seq<Addr> :: path != [] && path[0] == a && IsPath(run[at], dest, path) && Direct(run[at], dest, path[|path| - 1])
  {
    RunKeeps(run, events, dest, at);
    assert PathHolds(run[at], a, dest);
    var path := NextHopsReach(run[at], dest, a);
  }

  // ----------------------------------------------------------------- rate blocking

  /** A rate-blocked delivery gives no node anything more to rebroadcast. */
  lemma {:induction false} BlockedAddsNothing(net: Network, e: Event, id: Addr, dest: Addr)
    requires Enabled(net, e) && e.Deliver? && e.ctx.rateBlocked
    ensures Step(net, e).sent == net.sent
    ensures Enabled(Step(net, e), Retransmit(id, dest)) ==> Enabled(net, Retransmit(id, dest))
  {
    QueuedExactlyWhen(net.nodes[e.node], e.announce, e.ctx);
  }

  /** Forgetting a pending announce ends its rebroadcasts until another is accepted, and touches nothing else. */
  lemma {:induction false} ForgettingStops(net: Network, id: Addr, dest: Addr)
    requires Enabled(net, Forget(id, dest))
    ensures var net' := Step(net, Forget(id, dest));
            && !Enabled(net', Retransmit(id, dest)) && net'.sent == net.sent
            && net'.nodes[id].paths == net.nodes[id].paths
            && forall i, d :: (i != id || d != dest) && Enabled(net, Retransmit(i, d)) ==> Enabled(net', Retransmit(i, d))
  {
  }

  // ---------------------------------------------------------- accepted at most once

  predicate AcceptedAt(net: Network, e: Event) {
    e.Deliver? && e.node in net.nodes && Accepts(net.nodes[e.node], e.announce, e.ctx)
  }

  /** The newest blob this node keeps of dest is the last. */
  predicate KeepsNewest(net: Network, id: Addr, dest: Addr) {
    id in net.nodes && (dest in net.nodes[id].paths ==> LastIsNewest(net.nodes[id].paths[dest].blobs))
  }

  /** What this node knows of dest is at least as new as this emission time. */
  predicate KnowsSince(net: Network, id: Addr, dest: Addr, emitted: nat)
    requires KeepsNewest(net, id, dest)
  {
    dest in net.nodes[id].paths && emitted <= Newest(net.nodes[id].paths[dest].blobs)
  }

  /** One step, seen from one node: only an override of its own could bring it an older path. */
  lemma {:induction false} NodeStep(net: Network, e: Event, id: Addr, dest: Addr)
    requires Enabled(net, e) && KeepsNewest(net, id, dest) && !(Overrides(net, e, dest) && e.node == id)
    ensures KeepsNewest(Step(net, e), id, dest)
    ensures forall emitted :: KnowsSince(net, id, dest, emitted) ==> KnowsSince(Step(net, e), id, dest, emitted)
    ensures AcceptedAt(net, e) && e.node == id && e.announce.dest == dest ==>
              && KnowsSince(Step(net, e), id, dest, e.announce.blob.emitted)
              && !KnowsSince(net, id, dest, e.announce.blob.emitted)
  {
    if e.Deliver? && e.node == id {
      var a, node := e.announce, net.nodes[id];
      if a.dest != dest {
        OtherDestination(node, a, e.ctx, dest);
      } else if Accepts(node, a, e.ctx) {
        AcceptedEntry(node, a, e.ctx);
      }
    }
  }

  /** Steps in which this node makes no override of dest; every other node may. */
  ghost predicate SteadyAt(run: seq<Network>, events: seq<Event>, id: Addr, dest: Addr) {
    && Steps(run, events) && Quiet(run[0]) && id in run[0].nodes
    && forall i :: 0 <= i < |events| ==> !(Overrides(run[i], events[i], dest) && events[i].node == id)
  }

  lemma {:induction false} NodeRun(run: seq<Network>, events: seq<Event>, id: Addr, dest: Addr, i: nat)
    requires SteadyAt(run, events, id, dest) && i < |run|
    ensures KeepsNewest(run[i], id, dest)
  {
    if i > 0 {
      NodeRun(run, events, id, dest, i - 1);
      NodeStep(run[i - 1], events[i - 1], id, dest);
    }
  }

  lemma {:induction false} KnowledgeStays(run: seq<Network>, events: seq<Event>, id: Addr, dest: Addr, i: nat, j: nat, emitted: nat)
    requires SteadyAt(run, events, id, dest) && i <= j < |run|
    requires KeepsNewest(run[i], id, dest) && KnowsSince(run[i], id, dest, emitted)
    ensures KeepsNewest(run[j], id, dest) && KnowsSince(run[j], id, dest, emitted)
  {
    if i < j {
      KnowledgeStays(run, events, id, dest, i, j - 1, emitted);
      NodeStep(run[j - 1], events[j - 1], id, dest);
    }
  }

  /**
   Two announces of one destination that a node accepts in one run: the later one was emitted
   later. The node itself must not override the destination; what else happens is arbitrary.
   */
  lemma {:induction false} AcceptedInOrder(run: seq<Network>, events: seq<Event>, id: Addr, dest: Addr, i: nat, j: nat)
    requires SteadyAt(run, events, id, dest) && i < j < |events|
    requires AcceptedAt(run[i], events[i]) && AcceptedAt(run[j], events[j])
    requires events[i].node == events[j].node == id && events[i].announce.dest == events[j].announce.dest == dest
    ensures events[i].announce.blob.emitted < events[j].announce.blob.emitted
  {
    NodeRun(run, events, id, dest, i);
    NodeStep(run[i], events[i], id, dest);
    KnowledgeStays(run, events, id, dest, i + 1, j, events[i].announce.blob.emitted);
    NodeStep(run[j], events[j], id, dest);
  }

  // ---------------------------------------------------------------- overrides

  /**
   When a step is an override: the announce is not newer, and the path is marked
   unresponsive, or has expired and is offered a longer one by an announce not heard before.
   */
  lemma {:induction false} OverridesExactlyWhen(run: seq<Network>, events: seq<Event>, i: nat, e: Event)
    requires i < |run| && e.Deliver? && SteadyAt(run, events, e.node, e.announce.dest)
    requires Enabled(run[i], e) && e.Deliver? && e.announce.dest in run[i].nodes[e.node].paths
    ensures var node, a, ctx := run[i].nodes[e.node], e.announce, e.ctx;
            var path := node.paths[a.dest];
            && path.blobs != []
            && (Overrides(run[i], e, a.dest) <==>
                 && a.dest !in node.local && HopsOf(a) <= PATHFINDER_M && a.blob.emitted <= Newest(path.blobs)
                 && (ctx.unresponsive || (ctx.expired && HopsOf(a) > path.hops && a.blob !in path.blobs)))
  {
    NodeRun(run, events, e.node, e.announce.dest, i);
    var path := run[i].nodes[e.node].paths[e.announce.dest];
    ReplacesExactlyWhen(path, HopsOf(e.announce), e.announce.blob, e.ctx);
    TimebaseIsNewest(path.blobs);
  }

  const Plain: Context := Context(false, false, false, false)
  const Late: Context := Context(true, false, false, false)
  const Silent: Context := Context(false, true, false, false)

  /** Steps without overrides of dest. */
  ghost predicate Linked(run: seq<Network>, events: seq<Event>, dest: Addr) {
    Steps(run, events) && forall i :: 0 <= i < |events| ==> !Overrides(run[i], events[i], dest)
  }

  lemma {:induction false} Join(a: seq<Network>, ea: seq<Event>, b: seq<Network>, eb: seq<Event>, dest: Addr)
    requires Linked(a, ea, dest) && Linked(b, eb, dest) && a[|a| - 1] == b[0]
    ensures Linked(a + b[1..], ea + eb, dest)
  {
    var run, events := a + b[1..], ea + eb;
    forall i | 0 <= i < |events|
      ensures Enabled(run[i], events[i]) && !Overrides(run[i], events[i], dest) && run[i + 1] == Step(run[i], events[i])
    {
      if i >= |ea| {
        assert run[i] == b[i - |ea|] && events[i] == eb[i - |ea|] && run[i + 1] == b[i - |ea| + 1];
      }
    }
  }

  /** A host announces; a node with no path hears it directly and rebroadcasts it. */
  lemma {:induction false} Learns(net: Network, host: Addr, id: Addr, dest: Addr, blob: Blob) returns (run: seq<Network>, events: seq<Event>)
    requires host in net.nodes && dest in net.nodes[host].local && dest !in net.nodes
    requires id in net.nodes && id != host && dest !in net.nodes[id].local
    requires dest !in net.nodes[id].paths && dest !in net.nodes[id].pending
    ensures |run| == 4 && run[0] == net && |events| == 3 && Linked(run, events, dest)
    ensures var w := run[3];
            && w.nodes.Keys == net.nodes.Keys
            && w.nodes == net.nodes[id := w.nodes[id]]
            && w.nodes[id].local == net.nodes[id].local
            && w.nodes[id].paths == net.nodes[id].paths[dest := PathEntry(dest, 1, [blob])]
            && w.nodes[id].pending == net.nodes[id].pending[dest := Pending(1, blob, 1, 0)]
            && w.sent == net.sent + {Announce(dest, blob, 0, None), Announce(dest, blob, 1, Some(id))}
  {
    var a := Announce(dest, blob, 0, None);
    events := [Originate(host, dest, blob), Deliver(id, a, Plain), Retransmit(id, dest)];
    var w1 := Step(net, events[0]);
    var w2 := Step(w1, events[1]);
    assert Remember([], blob) == [blob];
    assert w2.nodes[id].pending[dest] == Pending(1, blob, 0, 0);
    var w3 := Step(w2, events[2]);
    assert w3.nodes[id].paths == net.nodes[id].paths[dest := PathEntry(dest, 1, [blob])];
    assert w3.nodes[id].pending == net.nodes[id].pending[dest := Pending(1, blob, 1, 0)];
    run := [net, w1, w2, w3];
  }

  /** A node that is one hop from the destination takes the longer path that an announce offers, if it may. */
  lemma {:induction false} Switches(node: Node, dest: Addr, held: Blob, offered: Blob, via: Addr, ctx: Context)
    requires dest in node.paths && node.paths[dest] == PathEntry(dest, 1, [held]) && dest !in node.local
    requires offered != held && (ctx.expired || ctx.unresponsive || offered.emitted > held.emitted)
    ensures Accepts(node, Announce(dest, offered, 1, Some(via)), ctx)
    ensures var node' := Receive(node, Announce(dest, offered, 1, Some(via)), ctx);
            dest in node'.paths && node'.paths[dest].nextHop == via && node'.local == node.local
  {
    ReplacesExactlyWhen(node.paths[dest], 2, offered, ctx);
  }

  /** Two neighbours of the destination hold announces of theirs; the one with the older takes the newer of the other. */
  ghost predicate Poised(w: Network, dest: Addr, a: Addr, b: Addr, recent: Blob, stale: Blob) {
    && a in w.nodes && b in w.nodes && a != b && dest !in w.nodes && dest !in w.nodes[a].local + w.nodes[b].local
    && dest in w.nodes[a].paths && w.nodes[a].paths[dest] == PathEntry(dest, 1, [recent])
    && dest in w.nodes[b].paths && recent.emitted > stale.emitted && Announce(dest, stale, 1, Some(b)) in w.sent
  }

  lemma {:induction false} TakesNewer(w: Network, dest: Addr, a: Addr, b: Addr, recent: Blob, stale: Blob) returns (run: seq<Network>, events: seq<Event>)
    requires Poised(w, dest, a, b, recent, stale)
    requires w.nodes[b].paths[dest] == PathEntry(dest, 1, [stale]) && Announce(dest, recent, 1, Some(a)) in w.sent
    ensures |run| == 2 && run[0] == w && |events| == 1 && Linked(run, events, dest)
    ensures Poised(run[1], dest, a, b, recent, stale) && Forwards(run[1], dest, b, a)
  {
    var e := Deliver(b, Announce(dest, recent, 1, Some(a)), Plain);
    Switches(w.nodes[b], dest, stale, recent, a, Plain);
    TimebaseIsNewest([stale]);
    run, events := [w, Step(w, e)], [e];
  }

  /** The other then takes the older announce, because its path has expired or is marked unresponsive. */
  lemma {:induction false} OverrideCloses(w: Network, dest: Addr, a: Addr, b: Addr, recent: Blob, stale: Blob, ctx: Context)
    requires Poised(w, dest, a, b, recent, stale) && Forwards(w, dest, b, a) && (ctx.expired || ctx.unresponsive)
    ensures var e := Deliver(a, Announce(dest, stale, 1, Some(b)), ctx);
            && Enabled(w, e) && Overrides(w, e, dest)
            && Forwards(Step(w, e), dest, a, b) && Forwards(Step(w, e), dest, b, a)
  {
    Switches(w.nodes[a], dest, recent, stale, b, ctx);
    TimebaseIsNewest([recent]);
  }

  /** Nodes 1 and 2 each hear the destination, 2 an older announce than 1. */
  lemma {:induction false} BothLearn(stale: Blob, recent: Blob) returns (run: seq<Network>, events: seq<Event>)
    requires recent.emitted > stale.emitted
    ensures Linked(run, events, 9) && |events| == 6 && Quiet(run[0]) && Poised(run[6], 9, 1, 2, recent, stale)
    ensures run[6].nodes[2].paths[9] == PathEntry(9, 1, [stale]) && Announce(9, recent, 1, Some(1)) in run[6].sent
  {
    var start := Network(map[1 := Node({}, map[], map[]), 2 := Node({}, map[], map[]), 3 := Node({9}, map[], map[])], {});
    var run2, events2 := Learns(start, 3, 2, 9, stale);
    var run1, events1 := Learns(run2[3], 3, 1, 9, recent);
    Join(run2, events2, run1, events1, 9);
    run, events := run2 + run1[1..], events2 + events1;
    assert run[6] == run1[3];
  }

  /** Then 2 takes the newer announce by way of 1. */
  lemma {:induction false} OneFollows(stale: Blob, recent: Blob) returns (run: seq<Network>, events: seq<Event>)
    requires recent.emitted > stale.emitted
    ensures IsRun(run, events, 9) && |events| == 7 && Poised(run[7], 9, 1, 2, recent, stale) && Forwards(run[7], 9, 2, 1)
  {
    var run1, events1 := BothLearn(stale, recent);
    var run0, events0 := TakesNewer(run1[6], 9, 1, 2, recent, stale);
    Join(run1, events1, run0, events0, 9);
    run, events := run1 + run0[1..], events1 + events0;
    assert run[7] == run0[1];
  }

  /**
   One override is enough for a loop: seven steps without any, and an eighth in which node 1,
   its path expired or unresponsive, takes an older announce that node 2 had rebroadcast.
   From then on 1 and 2 forward to each other.
   */
  lemma {:induction false} OverrideCanLoop(ctx: Context) returns (run: seq<Network>, events: seq<Event>, last: Event)
    requires ctx.expired || ctx.unresponsive
    ensures IsRun(run, events, 9) && |events| == 7 && last.Deliver? && last.ctx == ctx
    ensures Enabled(run[7], last) && Overrides(run[7], last, 9)
    ensures Forwards(Step(run[7], last), 9, 1, 2) && Forwards(Step(run[7], last), 9, 2, 1)
  {
    var stale, recent := Blob(0, 5), Blob(1, 10);
    run, events := OneFollows(stale, recent);
    OverrideCloses(run[7], 9, 1, 2, recent, stale, ctx);
    last := Deliver(1, Announce(9, stale, 1, Some(2)), ctx);
  }

  /** By expiry. */
  lemma {:induction false} ExpiredPathCanLoop() returns (run: seq<Network>, events: seq<Event>, last: Event)
    ensures IsRun(run, events, 9) && |events| == 7 && last.Deliver? && last.ctx == Late
    ensures Enabled(run[7], last) && Forwards(Step(run[7], last), 9, 1, 2) && Forwards(Step(run[7], last), 9, 2, 1)
  {
    run, events, last := OverrideCanLoop(Late);
  }

  /** By the mark of an unresponsive path. */
  lemma {:induction false} UnresponsivePathCanLoop() returns (run: seq<Network>, events: seq<Event>, last: Event)
    ensures IsRun(run, events, 9) && |events| == 7 && last.Deliver? && last.ctx == Silent
    ensures Enabled(run[7], last) && Forwards(Step(run[7], last), 9, 1, 2) && Forwards(Step(run[7], last), 9, 2, 1)
  {
    run, events, last := OverrideCanLoop(Silent);
  }
}
