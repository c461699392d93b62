/** The resources a link keeps track of, and how cancelling them and closing the link take them out again. */
module Registry {

  const REJECTED: nat := 0
  const QUEUED: nat := 1
  const ADVERTISED: nat := 2
  const TRANSFERRING: nat := 3
  const COMPLETE: nat := 6
  const FAILED: nat := 7
  const CORRUPT: nat := 8

  class Resource {
    const hash: nat
    const initiator: bool
    var status: nat

    constructor (hash: nat, initiator: bool, status: nat)
      ensures this.hash == hash && this.initiator == initiator && this.status == status
    {
      this.hash, this.initiator, this.status := hash, initiator, status;
    }
  }

  class Link {
    var incoming: set<Resource>
    var outgoing: set<Resource>
    var closed: bool

    /** One outgoing resource at most, no two incoming ones alike, and none that has come to an end. */
    ghost predicate Valid()
      reads this, incoming, outgoing
    {
      && (forall r, q :: r in outgoing && q in outgoing ==> r == q)
      && (forall r, q :: r in incoming && q in incoming && r.hash == q.hash ==> r == q)
      && (forall r :: r in outgoing ==> r.initiator && r.status < COMPLETE)
      && (forall r :: r in incoming ==> !r.initiator && r.status < COMPLETE)
    }

    /** The same but for an incoming resource found corrupt that is not taken out yet. */
    ghost predicate ValidBut(corrupt: Resource)
      reads this, incoming, outgoing
    {
      && (forall r, q :: r in outgoing && q in outgoing ==> r == q)
      && (forall r, q :: r in incoming && q in incoming && r.hash == q.hash ==> r == q)
      && (forall r :: r in outgoing ==> r.initiator && r.status < COMPLETE)
      && (forall r :: r in incoming && r != corrupt ==> !r.initiator && r.status < COMPLETE)
    }

    constructor ()
      ensures Valid() && incoming == {} && outgoing == {} && !closed
    {
      incoming, outgoing, closed := {}, {}, false;
    }

    /** advertise_job: a resource is announced if none is going out, and queued otherwise. */
    method Advertise(r: Resource)
      requires Valid() && r.initiator
      modifies this`outgoing, r`status
      ensures Valid()
      ensures if old(outgoing) == {} then outgoing == {r} && r.status == ADVERTISED
              else outgoing == old(outgoing) && r.status == QUEUED
    {
      if outgoing != {} {
        r.status := QUEUED;
        return;
      }
      r.status := ADVERTISED;
      outgoing := outgoing + {r};
    }

    /** has_incoming_resource. */
    method HasIncoming(r: Resource) returns (found: bool)
      ensures found <==> exists q :: q in incoming && q.hash == r.hash
    {
      var left := incoming;
      while left != {}
        invariant left <= incoming && forall q :: q in incoming && q !in left ==> q.hash != r.hash
        decreases left
      {
        var q :| q in left;
        if q.hash == r.hash {
          return true;
        }
        left := left - {q};
      }
      return false;
    }

    /** accept: an advertisement of a resource already coming in is ignored. */
    method Accept(r: Resource) returns (accepted: bool)
      requires Valid() && !r.initiator && r.status == TRANSFERRING
      modifies this`incoming
      ensures Valid()
      ensures accepted <==> forall q :: q in old(incoming) ==> q.hash != r.hash
      ensures incoming == if accepted then old(incoming) + {r} else old(incoming)
    {
      var known := HasIncoming(r);
      if known {
        return false;
      }
      incoming := incoming + {r};
      return true;
    }

    /** resource_concluded. */
    method Concluded(r: Resource)
      modifies this`incoming, this`outgoing
      ensures incoming == old(incoming) - {r} && outgoing == old(outgoing) - {r}
    {
      if r in incoming {
        incoming := incoming - {r};
      }
      if r in outgoing {
        outgoing := outgoing - {r};
      }
    }

    /** The end of assemble and of validate_proof. */
    method Conclude(r: Resource, status: nat)
      requires Valid() && COMPLETE <= status
      modifies this`incoming, this`outgoing, r`status
      ensures Valid() && r.status == status
      ensures incoming == old(incoming) - {r} && outgoing == old(outgoing) - {r}
    {
      r.status := status;
      Concluded(r);
    }

    /** rejected: the receiver has refused an outgoing resource. */
    method Rejected(r: Resource)
      requires Valid()
      modifies this`outgoing, r`status
      ensures Valid() && incoming == old(incoming)
      ensures if old(r.status) < COMPLETE && r.initiator then r.status == REJECTED && outgoing == old(outgoing) - {r}
              else r.status == old(r.status) && outgoing == old(outgoing)
    {
      if r.status >= COMPLETE || !r.initiator {
        return;
      }
      r.status := REJECTED;
      outgoing := outgoing - {r};
    }

    /** cancel: afterwards the link does not hold the resource; a corrupt one brings the link down. */
    method Cancel(r: Resource)
      requires if r.status == CORRUPT then ValidBut(r) else Valid()
      modifies this, r, if r.status == CORRUPT then incoming + outgoing else {}
      ensures Valid()
      ensures old(r.status) == CORRUPT ==> closed && incoming == {} && outgoing == {} && r.status == CORRUPT
      ensures old(r.status) != CORRUPT ==>
                && closed == old(closed) && incoming == old(incoming) - {r} && outgoing == old(outgoing) - {r}
                && r.status == if old(r.status) < COMPLETE then FAILED else old(r.status)
      decreases if r.status == CORRUPT then 2 else 0
    {
      if r.status == CORRUPT {
        incoming := incoming - {r};
        Teardown();
        return;
      }
      if r.status >= COMPLETE {
        return;
      }
      r.status := FAILED;
      if r.initiator {
        outgoing := outgoing - {r};
      } else {
        incoming := incoming - {r};
      }
      Concluded(r);
    }

    /** assemble, on a resource flagged as compressed: corrupt while still registered, and cancelled. */
    method RefuseCompressed(r: Resource)
      requires Valid() && r in incoming
      modifies this, incoming, outgoing
      ensures Valid() && closed && incoming == {} && outgoing == {}
      ensures r.status == CORRUPT
    {
      r.status := CORRUPT;
      Cancel(r);
    }

    method Teardown()
      requires Valid()
      modifies this, incoming, outgoing
      ensures Valid() && closed && incoming == {} && outgoing == {}
      ensures forall r :: r in old(incoming) || r in old(outgoing) ==> r.status == FAILED
      decreases 1, 2
    {
      closed := true;
      LinkClosed();
    }

    /** link_closed: cancels what a copy of the sets holds, while cancelling erases from the sets. */
    method LinkClosed()
      requires Valid()
      modifies this, incoming, outgoing
      ensures Valid() && closed == old(closed) && incoming == {} && outgoing == {}
      ensures forall r :: r in old(incoming) || r in old(outgoing) ==> r.status == FAILED
      decreases 1, 1
    {
      var ins, outs := incoming, outgoing;
      CancelAll(ins);
      CancelAll(outs);
    }

    /** Each of a set of resources that the link held, in any order. */
    method CancelAll(resources: set<Resource>)
      requires Valid() && (resources == incoming || resources == outgoing)
      modifies this, resources
      ensures Valid() && closed == old(closed)
      ensures incoming == old(incoming) - resources && outgoing == old(outgoing) - resources
      ensures forall r :: r in resources ==> r.status == FAILED
      decreases 1, 0
    {
      var left := resources;
      while left != {}
        invariant left <= resources && Valid() && closed == old(closed)
        invariant incoming == old(incoming) - (resources - left) && outgoing == old(outgoing) - (resources - left)
        invariant forall r :: r in resources && r !in left ==> r.status == FAILED
        decreases left
      {
        var r :| r in left;
        assert r in incoming || r in outgoing;
        Cancel(r);
        left := left - {r};
      }
    }
  }
}
