/** Slot pools with once-only release (cmd/stem/publicingress.go). A pool is a buffered channel; each
    channel operation is atomic, so an interleaving is a sequence of calls to these methods. */
module IngressSlots {
  class Slots {
    const limit: nat
    var active: nat
    ghost var holders: set<Lease>

    /** The channel holds one token for each lease that has not been released. */
    ghost predicate Valid()
      reads this, holders
    {
      && active == |holders| <= limit
      && forall lease <- holders :: lease.slots == this && !lease.done
    }

    constructor (limit: int)
      ensures Valid() && holders == {} && this.limit == if limit < 0 then 0 else limit
    {
      this.limit := if limit < 0 then 0 else limit;
      active := 0;
      holders := {};
    }

    /** Takes a slot unless every slot has a holder; never waits. */
    method TryAcquire() returns (lease: Lease?)
      requires Valid()
      modifies this
      ensures Valid()
      ensures lease == null <==> |old(holders)| == limit
      ensures lease == null ==> holders == old(holders)
      ensures lease != null ==> fresh(lease) && lease.Pending() && holders == old(holders) + {lease}
    {
      if active == limit {
        return null;
      }
      active := active + 1;
      lease := new Lease(this);
      holders := holders + {lease};
    }
  }

  /** The release function that a successful acquisition returns. */
  class Lease {
    const slots: Slots
    var done: bool

    constructor (slots: Slots)
      ensures this.slots == slots && !done
    {
      this.slots := slots;
      done := false;
    }

    /** Not yet released; the pool counts it. */
    ghost predicate Pending()
      reads this, slots
    {
      !done && this in slots.holders
    }

    /** The first call frees exactly this lease's slot; every later call changes nothing. Receiving from the
        channel never waits, because a pending lease is one of the tokens in it. */
    method Release()
      requires slots.Valid() && (done || Pending())
      modifies this, slots
      ensures slots.Valid() && done
      ensures slots.holders == old(slots.holders) - {this}
      ensures old(done) ==> unchanged(slots) && unchanged(this)
      ensures slots.active == |slots.holders|
    {
      if !done {
        done := true;
        slots.active := slots.active - 1;
        slots.holders := slots.holders - {this};
      } else {
        assert this !in slots.holders;
      }
    }
  }
}
