/** The listener that bounds raw connections before TLS (cmd/stem/remotetls.go). */
module ConnectionLimit {
  import opened IngressSlots

  class Conn {
    var closed: bool

    constructor ()
      ensures !closed
    {
      closed := false;
    }
  }

  /** An accepted connection. Closing it again closes the connection again, but frees no second slot. */
  class LimitedConn {
    const conn: Conn
    const release: Lease

    constructor (conn: Conn, release: Lease)
      ensures this.conn == conn && this.release == release
    {
      this.conn, this.release := conn, release;
    }

    method Close()
      requires release.slots.Valid() && (release.done || release.Pending())
      modifies conn, release, release.slots
      ensures conn.closed && release.done
      ensures release.slots.Valid() && release.slots.holders == old(release.slots.holders) - {release}
    {
      conn.closed := true;
      release.Release();
    }
  }

  /** What happens while Accept waits: a connection arrives, or one accepted earlier is closed and releases its slot. */
  datatype Event = Arrives(conn: Conn) | Closes(lease: Lease)

  /** The slots still held after the first n events, none of which was accepted. */
  function Held(holders: set<Lease>, events: seq<Event>, n: nat): set<Lease>
    requires n <= |events|
  {
    if n == 0 then holders
    else if events[n - 1].Closes? then Held(holders, events, n - 1) - {events[n - 1].lease}
    else Held(holders, events, n - 1)
  }

  lemma HeldStep(holders: set<Lease>, events: seq<Event>, n: nat)
    requires n < |events|
    ensures Held(holders, events, n + 1)
            == if events[n].Closes? then Held(holders, events, n) - {events[n].lease} else Held(holders, events, n)
  {
  }

  /** None of the first n arrivals found a free slot. */
  predicate AllFull(holders: set<Lease>, events: seq<Event>, n: nat, limit: nat)
    requires n <= |events|
  {
    n > 0 ==>
      AllFull(holders, events, n - 1, limit) && (events[n - 1].Arrives? ==> |Held(holders, events, n - 1)| == limit)
  }

  /** The connections that arrived in the first n events. */
  function Before(events: seq<Event>, n: nat): set<Conn>
    requires n <= |events|
  {
    if n == 0 then {}
    else if events[n - 1].Arrives? then Before(events, n - 1) + {events[n - 1].conn}
    else Before(events, n - 1)
  }

  lemma BeforeStep(events: seq<Event>, n: nat)
    requires n < |events|
    ensures Before(events, n + 1)
            == if events[n].Arrives? then Before(events, n) + {events[n].conn} else Before(events, n)
  {
  }

  class ConnectionLimitedListener {
    const active: Slots

    constructor (maxConnections: int)
      ensures active.Valid() && fresh(active) && active.holders == {}
      ensures active.limit == if maxConnections < 0 then 0 else maxConnections
    {
      active := new Slots(maxConnections);
    }

    /** Leases of this listener's slots. */
    ghost predicate Ours(leases: set<Lease>)
      reads active, leases
    {
      forall l <- leases :: l.slots == active && (l.done || l.Pending())
    }

    method Release(lease: Lease, ghost leases: set<Lease>)
      requires active.Valid() && Ours(leases) && lease in leases
      modifies active, lease
      ensures active.Valid() && Ours(leases) && active.holders == old(active.holders) - {lease}
    {
      lease.Release();
    }

    /** One turn of the loop, for a connection that arrived. */
    method Offer(conn: Conn, ghost leases: set<Lease>) returns (accepted: LimitedConn?)
      requires active.Valid() && Ours(leases)
      modifies active, conn
      ensures active.Valid() && (accepted != null <==> |old(active.holders)| < active.limit)
      ensures accepted == null ==> active.holders == old(active.holders) && conn.closed && Ours(leases)
      ensures accepted != null ==>
                && accepted.conn == conn && conn.closed == old(conn.closed)
                && fresh(accepted.release) && accepted.release.slots == active && accepted.release.Pending()
                && active.holders == old(active.holders) + {accepted.release}
    {
      accepted := null;
      var release := active.TryAcquire();
      if release != null {
        accepted := new LimitedConn(conn, release);
      } else {
        conn.closed := true;
      }
    }

    /** Accept, through the events that happen while it waits: arrivals of these connections and releases of these
        leases. The first arrival that finds a free slot is accepted, as event n; every arrival before it is closed,
        and all are when none finds one. */
    method Accept(events: seq<Event>, ghost conns: set<Conn>, ghost leases: set<Lease>)
      returns (accepted: LimitedConn?, ghost n: nat)
      requires active.Valid() && Ours(leases)
      requires forall k | 0 <= k < |events| ::
                 match events[k]
                 case Arrives(conn) => conn in conns
                 case Closes(lease) => lease in leases
      modifies active, conns, leases
      ensures active.Valid() && n <= |events| && (accepted != null <==> n < |events|)
      ensures AllFull(old(active.holders), events, n, active.limit)
      ensures forall c <- conns :: c.closed == (c in Before(events, n) || old(c.closed))
      ensures accepted == null ==> active.holders == Held(old(active.holders), events, n)
      ensures accepted != null ==>
                && events[n].Arrives? && accepted.conn == events[n].conn
                && |Held(old(active.holders), events, n)| < active.limit
                && fresh(accepted.release) && accepted.release.slots == active && accepted.release.Pending()
                && active.holders == Held(old(active.holders), events, n) + {accepted.release}
    {
      n := 0;
      accepted := null;
      ghost var holders := active.holders;
      for k := 0 to |events|
        invariant n == k && accepted == null && active.Valid() && Ours(leases)
        invariant active.holders == Held(holders, events, k) && AllFull(holders, events, k, active.limit)
        invariant forall c <- conns :: c.closed == (c in Before(events, k) || old(c.closed))
      {
        HeldStep(holders, events, k);
        BeforeStep(events, k);
        match events[k] {
          case Closes(lease) =>
            Release(lease, leases);
          case Arrives(conn) =>
            accepted := Offer(conn, leases);
            if accepted != null {
              return;
            }
        }
        n := n + 1;
      }
    }
  }
}
