/** The packet path: one message in, at most one reply out, with the allocator and
    the stored table moved along the way. */
module DhcpServer {
  import opened Wrappers
  import opened Net
  import opened Allocation
  import opened AllocationFacts
  import opened LeaseStore

  const OFFER_HOLD := 60

  datatype Kind = Discover | Request | ReleaseMsg | DeclineMsg | Inform | Other

  // A client message, with the wire encoding already taken off: an option or field
  // that is absent or not an address is NoAddr, and hostname is already sanitized.
  datatype Message = Message(
    kind: Kind, mac: string, xid: nat, hostname: string,
    requested: Addr, client: Addr, serverID: Addr)

  datatype Reply = OfferOf(ip: Addr) | AckOf(ip: Addr) | Nak | InformAck

  // The address a REQUEST names: the requested-address option, else the client field.
  function AskedFor(m: Message): Addr {
    if Unmap(m.requested) != NoAddr && !IsUnspecified(Unmap(m.requested)) then Unmap(m.requested)
    else if Unmap(m.client) != NoAddr && !IsUnspecified(Unmap(m.client)) then Unmap(m.client)
    else NoAddr
  }

  // ----- what each message does to memory -----

  // A DISCOVER: hold an address; if it is new to the client and answers a probe,
  // set it aside and try once more. later is the clock after the probe.
  function Offering(cfg: Config, s: State, m: Message, inUse: bool, now: int, later: int): Outcome {
    var o := Grant(cfg, s, m.mac, "", Unmap(m.requested), OFFER_HOLD, true, now);
    if o.ok && o.isNew && inUse then
      Grant(cfg, Released(Quarantined(o.state, o.lease.ip, later), m.mac, o.lease.ip), m.mac, "", NoAddr, OFFER_HOLD,
            true, later)
    else o
  }

  // A REQUEST: the memory after it, and the lease to acknowledge if there is one.
  datatype Verdict = Verdict(state: State, granted: Option<Lease>)

  function Acking(cfg: Config, s: State, m: Message, now: int): Verdict {
    var asked := AskedFor(m);
    if asked != NoAddr && !Contains(cfg.subnet, asked) then Verdict(s, None)
    else
      var o := Grant(cfg, s, m.mac, m.hostname, Unmap(m.requested), cfg.leaseTime, false, now);
      if !o.ok || (asked != NoAddr && o.lease.ip != asked) then Verdict(o.state, None)
      else Verdict(o.state, Some(o.lease))
  }

  function RowOf(l: Lease, now: int): Row {
    Row(l.ip, l.hostname, l.expires, now)
  }

  // A RELEASE counts only when it names this server and the binding it holds.
  predicate Releases(s: State, m: Message, self: Addr) {
    && m.client != NoAddr && !IsUnspecified(m.client)
    && m.serverID != NoAddr && Unmap(m.serverID) == self
    && m.mac in s.byMAC && s.byMAC[m.mac].ip == Unmap(m.client)
  }

  predicate Declines(s: State, m: Message) {
    m.requested != NoAddr && Declinable(s, m.mac, Unmap(m.requested))
  }

  // The stored leases as the allocator loads them.
  function LeaseOf(mac: string, r: Row): Lease {
    Lease(mac, r.ip, r.hostname, r.expiresAt)
  }

  ghost predicate Restores(s: State, rows: Rows) {
    && s.byMAC.Keys == rows.Keys
    && (forall m :: m in rows ==> s.byMAC[m] == LeaseOf(m, rows[m]))
    && Inverse(s)
  }

  lemma RestoresFrom(s: State, ls: seq<Lease>, rows: Rows)
    requires AllocationFacts.OneToOne(ls)
    requires forall i :: 0 <= i < |ls| ==> ls[i].mac in rows && ls[i] == LeaseOf(ls[i].mac, rows[ls[i].mac])
    requires forall m :: m in rows ==> LeaseOf(m, rows[m]) in ls
    ensures Restores(Loaded(s, ls), rows)
  {
    LoadGivesInverse(s, ls);
    LoadedByMAC(ls);
    forall m | m in rows ensures m in LoadMAC(ls) && LoadMAC(ls)[m] == LeaseOf(m, rows[m]) {
      var i :| 0 <= i < |ls| && ls[i] == LeaseOf(m, rows[m]);
    }
  }

  class Server {
    const self: Addr
    const alloc: Allocator
    const table: Table
    var ignored: set<nat>

    constructor (self: Addr, alloc: Allocator, table: Table)
      ensures this.self == self && this.alloc == alloc && this.table == table && ignored == {}
    {
      this.self, this.alloc, this.table, ignored := self, alloc, table, {};
    }

    method IgnoreXID(xid: nat)
      modifies this
      ensures ignored == old(ignored) + {xid}
    {
      ignored := ignored + {xid};
    }

    method UnignoreXID(xid: nat)
      modifies this
      ensures ignored == old(ignored) - {xid}
    {
      ignored := ignored - {xid};
    }

    // The rows left in the table as leases, each once, in whatever order they come.
    method StoredLeases() returns (ls: seq<Lease>)
      ensures AllocationFacts.OneToOne(ls) || !LeaseStore.OneToOne(table.rows)
      ensures forall i :: 0 <= i < |ls| ==>
        ls[i].mac in table.rows && ls[i] == LeaseOf(ls[i].mac, table.rows[ls[i].mac])
      ensures forall m :: m in table.rows ==> LeaseOf(m, table.rows[m]) in ls
    {
      ls := [];
      var rest := table.rows.Keys;
      while rest != {}
        invariant rest <= table.rows.Keys
        invariant forall m :: m in table.rows && m !in rest ==> LeaseOf(m, table.rows[m]) in ls
        invariant forall i :: 0 <= i < |ls| ==>
          ls[i].mac in table.rows && ls[i].mac !in rest && ls[i] == LeaseOf(ls[i].mac, table.rows[ls[i].mac])
        invariant forall i, j :: 0 <= i < j < |ls| ==> ls[i].mac != ls[j].mac
        decreases rest
      {
        var m :| m in rest;
        rest := rest - {m};
        ls := ls + [LeaseOf(m, table.rows[m])];
      }
    }

    // Prune the table, then load what is left. A stored table is one-to-one, so the
    // order the rows come back in does not show.
    method Restore(now: int)
      requires LeaseStore.OneToOne(table.rows)
      modifies alloc, table
      ensures table.rows == Prune(old(table.rows), now)
      ensures Restores(alloc.Contents(), table.rows)
      ensures alloc.Contents() == old(alloc.Contents()).(byMAC := alloc.byMAC, byIP := alloc.byIP)
    {
      var _ := table.DeleteExpiredDHCPLeases(now);
      var ls := StoredLeases();
      RestoresFrom(alloc.Contents(), ls, table.rows);
      alloc.Load(ls);
    }

    // handle, message by message. commits says whether the store write went
    // through; inUse is the prober's answer; later is the clock after the probe.
    method Handle(m: Message, inUse: bool, commits: bool, now: int, later: int) returns (reply: Option<Reply>)
      modifies alloc, table
      ensures m.mac == "" || m.xid in ignored ==>
        reply == None && alloc.Contents() == old(alloc.Contents()) && table.rows == old(table.rows)
      ensures m.mac != "" && m.xid !in ignored ==> match m.kind
        case Discover =>
          var o := Offering(alloc.cfg, old(alloc.Contents()), m, inUse, now, later);
          alloc.Contents() == o.state && table.rows == old(table.rows) &&
          reply == if o.ok then Some(OfferOf(o.lease.ip)) else None
        case Request =>
          var v := Acking(alloc.cfg, old(alloc.Contents()), m, now);
          alloc.Contents() == v.state &&
          reply == Some(if v.granted.Some? then AckOf(v.granted.value.ip) else Nak) &&
          table.rows == if v.granted.Some? && commits then Put(old(table.rows), m.mac, RowOf(v.granted.value, now))
            else old(table.rows)
        case ReleaseMsg =>
          reply == None &&
          (if Releases(old(alloc.Contents()), m, self) then
            alloc.Contents() == Released(old(alloc.Contents()), m.mac, Unmap(m.client)) &&
            table.rows == (if commits then Delete(old(table.rows), m.mac) else old(table.rows))
          else alloc.Contents() == old(alloc.Contents()) && table.rows == old(table.rows))
        case DeclineMsg =>
          reply == None &&
          (if Declines(old(alloc.Contents()), m) then
            alloc.Contents() == Declined(alloc.cfg, old(alloc.Contents()), m.mac, Unmap(m.requested), now) &&
            table.rows == (if commits then Delete(old(table.rows), m.mac) else old(table.rows))
          else alloc.Contents() == old(alloc.Contents()) && table.rows == old(table.rows))
        case Inform =>
          reply == Some(InformAck) && alloc.Contents() == old(alloc.Contents()) && table.rows == old(table.rows)
        case Other => reply == None && alloc.Contents() == old(alloc.Contents()) && table.rows == old(table.rows)
    {
      if m.mac == "" || m.xid in ignored {
        return None;
      }
      match m.kind
      case Discover =>
        reply := Offer(m, inUse, now, later);
      case Request =>
        reply := Ack(m, commits, now);
      case ReleaseMsg =>
        if m.client == NoAddr || IsUnspecified(m.client) || m.serverID == NoAddr || Unmap(m.serverID) != self {
          return None;
        }
        var dropped := alloc.Release(m.mac, Unmap(m.client));
        if dropped {
          var _ := table.DeleteDHCPLease(m.mac, commits);
        }
        reply := None;
      case DeclineMsg =>
        if m.requested == NoAddr {
          return None;
        }
        var dropped := alloc.Decline(m.mac, Unmap(m.requested), now);
        if dropped {
          var _ := table.DeleteDHCPLease(m.mac, commits);
        }
        reply := None;
      case Inform =>
        reply := Some(InformAck);
      case Other =>
        reply := None;
    }

    method Offer(m: Message, inUse: bool, now: int, later: int) returns (reply: Option<Reply>)
      modifies alloc
      ensures var o := Offering(alloc.cfg, old(alloc.Contents()), m, inUse, now, later);
        alloc.Contents() == o.state && reply == if o.ok then Some(OfferOf(o.lease.ip)) else None
    {
      var l, isNew, ok := alloc.Offer(m.mac, Unmap(m.requested), OFFER_HOLD, now);
      if !ok {
        return None;
      }
      if isNew && inUse {
        alloc.Quarantine(l.ip, later);
        var _ := alloc.Release(m.mac, l.ip);
        l, isNew, ok := alloc.Offer(m.mac, NoAddr, OFFER_HOLD, later);
      }
      reply := if ok then Some(OfferOf(l.ip)) else None;
    }

    method Ack(m: Message, commits: bool, now: int) returns (reply: Option<Reply>)
      modifies alloc, table
      ensures var v := Acking(alloc.cfg, old(alloc.Contents()), m, now);
        alloc.Contents() == v.state &&
        reply == Some(if v.granted.Some? then AckOf(v.granted.value.ip) else Nak) &&
        table.rows == if v.granted.Some? && commits then Put(old(table.rows), m.mac, RowOf(v.granted.value, now))
          else old(table.rows)
    {
      var asked := AskedFor(m);
      if asked != NoAddr && !Contains(alloc.cfg.subnet, asked) {
        return Some(Nak);
      }
      var l, ok := alloc.Allocate(m.mac, m.hostname, Unmap(m.requested), alloc.cfg.leaseTime, now);
      if !ok {
        return Some(Nak);
      }
      if asked != NoAddr && l.ip != asked {
        return Some(Nak);
      }
      var _ := table.PutDHCPLease(m.mac, RowOf(l, now), commits);
      reply := Some(AckOf(l.ip));
    }
  }
}
