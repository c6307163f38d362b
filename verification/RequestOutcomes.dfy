/** What a REQUEST and a DISCOVER come to, in terms of the message's fields and of leases, reservations
    and the range: which REQUEST is acknowledged and with what, and what a second OFFER is. */
module RequestOutcomes {
  import opened Wrappers
  import opened Net
  import opened Allocation
  import opened AllocationFacts
  import opened LeaseStore
  import opened DhcpServer
  import opened GrantOutcomes

  // ----- REQUEST -----

  // The field holds an address, and not the all-zero one in any of its three spellings.
  predicate Present(a: Addr) {
    a != NoAddr && a != V4(0) && a != V6(0) && a != V6(0xFFFF * LIMIT32)
  }

  // The field that counts, if either does: the requested address before the client's own.
  predicate Asks(m: Message, ip: Addr) {
    if Present(m.requested) then ip == Unmap(m.requested) else Present(m.client) && ip == Unmap(m.client)
  }

  // Unmapping turns ::ffff:a.b.c.d into a.b.c.d and nothing else into anything else.
  lemma UnmapExactly(a: Addr, v: U32)
    ensures Unmap(a) == V4(v) <==> a == V4(v) || a == V6(0xFFFF * LIMIT32 + v)
    ensures Unmap(a) != a ==> a.V6? && Unmap(a).V4?
  {
    if a.V6? {
      var q, r := a.v6 / LIMIT32, a.v6 % LIMIT32;
      assert a.v6 == q * LIMIT32 + r;
      if a.v6 == 0xFFFF * LIMIT32 + v { DivUnique(a.v6, LIMIT32, 0xFFFF, v); }
    }
  }

  lemma AskedForCounts(m: Message)
    ensures AskedFor(m) ==
      if Present(m.requested) then Unmap(m.requested) else if Present(m.client) then Unmap(m.client) else NoAddr
    ensures Present(m.requested) ==> Unmap(m.requested) != NoAddr
    ensures Present(m.client) ==> Unmap(m.client) != NoAddr
  {
    UnmapExactly(m.requested, 0);
    UnmapExactly(m.client, 0);
  }

  // The address the four rules hold ready for a client that sends a REQUEST.
  ghost predicate Due(cfg: Config, s: State, mac: string, requested: Addr, now: int, ip: Addr) {
    if HasReservation(cfg, s, mac) then ip == s.reserved[mac]
    else if MayKeep(cfg, s, mac) then ip == s.byMAC[mac].ip
    else if Open(cfg, s, requested, mac, now) then ip == requested
    else Open(cfg, s, ip, mac, now) && forall other :: Open(cfg, s, other, mac, now) ==> ip.v4 <= other.v4
  }

  // What a REQUEST is granted is what is due to it; it is granted nothing when nothing is.
  lemma DueIsGranted(cfg: Config, s: State, mac: string, asked: string, requested: Addr, now: int, ip: Addr)
    requires Good(s)
    ensures var o := Grant(cfg, s, mac, asked, requested, cfg.leaseTime, false, now);
      && (o.ok && o.lease.ip == ip <==> Due(cfg, s, mac, requested, now, ip))
      && (Due(cfg, s, mac, requested, now, ip) ==> Given(s, o, mac, ip, asked, cfg.leaseTime, false, now))
  {
    var ttl := cfg.leaseTime;
    if HasReservation(cfg, s, mac) {
      ReservationIsLeased(cfg, s, mac, asked, requested, ttl, now);
    } else if MayKeep(cfg, s, mac) {
      HoldingIsKept(cfg, s, mac, asked, requested, ttl, false, now);
    } else if Open(cfg, s, requested, mac, now) {
      OpenRequestIsGranted(cfg, s, mac, asked, requested, ttl, false, now);
    } else {
      NewcomerIsDue(cfg, s, mac, asked, requested, now, ip);
    }
  }

  lemma NewcomerIsDue(cfg: Config, s: State, mac: string, asked: string, requested: Addr, now: int, ip: Addr)
    requires Good(s) && Newcomer(cfg, s, mac, false, now) && !Open(cfg, s, requested, mac, now)
    ensures var o := Grant(cfg, s, mac, asked, requested, cfg.leaseTime, false, now);
      && (o.ok && o.lease.ip == ip <==> Due(cfg, s, mac, requested, now, ip))
      && (Due(cfg, s, mac, requested, now, ip) ==> Given(s, o, mac, ip, asked, cfg.leaseTime, false, now))
  {
    if a :| Open(cfg, s, a, mac, now) {
      var least := LeastOpen(cfg, s, mac, now, a);
      LeastOpenIsGranted(cfg, s, mac, asked, requested, cfg.leaseTime, false, now, least);
    } else {
      NoneOpenIsRefused(cfg, s, mac, asked, requested, cfg.leaseTime, false, now);
    }
  }

  lemma LeastOpen(cfg: Config, s: State, mac: string, now: int, a: Addr) returns (least: Addr)
    requires Good(s) && Open(cfg, s, a, mac, now)
    ensures Open(cfg, s, least, mac, now)
    ensures forall ip :: Open(cfg, s, ip, mac, now) ==> least.v4 <= ip.v4
  {
    OpenIsFree(cfg, s, a, mac, now);
    ScanIsLeast(cfg, s, mac, now, a);
    least := ScanFrom(cfg, s, mac, now, cfg.start).value;
    OpenIsFree(cfg, s, least, mac, now);
    forall ip | Open(cfg, s, ip, mac, now) ensures least.v4 <= ip.v4 {
      OpenIsFree(cfg, s, ip, mac, now);
      ScanIsLeast(cfg, s, mac, now, ip);
    }
  }

  lemma AckFollowsGrant(cfg: Config, s: State, m: Message, now: int, ip: Addr)
    ensures var v := Acking(cfg, s, m, now);
      var o := Grant(cfg, s, m.mac, m.hostname, Unmap(m.requested), cfg.leaseTime, false, now);
      v.granted.Some? && v.granted.value.ip == ip <==>
        o.ok && o.lease.ip == ip && (AskedFor(m) != NoAddr ==> ip == AskedFor(m) && Contains(cfg.subnet, ip))
  {
  }

  // A REQUEST is acknowledged with exactly the address due to the client, and exactly when
  // that is the address in the field that counts and lies in the subnet, or neither field
  // holds one.
  lemma AcknowledgedExactly(cfg: Config, s: State, m: Message, now: int, ip: Addr)
    requires Good(s)
    ensures var v := Acking(cfg, s, m, now);
      v.granted.Some? && v.granted.value.ip == ip <==>
        && Due(cfg, s, m.mac, Unmap(m.requested), now, ip)
        && (Present(m.requested) ==> ip == Unmap(m.requested) && Contains(cfg.subnet, ip))
        && (!Present(m.requested) && Present(m.client) ==> ip == Unmap(m.client) && Contains(cfg.subnet, ip))
  {
    DueIsGranted(cfg, s, m.mac, m.hostname, Unmap(m.requested), now, ip);
    AskedForCounts(m);
    AckFollowsGrant(cfg, s, m, now, ip);
  }

  // An address outside the subnet in the field that counts is refused, and memory is as it
  // was. Any other REQUEST leaves the client with what is due to it, acknowledged or not.
  lemma RequestIsRemembered(cfg: Config, s: State, m: Message, now: int, ip: Addr)
    requires Good(s)
    ensures var v := Acking(cfg, s, m, now);
      if exists out :: Asks(m, out) && !Contains(cfg.subnet, out) then v == Verdict(s, None)
      else if Due(cfg, s, m.mac, Unmap(m.requested), now, ip) then
        && m.mac in v.state.byMAC
        && LeaseIs(s, v.state.byMAC[m.mac], m.mac, ip, m.hostname, cfg.leaseTime, false, now)
        && Recorded(s, v.state, m.mac, v.state.byMAC[m.mac])
        && (v.granted.Some? ==> v.granted.value == v.state.byMAC[m.mac])
      else v.granted.Some? ==> v.granted.value.ip != ip
  {
    AskedForCounts(m);
    assert Asks(m, AskedFor(m)) <==> AskedFor(m) != NoAddr;
    DueIsGranted(cfg, s, m.mac, m.hostname, Unmap(m.requested), now, ip);
  }

  // So a client renewing what it holds by its own address field is acknowledged with it, if
  // it may keep it or has it reserved; and a client whose lease is not known here, and who
  // can be given another address only, is refused.
  lemma RenewalIsAcknowledged(cfg: Config, s: State, m: Message, now: int)
    requires Good(s) && !Present(m.requested) && Present(m.client) && Contains(cfg.subnet, Unmap(m.client))
    ensures Acking(cfg, s, m, now).granted.Some? <==> Due(cfg, s, m.mac, Unmap(m.requested), now, Unmap(m.client))
    ensures HasReservation(cfg, s, m.mac) && s.reserved[m.mac] == Unmap(m.client) ==>
      Acking(cfg, s, m, now).granted.Some?
    ensures !HasReservation(cfg, s, m.mac) && MayKeep(cfg, s, m.mac) && s.byMAC[m.mac].ip == Unmap(m.client) ==>
      Acking(cfg, s, m, now).granted.Some?
  {
    AcknowledgedExactly(cfg, s, m, now, Unmap(m.client));
    var v := Acking(cfg, s, m, now);
    if v.granted.Some? { AcknowledgedExactly(cfg, s, m, now, v.granted.value.ip); }
  }

  // ----- the second OFFER -----

  // A DISCOVER is granted a hold of one minute. That is what it is offered, unless the
  // address is new to the client and something answers there.
  lemma FirstOffer(cfg: Config, s: State, m: Message, inUse: bool, now: int, later: int)
    ensures var o := Grant(cfg, s, m.mac, "", Unmap(m.requested), 60, true, now);
      !(o.ok && o.isNew && inUse) ==> Offering(cfg, s, m, inUse, now, later) == o
  {
  }

  // Memory between the two: the first address set aside and the hold on it dropped.
  function Between(s: State, o: Outcome, mac: string, later: int): State {
    Released(Quarantined(o.state, o.lease.ip, later), mac, o.lease.ip)
  }

  ghost predicate SetAside(s: State, mid: State, mac: string, first: Addr, later: int) {
    && Good(mid) && mid.reserved == s.reserved && mid.quarantine == s.quarantine[first := later + 600]
    && mid.byMAC.Keys == (set m | m in s.byMAC && s.byMAC[m].ip != first) - {mac}
    && (forall m :: m in mid.byMAC ==> mid.byMAC[m] == s.byMAC[m])
  }

  lemma SetsAside(s: State, o: Outcome, mac: string, later: int)
    requires o.lease.mac == mac && Recorded(s, o.state, mac, o.lease)
    ensures SetAside(s, Between(s, o, mac, later), mac, o.lease.ip, later)
  {
  }

  lemma OpenBetween(cfg: Config, s: State, mid: State, mac: string, first: Addr, later: int, ip: Addr)
    requires SetAside(s, mid, mac, first, later)
    ensures Open(cfg, mid, ip, mac, later) <==> ip != first && Open(cfg, s, ip, mac, later)
    ensures ip != first ==> (TakenByAnother(mid, ip, mac, later) <==> TakenByAnother(s, ip, mac, later))
  {
    if ip != first && TakenByAnother(s, ip, mac, later) {
      var m :| m in s.byMAC && m != mac && s.byMAC[m].ip == ip && s.byMAC[m].expires > later;
      assert m in mid.byMAC;
    }
  }

  // When the address first held was new to the client and something answers there, it is
  // set aside for ten minutes. The client is then offered its reservation, if the lease in
  // its way has run out meanwhile; or else the least address open by then, save that one;
  // or nothing.
  lemma SecondOffer(cfg: Config, s: State, m: Message, now: int, later: int)
    requires Good(s) && Grant(cfg, s, m.mac, "", Unmap(m.requested), OFFER_HOLD, true, now).ok
    requires Grant(cfg, s, m.mac, "", Unmap(m.requested), OFFER_HOLD, true, now).isNew
    ensures var first := Grant(cfg, s, m.mac, "", Unmap(m.requested), OFFER_HOLD, true, now).lease.ip;
      var o := Offering(cfg, s, m, true, now, later);
      && o.state.quarantine == s.quarantine[first := later + 600]
      && if !Unreserved(cfg, s, m.mac, true, later) then o.ok && o.lease.ip == s.reserved[m.mac]
         else
           && (o.ok <==> exists ip :: ip != first && Open(cfg, s, ip, m.mac, later))
           && (o.ok ==> o.lease.ip != first && Open(cfg, s, o.lease.ip, m.mac, later))
           && (o.ok ==> forall ip :: ip != first && Open(cfg, s, ip, m.mac, later) ==> o.lease.ip.v4 <= ip.v4)
  {
    var o := Grant(cfg, s, m.mac, "", Unmap(m.requested), OFFER_HOLD, true, now);
    var mid := Between(s, o, m.mac, later);
    NewIsGiven(cfg, s, m.mac, Unmap(m.requested), OFFER_HOLD, now);
    SetsAside(s, o, m.mac, later);
    forall ip ensures Open(cfg, mid, ip, m.mac, later) <==> ip != o.lease.ip && Open(cfg, s, ip, m.mac, later) {
      OpenBetween(cfg, s, mid, m.mac, o.lease.ip, later, ip);
    }
    if HasReservation(cfg, s, m.mac) { OpenBetween(cfg, s, mid, m.mac, o.lease.ip, later, s.reserved[m.mac]); }
    if !Unreserved(cfg, s, m.mac, true, later) {
      ReservationIsOffered(cfg, mid, m.mac, NoAddr, OFFER_HOLD, later);
    } else if a :| Open(cfg, mid, a, m.mac, later) {
      var least := LeastOpen(cfg, mid, m.mac, later, a);
      LeastOpenIsGranted(cfg, mid, m.mac, "", NoAddr, OFFER_HOLD, true, later, least);
    } else {
      NoneOpenIsRefused(cfg, mid, m.mac, "", NoAddr, OFFER_HOLD, true, later);
    }
  }
}
