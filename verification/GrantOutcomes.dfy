/** What each client is granted, in terms of leases, reservations and the range alone. */
module GrantOutcomes {
  import opened Wrappers
  import opened Net
  import opened Allocation
  import opened AllocationFacts

  // ----- the circumstances -----

  // The client has an address reserved that is neither the server's nor the gateway's.
  predicate HasReservation(cfg: Config, s: State, mac: string) {
    mac in s.reserved && s.reserved[mac] != cfg.host && s.reserved[mac] != cfg.gateway
  }

  // Another client's lease on the address has not run out.
  ghost predicate TakenByAnother(s: State, ip: Addr, mac: string, now: int) {
    exists m :: m in s.byMAC && m != mac && s.byMAC[m].ip == ip && s.byMAC[m].expires > now
  }

  // An address of the range that may be leased at all.
  predicate Leasable(cfg: Config, ip: Addr) {
    && ip.V4? && cfg.start.V4? && cfg.end.V4? && cfg.start.v4 <= ip.v4 <= cfg.end.v4
    && ip != cfg.host && ip != cfg.gateway
  }

  // The client has a lease, run out or not, on such an address that is reserved to nobody.
  ghost predicate MayKeep(cfg: Config, s: State, mac: string) {
    && mac in s.byMAC && Leasable(cfg, s.byMAC[mac].ip)
    && forall m :: m in s.reserved ==> s.reserved[m] != s.byMAC[mac].ip
  }

  // Such an address, not set aside, reserved to no other client and leased to none.
  ghost predicate Open(cfg: Config, s: State, ip: Addr, mac: string, now: int) {
    && Leasable(cfg, ip) && !(ip in s.quarantine && s.quarantine[ip] > now)
    && (forall m :: m in s.reserved && m != mac ==> s.reserved[m] != ip)
    && !TakenByAnother(s, ip, mac, now)
  }

  // Its lease is live and not on the server's or the gateway's address.
  predicate HoldsAnother(cfg: Config, s: State, mac: string, now: int) {
    && mac in s.byMAC && s.byMAC[mac].expires > now
    && s.byMAC[mac].ip != cfg.host && s.byMAC[mac].ip != cfg.gateway
  }

  // Some other client's live lease has the name.
  ghost predicate NameIsElsewhere(s: State, name: string, mac: string, now: int) {
    exists m :: m in s.byMAC && m != mac && s.byMAC[m].hostname == name && s.byMAC[m].expires > now
  }

  ghost predicate Good(s: State) { Inverse(s) && SoundReservations(s) }

  lemma TakenIsHeld(s: State, ip: Addr, mac: string, now: int)
    requires Inverse(s)
    ensures TakenByAnother(s, ip, mac, now) <==> HeldByAnother(s, ip, mac, now)
  {
    if HeldByAnother(s, ip, mac, now) {
      var m := s.byIP[ip];
      assert m in s.byMAC && m != mac && s.byMAC[m].ip == ip;
    }
  }

  lemma OpenIsFree(cfg: Config, s: State, ip: Addr, mac: string, now: int)
    requires Good(s)
    ensures Open(cfg, s, ip, mac, now) <==> Free(cfg, s, ip, mac, now)
  {
    TakenIsHeld(s, ip, mac, now);
  }

  lemma KeepIsRenewable(cfg: Config, s: State, mac: string)
    requires Good(s)
    ensures MayKeep(cfg, s, mac) <==> Renewable(cfg, s, mac)
  {
  }

  lemma NameIsTaken(s: State, name: string, mac: string, now: int)
    requires Inverse(s)
    ensures NameTaken(s, name, mac, now) <==> name != "" && NameIsElsewhere(s, name, mac, now)
  {
  }

  // ----- what a grant of an address leaves behind -----

  // The client's lease is on the address, for the time asked and under the name asked for
  // unless another client's live lease has it. A hold on the address of its own live lease
  // instead keeps the name and never brings the expiry forward.
  ghost predicate LeaseIs(s: State, l: Lease, mac: string, ip: Addr, asked: string, ttl: int, tentative: bool,
                          now: int) {
    && l.mac == mac && l.ip == ip
    && if tentative && mac in s.byMAC && s.byMAC[mac].expires > now && s.byMAC[mac].ip == ip then
         l.hostname == s.byMAC[mac].hostname && l.expires >= s.byMAC[mac].expires && l.expires >= now + ttl
         && (l.expires == s.byMAC[mac].expires || l.expires == now + ttl)
       else
         l.hostname == (if NameIsElsewhere(s, asked, mac, now) then "" else asked) && l.expires == now + ttl
  }

  // The lease is recorded; whoever else was on the address has none; nobody else notices.
  ghost predicate Recorded(s: State, after: State, mac: string, l: Lease) {
    && after.byMAC.Keys == (set m | m in s.byMAC && s.byMAC[m].ip != l.ip) + {mac}
    && after.byMAC[mac] == l
    && (forall m :: m in after.byMAC && m != mac ==> after.byMAC[m] == s.byMAC[m])
    && after.reserved == s.reserved && after.quarantine == s.quarantine
    && Good(after)
  }

  ghost predicate Given(s: State, o: Outcome, mac: string, ip: Addr, asked: string, ttl: int, tentative: bool,
                        now: int) {
    o.ok && LeaseIs(s, o.lease, mac, ip, asked, ttl, tentative, now) && Recorded(s, o.state, mac, o.lease)
  }

  lemma TakeGives(cfg: Config, s: State, mac: string, asked: string, ttl: int, tentative: bool, now: int, ip: Addr,
                  isNew: bool)
    requires Good(s)
    ensures var hostname := if NameTaken(s, asked, mac, now) then "" else asked;
      Given(s, Perform(s, mac, hostname, ttl, tentative, now, Take(ip, isNew)), mac, ip, asked, ttl, tentative, now)
  {
    var hostname := if NameTaken(s, asked, mac, now) then "" else asked;
    NameIsTaken(s, asked, mac, now);
    var l := Committed(s, mac, hostname, ip, ttl, tentative, now);
    CommitKeepsInverse(s, ip, l);
    CommitRecords(s, l);
  }

  lemma CommitRecords(s: State, l: Lease)
    requires Good(s)
    ensures Recorded(s, Commit(s, l.ip, l), l.mac, l)
  {
    CommitKeepsInverse(s, l.ip, l);
    var after := Commit(s, l.ip, l);
    forall m ensures m in after.byMAC <==> m == l.mac || (m in s.byMAC && s.byMAC[m].ip != l.ip) {
      if m in s.byMAC && m != l.mac { assert s.byIP[s.byMAC[m].ip] == m; }
    }
  }

  // ----- rule 1: the reservation -----

  // A REQUEST of a client with a reservation is granted exactly that, whatever it asked
  // for, whatever it holds, and whoever else holds it; and never as new.
  lemma ReservationIsLeased(cfg: Config, s: State, mac: string, asked: string, requested: Addr, ttl: int, now: int)
    requires Good(s) && HasReservation(cfg, s, mac)
    ensures var o := Grant(cfg, s, mac, asked, requested, ttl, false, now);
      Given(s, o, mac, s.reserved[mac], asked, ttl, false, now) && !o.isNew
  {
    TakeGives(cfg, s, mac, asked, ttl, false, now, s.reserved[mac], false);
  }

  // An OFFER names the reservation, unless another client's live lease is on it. It is
  // held for the client, except that a client using another lease only hears of it.
  lemma ReservationIsOffered(cfg: Config, s: State, mac: string, requested: Addr, hold: int, now: int)
    requires Good(s) && HasReservation(cfg, s, mac) && !TakenByAnother(s, s.reserved[mac], mac, now)
    ensures var o := Grant(cfg, s, mac, "", requested, hold, true, now);
      && !o.isNew
      && if mac in s.byMAC && s.byMAC[mac].expires > now && s.byMAC[mac].ip != s.reserved[mac] then
           o.ok && o.state == s && o.lease == Lease(mac, s.reserved[mac], "", now + hold)
         else Given(s, o, mac, s.reserved[mac], "", hold, true, now)
  {
    TakenIsHeld(s, s.reserved[mac], mac, now);
    TakeGives(cfg, s, mac, "", hold, true, now, s.reserved[mac], false);
  }

  // Does rule 1 have nothing to give?
  ghost predicate Unreserved(cfg: Config, s: State, mac: string, tentative: bool, now: int) {
    HasReservation(cfg, s, mac) ==> tentative && TakenByAnother(s, s.reserved[mac], mac, now)
  }

  // ----- rule 2: what the client holds -----

  // Failing a reservation, what the client may keep it keeps, whatever it asked for. That
  // is new to it exactly when its lease had run out.
  lemma HoldingIsKept(cfg: Config, s: State, mac: string, asked: string, requested: Addr, ttl: int, tentative: bool,
                      now: int)
    requires Good(s) && Unreserved(cfg, s, mac, tentative, now) && MayKeep(cfg, s, mac)
    ensures var o := Grant(cfg, s, mac, asked, requested, ttl, tentative, now);
      Given(s, o, mac, s.byMAC[mac].ip, asked, ttl, tentative, now) && (o.isNew <==> s.byMAC[mac].expires <= now)
  {
    KeepIsRenewable(cfg, s, mac);
    if HasReservation(cfg, s, mac) { TakenIsHeld(s, s.reserved[mac], mac, now); }
    TakeGives(cfg, s, mac, asked, ttl, tentative, now, s.byMAC[mac].ip, s.byMAC[mac].expires <= now);
  }

  // An OFFER to a client using a lease it may not keep repeats that lease and changes
  // nothing, unless the lease is on the server's or the gateway's address.
  lemma LeaseInUseIsOffered(cfg: Config, s: State, mac: string, requested: Addr, hold: int, now: int)
    requires Good(s) && Unreserved(cfg, s, mac, true, now) && !MayKeep(cfg, s, mac) && HoldsAnother(cfg, s, mac, now)
    ensures Grant(cfg, s, mac, "", requested, hold, true, now) == Outcome(s, s.byMAC[mac], false, true)
  {
    KeepIsRenewable(cfg, s, mac);
    if HasReservation(cfg, s, mac) { TakenIsHeld(s, s.reserved[mac], mac, now); }
  }

  // ----- rules 3 and 4: an open address -----

  // Has the client nothing to go on: no reservation, nothing it may keep, nothing an OFFER
  // would leave it on?
  ghost predicate Newcomer(cfg: Config, s: State, mac: string, tentative: bool, now: int) {
    && Unreserved(cfg, s, mac, tentative, now) && !MayKeep(cfg, s, mac)
    && !(tentative && HoldsAnother(cfg, s, mac, now))
  }

  lemma NewcomerTakesFree(cfg: Config, s: State, mac: string, requested: Addr, tentative: bool, now: int)
    requires Good(s) && Newcomer(cfg, s, mac, tentative, now)
    ensures Decide(cfg, s, mac, requested, tentative, now) == TakeFree(cfg, s, mac, requested, now)
  {
    KeepIsRenewable(cfg, s, mac);
    if HasReservation(cfg, s, mac) { TakenIsHeld(s, s.reserved[mac], mac, now); }
  }

  // Then the address it asks for is its own if it is open.
  lemma OpenRequestIsGranted(cfg: Config, s: State, mac: string, asked: string, requested: Addr, ttl: int,
                             tentative: bool, now: int)
    requires Good(s) && Newcomer(cfg, s, mac, tentative, now) && Open(cfg, s, requested, mac, now)
    ensures var o := Grant(cfg, s, mac, asked, requested, ttl, tentative, now);
      Given(s, o, mac, requested, asked, ttl, tentative, now) && o.isNew
  {
    NewcomerTakesFree(cfg, s, mac, requested, tentative, now);
    OpenIsFree(cfg, s, requested, mac, now);
    TakeGives(cfg, s, mac, asked, ttl, tentative, now, requested, true);
  }

  // Otherwise it gets the least open address of the range.
  lemma LeastOpenIsGranted(cfg: Config, s: State, mac: string, asked: string, requested: Addr, ttl: int,
                           tentative: bool, now: int, least: Addr)
    requires Good(s) && Newcomer(cfg, s, mac, tentative, now) && !Open(cfg, s, requested, mac, now)
    requires Open(cfg, s, least, mac, now)
    requires forall ip :: Open(cfg, s, ip, mac, now) ==> least.v4 <= ip.v4
    ensures var o := Grant(cfg, s, mac, asked, requested, ttl, tentative, now);
      Given(s, o, mac, least, asked, ttl, tentative, now) && o.isNew
  {
    NewcomerTakesFree(cfg, s, mac, requested, tentative, now);
    OpenIsFree(cfg, s, requested, mac, now);
    OpenIsFree(cfg, s, least, mac, now);
    ScanIsLeast(cfg, s, mac, now, least);
    var found := ScanFrom(cfg, s, mac, now, cfg.start).value;
    OpenIsFree(cfg, s, found, mac, now);
    TakeGives(cfg, s, mac, asked, ttl, tentative, now, least, true);
  }

  // And with none open it is refused, and nothing changes.
  lemma NoneOpenIsRefused(cfg: Config, s: State, mac: string, asked: string, requested: Addr, ttl: int,
                          tentative: bool, now: int)
    requires Good(s) && Newcomer(cfg, s, mac, tentative, now)
    requires forall ip :: !Open(cfg, s, ip, mac, now)
    ensures var o := Grant(cfg, s, mac, asked, requested, ttl, tentative, now);
      !o.ok && o.state == s
  {
    NewcomerTakesFree(cfg, s, mac, requested, tentative, now);
    OpenIsFree(cfg, s, requested, mac, now);
    ScanFinds(cfg, s, mac, now, cfg.start);
    var found := ScanFrom(cfg, s, mac, now, cfg.start);
    if found.Some? { OpenIsFree(cfg, s, found.value, mac, now); }
  }

  lemma NewIsUnreserved(cfg: Config, s: State, mac: string, requested: Addr, now: int)
    requires Good(s)
    ensures var d := Decide(cfg, s, mac, requested, true, now);
      d.Take? && d.isNew && HasReservation(cfg, s, mac) ==> d.ip != s.reserved[mac]
  {
    ScanFinds(cfg, s, mac, now, cfg.start);
  }

  // What is granted as new is recorded, and is never the client's own reservation.
  lemma NewIsGiven(cfg: Config, s: State, mac: string, requested: Addr, hold: int, now: int)
    requires Good(s) && Grant(cfg, s, mac, "", requested, hold, true, now).isNew
    ensures var o := Grant(cfg, s, mac, "", requested, hold, true, now);
      && o.ok && o.lease.mac == mac && Recorded(s, o.state, mac, o.lease)
      && (HasReservation(cfg, s, mac) ==> o.lease.ip != s.reserved[mac])
  {
    var d := Decide(cfg, s, mac, requested, true, now);
    NewIsUnreserved(cfg, s, mac, requested, now);
    TakeGives(cfg, s, mac, "", hold, true, now, d.ip, true);
  }
}
