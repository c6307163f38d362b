/** What the four rules guarantee, for every call and over every run. */
module AllocationFacts {
  import opened Wrappers
  import opened Net
  import opened Allocation

  // The two lease maps are exact inverses, and a lease sits under its own MAC.
  ghost predicate Inverse(s: State) {
    && (forall m :: m in s.byMAC ==> s.byMAC[m].mac == m && s.byMAC[m].ip in s.byIP && s.byIP[s.byMAC[m].ip] == m)
    && (forall ip :: ip in s.byIP ==> s.byIP[ip] in s.byMAC && s.byMAC[s.byIP[ip]].ip == ip)
  }

  // No two unexpired leases share a name.
  ghost predicate UniqueNames(s: State, now: int) {
    forall m, n :: Held(s, m, now) && Held(s, n, now) && m != n && s.byMAC[m].hostname != "" ==>
      s.byMAC[m].hostname != s.byMAC[n].hostname
  }

  // What the reservation table owes the rules: one address per MAC, one MAC per
  // address, and no reservation for the empty MAC.
  ghost predicate SoundReservations(s: State) {
    && InversePick(s.reserved, s.reservedIP)
    && (forall m :: m in s.reserved ==> m != "")
    && (forall m, n :: m in s.reserved && n in s.reserved && s.reserved[m] == s.reserved[n] ==> m == n)
  }

  // ----- the inverse maps -----

  lemma CommitKeepsInverse(s: State, ip: Addr, l: Lease)
    requires Inverse(s) && l.ip == ip
    ensures Inverse(Commit(s, ip, l))
  {
  }

  lemma GrantKeepsInverse(cfg: Config, s: State, mac: string, asked: string, requested: Addr, ttl: int, tentative: bool,
                          now: int)
    requires Inverse(s)
    ensures Inverse(Grant(cfg, s, mac, asked, requested, ttl, tentative, now).state)
  {
    var hostname := if NameTaken(s, asked, mac, now) then "" else asked;
    match Decide(cfg, s, mac, requested, tentative, now)
    case Take(ip, isNew) => CommitKeepsInverse(s, ip, Committed(s, mac, hostname, ip, ttl, tentative, now));
    case Promise(ip) =>
    case Keep =>
    case Refuse =>
  }

  ghost predicate OneToOne(ls: seq<Lease>) {
    forall i, j :: 0 <= i < j < |ls| ==> ls[i].mac != ls[j].mac && ls[i].ip != ls[j].ip
  }

  lemma {:induction false} LoadedByMAC(ls: seq<Lease>)
    requires OneToOne(ls)
    ensures forall i :: 0 <= i < |ls| ==> ls[i].mac in LoadMAC(ls) && LoadMAC(ls)[ls[i].mac] == ls[i]
    ensures forall m :: m in LoadMAC(ls) ==> LoadMAC(ls)[m].mac == m && LoadMAC(ls)[m] in ls
  {
    if ls != [] {
      LoadedByMAC(ls[..|ls| - 1]);
    }
  }

  lemma {:induction false} LoadedByIP(ls: seq<Lease>)
    requires OneToOne(ls)
    ensures forall i :: 0 <= i < |ls| ==> ls[i].ip in LoadIP(ls) && LoadIP(ls)[ls[i].ip] == ls[i].mac
  {
    if ls != [] {
      LoadedByIP(ls[..|ls| - 1]);
    }
  }

  lemma {:induction false} LoadedFrom(ls: seq<Lease>, ip: Addr)
    requires ip in LoadIP(ls)
    ensures exists i :: 0 <= i < |ls| && ls[i].ip == ip
  {
    if ls != [] {
      var n := |ls| - 1;
      if ip in LoadIP(ls[..n]) {
        LoadedFrom(ls[..n], ip);
        var i :| 0 <= i < n && ls[..n][i].ip == ip;
        assert ls[i].ip == ip;
      } else {
        assert ls[n].ip == ip;
      }
    }
  }

  lemma LoadGivesInverse(s: State, ls: seq<Lease>)
    requires OneToOne(ls)
    ensures Inverse(Loaded(s, ls))
  {
    LoadedByMAC(ls);
    LoadedByIP(ls);
    forall ip | ip in LoadIP(ls) ensures exists i :: 0 <= i < |ls| && ls[i].ip == ip { LoadedFrom(ls, ip); }
  }

  // ----- an OFFER never weakens a lease in use -----

  // After the OFFER the lease has its address and its name, and lasts no shorter.
  predicate AsGood(before: State, after: State, m: string)
    requires m in before.byMAC
  {
    && m in after.byMAC && after.byMAC[m].ip == before.byMAC[m].ip
    && after.byMAC[m].hostname == before.byMAC[m].hostname
    && after.byMAC[m].expires >= before.byMAC[m].expires
  }

  // Has this client a reservation an OFFER may name?
  predicate Promisable(cfg: Config, s: State, mac: string, now: int) {
    mac in s.reserved && !Protected(cfg, s.reserved[mac]) && !HeldByAnother(s, s.reserved[mac], mac, now)
  }

  // An OFFER leaves every other client's live lease as it was. The client's own stays as
  // good as it was, unless, and only unless, it is on the host's or the gateway's
  // address, no reservation can be named instead, and some address is free.
  lemma OfferWeakensExactly(cfg: Config, s: State, mac: string, requested: Addr, hold: int, now: int, m: string)
    requires Inverse(s) && Held(s, m, now)
    ensures var after := Grant(cfg, s, mac, "", requested, hold, true, now).state;
      if m != mac then m in after.byMAC && after.byMAC[m] == s.byMAC[m]
      else AsGood(s, after, m) <==>
        !(Protected(cfg, s.byMAC[m].ip) && !Promisable(cfg, s, mac, now) && exists ip :: Free(cfg, s, ip, mac, now))
  {
    if m == mac {
      OwnLeaseWeakensExactly(cfg, s, mac, requested, hold, now);
    } else {
      OfferLeavesOthers(cfg, s, mac, requested, hold, now, m);
    }
  }

  lemma OfferLeavesOthers(cfg: Config, s: State, mac: string, requested: Addr, hold: int, now: int, m: string)
    requires Inverse(s) && Held(s, m, now) && m != mac
    ensures var after := Grant(cfg, s, mac, "", requested, hold, true, now).state;
      m in after.byMAC && after.byMAC[m] == s.byMAC[m]
  {
    ScanFinds(cfg, s, mac, now, cfg.start);
  }

  lemma OwnLeaseWeakensExactly(cfg: Config, s: State, mac: string, requested: Addr, hold: int, now: int)
    requires Inverse(s) && Held(s, mac, now)
    ensures AsGood(s, Grant(cfg, s, mac, "", requested, hold, true, now).state, mac) <==>
      !(Protected(cfg, s.byMAC[mac].ip) && !Promisable(cfg, s, mac, now) && exists ip :: Free(cfg, s, ip, mac, now))
  {
    ScanFinds(cfg, s, mac, now, cfg.start);
    RefusedExactlyWhenExhausted(cfg, s, mac, "", requested, hold, true, now);
  }

  // The input: a client on the server's own address is moved off it.
  lemma OfferMovesClientOffHost()
    ensures var net := Prefix(V4(0), 8);
      var cfg := Config(net, V4(1), V4(2), V4(1), V4(9), 300);
      var l := Lease("a", V4(1), "printer", 100);
      var s := EMPTY.(byMAC := map["a" := l], byIP := map[V4(1) := "a"]);
      Inverse(s) && Held(s, "a", 0) &&
      Grant(cfg, s, "a", "", NoAddr, 60, true, 0).state.byMAC["a"] == Lease("a", V4(2), "", 60)
  {
    var cfg := Config(Prefix(V4(0), 8), V4(1), V4(2), V4(1), V4(9), 300);
    var l := Lease("a", V4(1), "printer", 100);
    var s := EMPTY.(byMAC := map["a" := l], byIP := map[V4(1) := "a"]);
    assert Free(cfg, s, V4(2), "a", 0);
    assert ScanFrom(cfg, s, "a", 0, V4(1)) == ScanFrom(cfg, s, "a", 0, V4(2)) == Some(V4(2));
  }

  // ----- what may be granted -----

  // Which addresses each decision may name.
  ghost predicate SafeDecision(cfg: Config, s: State, mac: string, tentative: bool, now: int, d: Decision) {
    match d
    case Take(ip, isNew) =>
      && !Protected(cfg, ip)
      && (OwnReservation(cfg, s, mac, ip) || (InRange(cfg, ip) && ip !in s.reserved.Values))
      && (HeldByAnother(s, ip, mac, now) ==> !tentative && OwnReservation(cfg, s, mac, ip))
      && (isNew ==> Free(cfg, s, ip, mac, now) || Renewable(cfg, s, mac))
    case Promise(ip) => tentative && OwnReservation(cfg, s, mac, ip) && !HeldByAnother(s, ip, mac, now)
    case Keep => tentative && Held(s, mac, now) && !Protected(cfg, s.byMAC[mac].ip)
    case Refuse => true
  }

  lemma DecisionIsSafe(cfg: Config, s: State, mac: string, requested: Addr, tentative: bool, now: int)
    requires Inverse(s) && SoundReservations(s)
    ensures SafeDecision(cfg, s, mac, tentative, now, Decide(cfg, s, mac, requested, tentative, now))
  {
    ScanFinds(cfg, s, mac, now, cfg.start);
  }

  // A granted address, OFFERed or leased, is never our own or the gateway's; it is
  // the client's own reservation or a range address reserved to nobody, unless the
  // OFFER only repeats the lease in use; and it is under nobody else's live lease
  // unless a REQUEST takes its own reservation back.
  lemma GrantIsSafe(cfg: Config, s: State, mac: string, asked: string, requested: Addr, ttl: int, tentative: bool,
                    now: int)
    requires Inverse(s) && SoundReservations(s)
    requires Grant(cfg, s, mac, asked, requested, ttl, tentative, now).ok
    ensures var l := Grant(cfg, s, mac, asked, requested, ttl, tentative, now).lease;
      && l.mac == mac && !Protected(cfg, l.ip)
      && (OwnReservation(cfg, s, mac, l.ip) || (InRange(cfg, l.ip) && l.ip !in s.reserved.Values)
          || (tentative && Held(s, mac, now) && l == s.byMAC[mac]))
      && (HeldByAnother(s, l.ip, mac, now) ==> !tentative && OwnReservation(cfg, s, mac, l.ip))
  {
    DecisionIsSafe(cfg, s, mac, requested, tentative, now);
  }

  // The committed case, as a REQUEST sees it: the lease is recorded, and any
  // other client's live lease that is gone was on this client's reservation.
  lemma AllocateCommits(cfg: Config, s: State, mac: string, asked: string, requested: Addr, ttl: int, now: int)
    requires Inverse(s) && SoundReservations(s)
    requires Grant(cfg, s, mac, asked, requested, ttl, false, now).ok
    ensures var o := Grant(cfg, s, mac, asked, requested, ttl, false, now);
      && mac in o.state.byMAC && o.state.byMAC[mac] == o.lease && o.lease.expires == now + ttl
      && (o.lease.hostname == asked || o.lease.hostname == "")
      && (forall m :: m in s.byMAC && m != mac && !(m in o.state.byMAC && o.state.byMAC[m] == s.byMAC[m]) ==>
            s.byMAC[m].ip == o.lease.ip && (s.byMAC[m].Live(now) ==> OwnReservation(cfg, s, mac, o.lease.ip)))
  {
    GrantIsSafe(cfg, s, mac, asked, requested, ttl, false, now);
  }

  // ----- the pool scan -----

  lemma {:induction false} ScanFinds(cfg: Config, s: State, mac: string, now: int, from: Addr)
    ensures var r := ScanFrom(cfg, s, mac, now, from);
      r.Some? ==> Free(cfg, s, r.value, mac, now) && from.V4? && from.v4 <= r.value.v4
    ensures var r := ScanFrom(cfg, s, mac, now, from);
      forall ip :: Free(cfg, s, ip, mac, now) && from.V4? && cfg.start.V4? && cfg.start.v4 <= from.v4 <= ip.v4 ==>
        r.Some? && r.value.v4 <= ip.v4
    decreases if from.V4? then LIMIT32 - from.v4 else 0
  {
    if InRange(cfg, from) && !Free(cfg, s, from, mac, now) {
      ScanFinds(cfg, s, mac, now, Next(from));
    }
  }

  // The scan returns the least free address of the range, and none only when
  // nothing in it is free.
  lemma ScanIsLeast(cfg: Config, s: State, mac: string, now: int, ip: Addr)
    requires Free(cfg, s, ip, mac, now)
    ensures var r := ScanFrom(cfg, s, mac, now, cfg.start);
      r.Some? && Free(cfg, s, r.value, mac, now) && r.value.v4 <= ip.v4
  {
    ScanFinds(cfg, s, mac, now, cfg.start);
  }

  // A client is refused exactly when it has no reservation it may be given, no
  // lease it may keep, and no address of the range is free for it.
  lemma RefusedExactlyWhenExhausted(cfg: Config, s: State, mac: string, asked: string, requested: Addr, ttl: int,
                                    tentative: bool, now: int)
    ensures Grant(cfg, s, mac, asked, requested, ttl, tentative, now).ok <==>
      || (mac in s.reserved && OwnReservation(cfg, s, mac, s.reserved[mac])
          && !(tentative && HeldByAnother(s, s.reserved[mac], mac, now)))
      || Renewable(cfg, s, mac)
      || (tentative && Held(s, mac, now) && !Protected(cfg, s.byMAC[mac].ip))
      || exists ip :: Free(cfg, s, ip, mac, now)
  {
    ScanFinds(cfg, s, mac, now, cfg.start);
    if ScanFrom(cfg, s, mac, now, cfg.start).None? {
      forall ip ensures !Free(cfg, s, ip, mac, now) {
        if Free(cfg, s, ip, mac, now) { ScanIsLeast(cfg, s, mac, now, ip); }
      }
    }
  }

  // ----- runs -----

  datatype Op =
    | Load(ls: seq<Lease>)
    | SetReservations(r: map<string, Addr>, pick: map<Addr, string>)
    | Allocate(mac: string, hostname: string, requested: Addr, ttl: int)
    | Offer(mac: string, requested: Addr, hold: int)
    | Release(mac: string, ip: Addr)
    | Decline(mac: string, ip: Addr)
    | Quarantine(ip: Addr)

  datatype Call = Call(at: int, op: Op)

  function Step(cfg: Config, s: State, e: Call): State {
    match e.op
    case Load(ls) => Loaded(s, ls)
    case SetReservations(r, pick) => s.(reserved := r, reservedIP := pick)
    case Allocate(mac, hostname, requested, ttl) => Grant(cfg, s, mac, hostname, requested, ttl, false, e.at).state
    case Offer(mac, requested, hold) => Grant(cfg, s, mac, "", requested, hold, true, e.at).state
    case Release(mac, ip) => Released(s, mac, ip)
    case Decline(mac, ip) => Declined(cfg, s, mac, ip, e.at)
    case Quarantine(ip) => Quarantined(s, ip, e.at)
  }

  function Run(cfg: Config, s: State, run: seq<Call>): State {
    if run == [] then s else Step(cfg, Run(cfg, s, run[..|run| - 1]), run[|run| - 1])
  }

  // A run the allocator can see: the clock never goes back and every load is
  // one-to-one in MAC and in address, as the stored table is.
  ghost predicate Legal(run: seq<Call>) {
    && (forall i, j :: 0 <= i < j < |run| ==> run[i].at <= run[j].at)
    && (forall i :: 0 <= i < |run| && run[i].op.Load? ==> OneToOne(run[i].op.ls))
  }

  lemma {:induction false} RunKeepsInverse(cfg: Config, run: seq<Call>)
    requires Legal(run)
    ensures Inverse(Run(cfg, EMPTY, run))
  {
    if run != [] {
      var before, e := run[..|run| - 1], run[|run| - 1];
      RunKeepsInverse(cfg, before);
      var s := Run(cfg, EMPTY, before);
      match e.op
      case Load(ls) => LoadGivesInverse(s, ls);
      case SetReservations(r, pick) =>
      case Allocate(mac, hostname, requested, ttl) =>
        GrantKeepsInverse(cfg, s, mac, hostname, requested, ttl, false, e.at);
      case Offer(mac, requested, hold) => GrantKeepsInverse(cfg, s, mac, "", requested, hold, true, e.at);
      case Release(mac, ip) =>
      case Decline(mac, ip) =>
      case Quarantine(ip) =>
    }
  }

  // A restored table keeps names apart only if its own rows do: a stored row can
  // outlive the memory that arbitrated its name.
  ghost predicate LoadsUniqueNames(run: seq<Call>) {
    forall i :: 0 <= i < |run| && run[i].op.Load? ==> UniqueNames(Loaded(EMPTY, run[i].op.ls), run[i].at)
  }

  lemma GrantKeepsNames(cfg: Config, s: State, mac: string, asked: string, requested: Addr, ttl: int, tentative: bool,
                        now: int)
    requires Inverse(s) && UniqueNames(s, now) && (tentative ==> asked == "")
    ensures UniqueNames(Grant(cfg, s, mac, asked, requested, ttl, tentative, now).state, now)
  {
  }

  lemma {:induction false} RunKeepsNamesUnique(cfg: Config, run: seq<Call>, now: int)
    requires Legal(run) && LoadsUniqueNames(run)
    requires run != [] ==> run[|run| - 1].at <= now
    ensures UniqueNames(Run(cfg, EMPTY, run), now)
  {
    if run != [] {
      var before, e := run[..|run| - 1], run[|run| - 1];
      RunKeepsNamesUnique(cfg, before, e.at);
      RunKeepsInverse(cfg, before);
      NoneSharesLater(Run(cfg, EMPTY, run), e.at, now);
      StepKeepsNames(cfg, Run(cfg, EMPTY, before), e);
    }
  }

  lemma NoneSharesLater(s: State, at: int, now: int)
    requires at <= now
    ensures UniqueNames(s, at) ==> UniqueNames(s, now)
  {
  }

  lemma StepKeepsNames(cfg: Config, s: State, e: Call)
    requires Inverse(s) && UniqueNames(s, e.at)
    requires e.op.Load? ==> UniqueNames(Loaded(EMPTY, e.op.ls), e.at)
    ensures UniqueNames(Step(cfg, s, e), e.at)
  {
    if e.op.Allocate? {
      GrantKeepsNames(cfg, s, e.op.mac, e.op.hostname, e.op.requested, e.op.ttl, false, e.at);
    } else if e.op.Offer? {
      GrantKeepsNames(cfg, s, e.op.mac, "", e.op.requested, e.op.hold, true, e.at);
    }
  }

  // Names stay unique at every point of a run exactly when every load brought
  // unique names with it.
  lemma NamesUniqueExactly(cfg: Config, run: seq<Call>)
    requires Legal(run)
    ensures LoadsUniqueNames(run) <==>
      forall k :: 0 < k <= |run| ==> UniqueNames(Run(cfg, EMPTY, run[..k]), run[k - 1].at)
  {
    if LoadsUniqueNames(run) {
      forall k | 0 < k <= |run| ensures UniqueNames(Run(cfg, EMPTY, run[..k]), run[k - 1].at) {
        RunKeepsNamesUnique(cfg, run[..k], run[k - 1].at);
      }
    }
    if forall k :: 0 < k <= |run| ==> UniqueNames(Run(cfg, EMPTY, run[..k]), run[k - 1].at) {
      forall i | 0 <= i < |run| && run[i].op.Load? ensures UniqueNames(Loaded(EMPTY, run[i].op.ls), run[i].at) {
        assert run[..i + 1][..i] == run[..i];
        assert UniqueNames(Run(cfg, EMPTY, run[..i + 1]), run[i].at);
      }
    }
  }
}
