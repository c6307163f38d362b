/** The address pool: two maps that must stay inverses, reservations, a
    quarantine, and the four ordered rules that decide an OFFER or a REQUEST.
    Times are whole seconds; every operation is told what the clock says. */
module Allocation {
  import opened Wrappers
  import opened Net

  const QUARANTINE_FOR := 600

  // The largest pool the settings accept.
  const MAX_POOL_SIZE := 65536

  datatype Lease = Lease(mac: string, ip: Addr, hostname: string, expires: int) {
    predicate Live(now: int) { expires > now }
  }

  const NO_LEASE := Lease("", NoAddr, "", 0)

  datatype Config = Config(subnet: Prefix, start: Addr, end: Addr, host: Addr, gateway: Addr, leaseTime: int)

  // Everything an allocator holds, as one value.
  datatype State = State(
    byMAC: map<string, Lease>,
    byIP: map<Addr, string>,
    reserved: map<string, Addr>,
    reservedIP: map<Addr, string>,
    quarantine: map<Addr, int>)

  const EMPTY := State(map[], map[], map[], map[], map[])

  // ----- what may be handed out -----

  predicate InRange(cfg: Config, ip: Addr) {
    ip.V4? && cfg.start.V4? && cfg.end.V4? && cfg.start.v4 <= ip.v4 <= cfg.end.v4
  }

  predicate Protected(cfg: Config, ip: Addr) {
    ip == cfg.host || ip == cfg.gateway
  }

  predicate Usable(cfg: Config, ip: Addr) {
    InRange(cfg, ip) && !Protected(cfg, ip)
  }

  predicate HeldByAnother(s: State, ip: Addr, mac: string, now: int) {
    ip in s.byIP && s.byIP[ip] != mac && s.byIP[ip] in s.byMAC && s.byMAC[s.byIP[ip]].Live(now)
  }

  predicate Free(cfg: Config, s: State, ip: Addr, mac: string, now: int) {
    && Usable(cfg, ip)
    && !(ip in s.quarantine && s.quarantine[ip] > now)
    && !(ip in s.reservedIP && s.reservedIP[ip] != mac)
    && !HeldByAnother(s, ip, mac, now)
  }

  predicate NameTaken(s: State, hostname: string, mac: string, now: int) {
    hostname != "" &&
    exists m :: m in s.byMAC && s.byMAC[m].mac != mac && s.byMAC[m].hostname == hostname && s.byMAC[m].Live(now)
  }

  predicate Held(s: State, mac: string, now: int) {
    mac in s.byMAC && s.byMAC[mac].Live(now)
  }

  predicate OwnReservation(cfg: Config, s: State, mac: string, ip: Addr) {
    mac in s.reserved && s.reserved[mac] == ip && !Protected(cfg, ip)
  }

  // Rule 2: what the client already holds is still ours to give.
  predicate Renewable(cfg: Config, s: State, mac: string) {
    mac in s.byMAC && Usable(cfg, s.byMAC[mac].ip) &&
    (s.byMAC[mac].ip in s.reservedIP ==> s.reservedIP[s.byMAC[mac].ip] == "")
  }

  // Rule 4: the first free address from ip upwards.
  function ScanFrom(cfg: Config, s: State, mac: string, now: int, ip: Addr): Option<Addr>
    decreases if ip.V4? then LIMIT32 - ip.v4 else 0
  {
    if !InRange(cfg, ip) then None
    else if Free(cfg, s, ip, mac, now) then Some(ip)
    else ScanFrom(cfg, s, mac, now, Next(ip))
  }

  // ----- the four rules -----

  datatype Decision =
    | Take(ip: Addr, isNew: bool)  // commit the address
    | Promise(ip: Addr)            // name the reservation, change nothing
    | Keep                         // answer with the lease already held
    | Refuse

  function Decide(cfg: Config, s: State, mac: string, requested: Addr, tentative: bool, now: int): Decision {
    if mac in s.reserved && !Protected(cfg, s.reserved[mac]) &&
       !(tentative && HeldByAnother(s, s.reserved[mac], mac, now)) then
      if tentative && Held(s, mac, now) && s.byMAC[mac].ip != s.reserved[mac]
      then Promise(s.reserved[mac]) else Take(s.reserved[mac], false)
    else DecideUnreserved(cfg, s, mac, requested, tentative, now)
  }

  function DecideUnreserved(cfg: Config, s: State, mac: string, requested: Addr, tentative: bool, now: int): Decision {
    if Renewable(cfg, s, mac) then Take(s.byMAC[mac].ip, !s.byMAC[mac].Live(now))
    else if tentative && Held(s, mac, now) && !Protected(cfg, s.byMAC[mac].ip) then Keep
    else TakeFree(cfg, s, mac, requested, now)
  }

  // Rules 3 and 4: a requested address that is free, else the lowest free one.
  function TakeFree(cfg: Config, s: State, mac: string, requested: Addr, now: int): Decision {
    if requested != NoAddr && Free(cfg, s, requested, mac, now) then Take(requested, true)
    else match ScanFrom(cfg, s, mac, now, cfg.start)
      case Some(ip) => Take(ip, true)
      case None => Refuse
  }

  // The lease a commit writes: a tentative hold keeps the name of a live lease
  // on the same address and moves its expiry only later.
  function Committed(s: State, mac: string, hostname: string, ip: Addr, ttl: int, tentative: bool, now: int): Lease {
    if tentative && Held(s, mac, now) && s.byMAC[mac].ip == ip then
      Lease(mac, ip, s.byMAC[mac].hostname,
            if s.byMAC[mac].expires > now + ttl then s.byMAC[mac].expires else now + ttl)
    else Lease(mac, ip, hostname, now + ttl)
  }

  function Commit(s: State, ip: Addr, l: Lease): State {
    var mac := l.mac;
    var byMAC := if ip in s.byIP && s.byIP[ip] != mac then s.byMAC - {s.byIP[ip]} else s.byMAC;
    var byIP := if mac in s.byMAC && s.byMAC[mac].ip != ip then s.byIP - {s.byMAC[mac].ip} else s.byIP;
    s.(byMAC := byMAC[mac := l], byIP := byIP[ip := mac])
  }

  datatype Outcome = Outcome(state: State, lease: Lease, isNew: bool, ok: bool)

  function Grant(cfg: Config, s: State, mac: string, asked: string, requested: Addr, ttl: int, tentative: bool,
                 now: int): Outcome {
    var hostname := if NameTaken(s, asked, mac, now) then "" else asked;
    Perform(s, mac, hostname, ttl, tentative, now, Decide(cfg, s, mac, requested, tentative, now))
  }

  function Perform(s: State, mac: string, hostname: string, ttl: int, tentative: bool, now: int, d: Decision): Outcome {
    match d
    case Take(ip, isNew) =>
      var l := Committed(s, mac, hostname, ip, ttl, tentative, now);
      Outcome(Commit(s, ip, l), l, isNew, true)
    case Promise(ip) => Outcome(s, Lease(mac, ip, "", now + ttl), false, true)
    case Keep => Outcome(s, if mac in s.byMAC then s.byMAC[mac] else NO_LEASE, false, true)
    case Refuse => Outcome(s, NO_LEASE, false, false)
  }

  // ----- the other operations, on values -----

  function LoadMAC(ls: seq<Lease>): map<string, Lease> {
    if ls == [] then map[] else LoadMAC(ls[..|ls| - 1])[ls[|ls| - 1].mac := ls[|ls| - 1]]
  }

  function LoadIP(ls: seq<Lease>): map<Addr, string> {
    if ls == [] then map[] else LoadIP(ls[..|ls| - 1])[ls[|ls| - 1].ip := ls[|ls| - 1].mac]
  }

  function Loaded(s: State, ls: seq<Lease>): State {
    s.(byMAC := LoadMAC(ls), byIP := LoadIP(ls))
  }

  // What ranging over a map in any order can leave behind as its inverse.
  ghost predicate InversePick(r: map<string, Addr>, p: map<Addr, string>) {
    && (forall m :: m in r ==> r[m] in p)
    && (forall ip :: ip in p ==> p[ip] in r && r[p[ip]] == ip)
  }

  function Released(s: State, mac: string, ip: Addr): State {
    if mac in s.byMAC && s.byMAC[mac].ip == ip
    then s.(byMAC := s.byMAC - {mac}, byIP := s.byIP - {ip}) else s
  }

  predicate Declinable(s: State, mac: string, ip: Addr) {
    mac != "" && ip in s.byIP && s.byIP[ip] == mac
  }

  function Declined(cfg: Config, s: State, mac: string, ip: Addr, now: int): State {
    if !Declinable(s, mac, ip) then s
    else s.(
      byMAC := s.byMAC - {mac},
      byIP := s.byIP - {ip},
      quarantine := if InRange(cfg, ip) then s.quarantine[ip := now + QUARANTINE_FOR] else s.quarantine)
  }

  function Quarantined(s: State, ip: Addr, now: int): State {
    s.(quarantine := s.quarantine[ip := now + QUARANTINE_FOR])
  }

  // ----- the object -----

  class Allocator {
    const cfg: Config
    var byMAC: map<string, Lease>
    var byIP: map<Addr, string>
    var reserved: map<string, Addr>
    var reservedIP: map<Addr, string>
    var quarantine: map<Addr, int>

    function Contents(): State
      reads this
    {
      State(byMAC, byIP, reserved, reservedIP, quarantine)
    }

    constructor (cfg: Config)
      ensures this.cfg == cfg && Contents() == EMPTY
    {
      this.cfg := cfg;
      byMAC, byIP, reserved, reservedIP, quarantine := map[], map[], map[], map[], map[];
    }

    method Load(ls: seq<Lease>)
      modifies this
      ensures Contents() == Loaded(old(Contents()), ls)
    {
      byMAC, byIP := map[], map[];
      for i := 0 to |ls|
        invariant byMAC == LoadMAC(ls[..i]) && byIP == LoadIP(ls[..i])
        invariant reserved == old(reserved) && reservedIP == old(reservedIP) && quarantine == old(quarantine)
      {
        assert ls[..i + 1][..i] == ls[..i];
        byMAC := byMAC[ls[i].mac := ls[i]];
        byIP := byIP[ls[i].ip := ls[i].mac];
      }
      assert ls[..|ls|] == ls;
    }

    method SetReservations(r: map<string, Addr>)
      modifies this
      ensures Contents() == old(Contents()).(reserved := r, reservedIP := reservedIP)
      ensures InversePick(r, reservedIP)
    {
      reserved, reservedIP := map[], map[];
      var rest := r.Keys;
      while rest != {}
        invariant rest <= r.Keys && reserved == map m | m in r && m !in rest :: r[m]
        invariant InversePick(reserved, reservedIP)
        invariant byMAC == old(byMAC) && byIP == old(byIP) && quarantine == old(quarantine)
        decreases rest
      {
        var m :| m in rest;
        rest := rest - {m};
        reserved := reserved[m := r[m]];
        reservedIP := reservedIP[r[m] := m];
      }
    }

    method Allocate(mac: string, hostname: string, requested: Addr, ttl: int, now: int) returns (l: Lease, ok: bool)
      modifies this
      ensures Outcome(Contents(), l, Grant(cfg, old(Contents()), mac, hostname, requested, ttl, false, now).isNew, ok)
           == Grant(cfg, old(Contents()), mac, hostname, requested, ttl, false, now)
    {
      var isNew;
      l, isNew, ok := AllocateEither(mac, hostname, requested, ttl, false, now);
    }

    method Offer(mac: string, requested: Addr, hold: int, now: int) returns (l: Lease, isNew: bool, ok: bool)
      modifies this
      ensures Outcome(Contents(), l, isNew, ok) == Grant(cfg, old(Contents()), mac, "", requested, hold, true, now)
    {
      l, isNew, ok := AllocateEither(mac, "", requested, hold, true, now);
    }

    method AllocateEither(mac: string, asked: string, requested: Addr, ttl: int, tentative: bool, now: int)
      returns (l: Lease, isNew: bool, ok: bool)
      modifies this
      ensures Outcome(Contents(), l, isNew, ok) ==
        Grant(cfg, old(Contents()), mac, asked, requested, ttl, tentative, now)
    {
      ghost var s := Contents();
      var hostname := asked;
      var taken := NameIsTaken(hostname, mac, now);
      if taken {
        hostname := "";
      }
      var hasPrev := mac in byMAC;
      var prev := if hasPrev then byMAC[mac] else NO_LEASE;
      var held := hasPrev && prev.Live(now);

      if mac in reserved && !Protected(cfg, reserved[mac]) {
        var ip := reserved[mac];
        if !tentative {
          assert Decide(cfg, s, mac, requested, tentative, now) == Take(ip, false);
          l := CommitLease(ip, mac, hostname, ttl, tentative, now);
          isNew, ok := false, true;
          return;
        } else if HeldByAnother(Contents(), ip, mac, now) {
          // Another client is still using it: fall through to a dynamic address.
        } else if held && prev.ip != ip {
          l, isNew, ok := Lease(mac, ip, "", now + ttl), false, true;
          return;
        } else {
          assert Decide(cfg, s, mac, requested, tentative, now) == Take(ip, false);
          l := CommitLease(ip, mac, hostname, ttl, tentative, now);
          isNew, ok := false, true;
          return;
        }
      }
      l, isNew, ok := AllocateUnreserved(mac, hostname, requested, ttl, tentative, now);
    }

    method AllocateUnreserved(mac: string, hostname: string, requested: Addr, ttl: int, tentative: bool, now: int)
      returns (l: Lease, isNew: bool, ok: bool)
      modifies this
      ensures Outcome(Contents(), l, isNew, ok)
           == Perform(old(Contents()), mac, hostname, ttl, tentative, now,
                      DecideUnreserved(cfg, old(Contents()), mac, requested, tentative, now))
    {
      var hasPrev := mac in byMAC;
      var prev := if hasPrev then byMAC[mac] else NO_LEASE;
      if hasPrev && Usable(cfg, prev.ip) && (prev.ip in reservedIP ==> reservedIP[prev.ip] == "") {
        l := CommitLease(prev.ip, mac, hostname, ttl, tentative, now);
        isNew, ok := !prev.Live(now), true;
        return;
      }
      if tentative && hasPrev && prev.Live(now) && !Protected(cfg, prev.ip) {
        return prev, false, true;
      }
      l, isNew, ok := CommitFree(mac, hostname, requested, ttl, tentative, now);
    }

    method CommitFree(mac: string, hostname: string, requested: Addr, ttl: int, tentative: bool, now: int)
      returns (l: Lease, isNew: bool, ok: bool)
      modifies this
      ensures Outcome(Contents(), l, isNew, ok)
           == Perform(old(Contents()), mac, hostname, ttl, tentative, now,
                      TakeFree(cfg, old(Contents()), mac, requested, now))
    {
      if requested != NoAddr && Free(cfg, Contents(), requested, mac, now) {
        l := CommitLease(requested, mac, hostname, ttl, tentative, now);
        isNew, ok := true, true;
        return;
      }
      var found, _ := ScanPool(mac, now);
      if found.Some? {
        l := CommitLease(found.value, mac, hostname, ttl, tentative, now);
        isNew, ok := true, true;
        return;
      }
      return NO_LEASE, false, false;
    }

    method CommitLease(ip: Addr, mac: string, hostname: string, ttl: int, tentative: bool, now: int) returns (l: Lease)
      modifies this
      ensures l == Committed(old(Contents()), mac, hostname, ip, ttl, tentative, now)
      ensures Contents() == Commit(old(Contents()), ip, l)
    {
      var hasPrev := mac in byMAC;
      var prev := if hasPrev then byMAC[mac] else NO_LEASE;
      if ip in byIP && byIP[ip] != mac {
        byMAC := byMAC - {byIP[ip]};
      }
      if hasPrev && prev.ip != ip {
        byIP := byIP - {prev.ip};
      }
      l := Lease(mac, ip, hostname, now + ttl);
      if tentative && hasPrev && prev.Live(now) && prev.ip == ip {
        l := l.(hostname := prev.hostname);
        if prev.expires > l.expires {
          l := l.(expires := prev.expires);
        }
      }
      byMAC := byMAC[mac := l];
      byIP := byIP[ip := mac];
    }

    // The pool scan. steps counts the addresses looked at.
    method ScanPool(mac: string, now: int) returns (found: Option<Addr>, ghost steps: nat)
      ensures found == ScanFrom(cfg, Contents(), mac, now, cfg.start)
      ensures cfg.start.V4? && cfg.end.V4? && cfg.start.v4 <= cfg.end.v4 ==> steps <= cfg.end.v4 - cfg.start.v4 + 1
      ensures !(cfg.start.V4? && cfg.end.V4? && cfg.start.v4 <= cfg.end.v4) ==> steps == 0
    {
      var ip := cfg.start;
      steps := 0;
      while InRange(cfg, ip)
        invariant ScanFrom(cfg, Contents(), mac, now, ip) == ScanFrom(cfg, Contents(), mac, now, cfg.start)
        invariant cfg.start.V4? && ip.V4? ==> steps == ip.v4 - cfg.start.v4
        invariant ip.V6? ==> cfg.start.V6?
        invariant ip == NoAddr && steps > 0 ==>
          cfg.start.V4? && steps == LIMIT32 - cfg.start.v4 && cfg.end == V4(LIMIT32 - 1)
        invariant steps > 0 ==>
          cfg.start.V4? && cfg.end.V4? && cfg.start.v4 <= cfg.end.v4 && steps <= cfg.end.v4 - cfg.start.v4 + 1
        decreases if ip.V4? then LIMIT32 - ip.v4 else 0
      {
        steps := steps + 1;
        if Free(cfg, Contents(), ip, mac, now) {
          return Some(ip), steps;
        }
        ip := Next(ip);
      }
      found := None;
    }

    method NameIsTaken(hostname: string, mac: string, now: int) returns (taken: bool)
      ensures taken == NameTaken(Contents(), hostname, mac, now)
    {
      if hostname == "" {
        return false;
      }
      var rest := byMAC.Keys;
      while rest != {}
        invariant rest <= byMAC.Keys
        invariant forall m :: m in byMAC && m !in rest ==>
          !(byMAC[m].mac != mac && byMAC[m].hostname == hostname && byMAC[m].Live(now))
        decreases rest
      {
        var m :| m in rest;
        var l := byMAC[m];
        if l.mac != mac && l.hostname == hostname && l.Live(now) {
          return true;
        }
        rest := rest - {m};
      }
      taken := false;
    }

    // Release drops a lease only when client and address both identify it.
    method Release(mac: string, ip: Addr) returns (dropped: bool)
      modifies this
      ensures Contents() == Released(old(Contents()), mac, ip)
      ensures dropped == (mac in old(byMAC) && old(byMAC)[mac].ip == ip)
    {
      if mac !in byMAC || byMAC[mac].ip != ip {
        return false;
      }
      byIP := byIP - {byMAC[mac].ip};
      byMAC := byMAC - {mac};
      dropped := true;
    }

    method Decline(mac: string, ip: Addr, now: int) returns (dropped: bool)
      modifies this
      ensures Contents() == Declined(cfg, old(Contents()), mac, ip, now)
      ensures dropped == Declinable(old(Contents()), mac, ip)
    {
      if mac == "" || ip !in byIP || byIP[ip] != mac {
        return false;
      }
      byMAC := byMAC - {mac};
      byIP := byIP - {ip};
      if InRange(cfg, ip) {
        quarantine := quarantine[ip := now + QUARANTINE_FOR];
      }
      dropped := true;
    }

    method Quarantine(ip: Addr, now: int)
      modifies this
      ensures Contents() == Quarantined(old(Contents()), ip, now)
    {
      quarantine := quarantine[ip := now + QUARANTINE_FOR];
    }

    // The unexpired leases, each once, in whatever order the map gives them.
    method Leases(now: int) returns (out: seq<Lease>)
      ensures forall m :: m in byMAC && byMAC[m].Live(now) ==> byMAC[m] in out
      ensures forall l :: l in out ==> exists m :: m in byMAC && byMAC[m] == l && l.Live(now)
      ensures |out| == |set m | m in byMAC && byMAC[m].Live(now)|
    {
      out := [];
      var rest := byMAC.Keys;
      ghost var done: set<string> := {};
      while rest != {}
        invariant rest <= byMAC.Keys
        invariant forall m :: m in byMAC && m !in rest && byMAC[m].Live(now) ==> byMAC[m] in out
        invariant forall l :: l in out ==> exists m :: m in byMAC && byMAC[m] == l && l.Live(now)
        invariant done == set m | m in byMAC && m !in rest && byMAC[m].Live(now)
        invariant |out| == |done|
        decreases rest
      {
        var m :| m in rest;
        rest := rest - {m};
        if byMAC[m].Live(now) {
          out := out + [byMAC[m]];
          done := done + {m};
        }
      }
      assert done == set m | m in byMAC && byMAC[m].Live(now);
    }
  }
}
