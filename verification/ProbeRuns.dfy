/** An address that answered a probe is kept from the client it was meant for. */
module ProbeRuns {
  import opened Net
  import opened Allocation
  import opened AllocationFacts
  import opened DhcpServer
  import opened LeaseRuns
  import opened LeaseGuards

  // Nothing is set aside for longer than ten minutes from now.
  ghost predicate Bounded(s: Sys) {
    s.up ==> forall ip :: ip in s.mem.quarantine ==> s.mem.quarantine[ip] <= s.clock + QUARANTINE_FOR
  }

  lemma GrantKeepsQuarantine(cfg: Config, s: State, mac: string, asked: string, requested: Addr, ttl: int,
                             tentative: bool, now: int)
    ensures Grant(cfg, s, mac, asked, requested, ttl, tentative, now).state.quarantine == s.quarantine
  {
  }

  lemma StepKeepsBounded(s: Sys, e: Event, t: Sys)
    requires Bounded(s) && Steps(s, e, t)
    ensures Bounded(t)
  {
    if e.Packet? {
      RememberQuarantine(s, e.m);
    } else if e.OfferingAgain? {
      GrantKeepsQuarantine(s.cfg, s.mem, s.probes[e.probe].mac, "", NoAddr, OFFER_HOLD, true, s.clock);
    }
  }

  // A packet sets an address aside only for ten minutes from now.
  lemma RememberQuarantine(s: Sys, m: Message)
    ensures forall ip :: ip in s.mem.quarantine ==> ip in Remember(s, m).quarantine
    ensures forall ip :: ip in Remember(s, m).quarantine ==>
      (ip in s.mem.quarantine && Remember(s, m).quarantine[ip] == s.mem.quarantine[ip])
        || Remember(s, m).quarantine[ip] == s.clock + QUARANTINE_FOR
  {
    match m.kind
    case Discover => GrantKeepsQuarantine(s.cfg, s.mem, m.mac, "", Unmap(m.requested), OFFER_HOLD, true, s.clock);
    case Request =>
      GrantKeepsQuarantine(s.cfg, s.mem, m.mac, m.hostname, Unmap(m.requested), s.cfg.leaseTime, false, s.clock);
    case _ =>
  }

  lemma {:induction false} BoundHolds(states: seq<Sys>, events: seq<Event>, i: nat)
    requires Behaviour(states, events) && i < |states|
    ensures Bounded(states[i])
  {
    if i > 0 {
      BoundHolds(states, events, i - 1);
      assert StepAt(states, events, i - 1);
      StepKeepsBounded(states[i - 1], events[i - 1], states[i]);
    }
  }

  // Set aside past the given time, and neither held by nor reserved to this client.
  ghost predicate Barred(s: State, mac: string, ip: Addr, until: int) {
    && ip in s.quarantine && s.quarantine[ip] > until
    && !(mac in s.byMAC && s.byMAC[mac].ip == ip) && !(mac in s.reserved && s.reserved[mac] == ip)
  }

  // The address a decision names for the client, if it names one.
  predicate Names(s: State, mac: string, d: Decision, ip: Addr) {
    match d
    case Take(a, _) => a == ip
    case Promise(a) => a == ip
    case Keep => mac in s.byMAC && s.byMAC[mac].ip == ip
    case Refuse => false
  }

  lemma BarredDecision(cfg: Config, s: State, mac: string, ip: Addr, until: int, requested: Addr, tentative: bool,
                       now: int)
    requires Barred(s, mac, ip, until) && now <= until
    ensures !Names(s, mac, Decide(cfg, s, mac, requested, tentative, now), ip)
  {
    ScanFinds(cfg, s, mac, now, cfg.start);
    assert !Free(cfg, s, ip, mac, now);
  }

  lemma BarredPerform(s: State, mac: string, ip: Addr, until: int, who: string, hostname: string, ttl: int,
                      tentative: bool, now: int, d: Decision)
    requires Barred(s, mac, ip, until) && (who == mac ==> !Names(s, mac, d, ip)) && (d.Keep? ==> who in s.byMAC)
    ensures var o := Perform(s, who, hostname, ttl, tentative, now, d);
      Barred(o.state, mac, ip, until) && (who == mac && o.ok ==> o.lease.ip != ip)
  {
  }

  lemma BarredGrant(cfg: Config, s: State, mac: string, ip: Addr, until: int, who: string, asked: string,
                    requested: Addr, ttl: int, tentative: bool, now: int)
    requires Barred(s, mac, ip, until) && now <= until
    ensures var o := Grant(cfg, s, who, asked, requested, ttl, tentative, now);
      Barred(o.state, mac, ip, until) && (who == mac && o.ok ==> o.lease.ip != ip)
  {
    if who == mac { BarredDecision(cfg, s, mac, ip, until, requested, tentative, now); }
    KeepHolds(cfg, s, who, requested, tentative, now);
    var hostname := if NameTaken(s, asked, who, now) then "" else asked;
    BarredPerform(s, mac, ip, until, who, hostname, ttl, tentative, now,
                  Decide(cfg, s, who, requested, tentative, now));
  }

  lemma KeepHolds(cfg: Config, s: State, mac: string, requested: Addr, tentative: bool, now: int)
    ensures Decide(cfg, s, mac, requested, tentative, now).Keep? ==> mac in s.byMAC
  {
  }

  // No listener goes away or starts, and the address is never reserved to the client.
  ghost predicate Undisturbed(states: seq<Sys>, events: seq<Event>, from: nat, to: nat, mac: string, ip: Addr)
    requires |states| == |events| + 1 && from <= to < |states|
  {
    && (forall j :: from <= j < to ==> !events[j].Crash? && !events[j].Start?)
    && (forall j :: from <= j <= to ==> !(mac in states[j].mem.reserved && states[j].mem.reserved[mac] == ip))
  }

  lemma StepKeepsBarred(s: Sys, e: Event, t: Sys, mac: string, ip: Addr, until: int)
    requires Inv(s) && s.up && Steps(s, e, t) && !e.Crash? && !e.Start? && Barred(s.mem, mac, ip, until)
    requires s.clock <= until < s.clock + QUARANTINE_FOR && !(mac in t.mem.reserved && t.mem.reserved[mac] == ip)
    ensures t.up && Barred(t.mem, mac, ip, until)
  {
    if e.Packet? {
      var m := e.m;
      RememberQuarantine(s, m);
      if m.kind == Discover {
        BarredGrant(s.cfg, s.mem, mac, ip, until, m.mac, "", Unmap(m.requested), OFFER_HOLD, true, s.clock);
      } else if m.kind == Request {
        BarredGrant(s.cfg, s.mem, mac, ip, until, m.mac, m.hostname, Unmap(m.requested), s.cfg.leaseTime, false,
                    s.clock);
      }
    } else if e.OfferingAgain? {
      BarredGrant(s.cfg, s.mem, mac, ip, until, s.probes[e.probe].mac, "", NoAddr, OFFER_HOLD, true, s.clock);
    }
  }

  lemma Shorter(states: seq<Sys>, events: seq<Event>, from: nat, to: nat, mac: string, ip: Addr)
    requires |states| == |events| + 1 && from < to < |states| && Undisturbed(states, events, from, to, mac, ip)
    ensures Undisturbed(states, events, from, to - 1, mac, ip)
    ensures !events[to - 1].Crash? && !events[to - 1].Start?
    ensures !(mac in states[to].mem.reserved && states[to].mem.reserved[mac] == ip)
  {
  }

  lemma ClockAt(states: seq<Sys>, events: seq<Event>, from: nat, to: nat)
    requires Behaviour(states, events) && from < to < |states|
    ensures states[from].clock <= states[to - 1].clock <= states[to].clock
  {
    ClockOrder(states, events, to - 1, to);
    ClockOrder(states, events, from, to - 1);
  }

  lemma BarredAt(states: seq<Sys>, events: seq<Event>, n: nat, mac: string, ip: Addr, until: int)
    requires Behaviour(states, events) && n < |events| && !events[n].Crash? && !events[n].Start?
    requires states[n].up && Barred(states[n].mem, mac, ip, until)
    requires states[n].clock <= until < states[n].clock + QUARANTINE_FOR
    requires !(mac in states[n + 1].mem.reserved && states[n + 1].mem.reserved[mac] == ip)
    ensures states[n + 1].up && Barred(states[n + 1].mem, mac, ip, until)
  {
    InvHolds(states, events, n);
    assert StepAt(states, events, n);
    StepKeepsBarred(states[n], events[n], states[n + 1], mac, ip, until);
  }

  lemma {:induction false} StaysBarred(states: seq<Sys>, events: seq<Event>, from: nat, to: nat, mac: string, ip: Addr,
                                       until: int)
    requires Behaviour(states, events) && from <= to < |states| && Undisturbed(states, events, from, to, mac, ip)
    requires states[from].up && Barred(states[from].mem, mac, ip, until)
      && states[to].clock <= until < states[from].clock + QUARANTINE_FOR
    ensures states[to].up && Barred(states[to].mem, mac, ip, until)
  {
    if from < to {
      ClockAt(states, events, from, to);
      Shorter(states, events, from, to, mac, ip);
      StaysBarred(states, events, from, to - 1, mac, ip, until);
      BarredAt(states, events, to - 1, mac, ip, until);
    }
  }

  // From the moment the handler lets go of an address that answered its probe, no DISCOVER
  // or REQUEST of that client, nor the handler's own second try, is answered with it while
  // it is set aside, unless the address is reserved to the client.
  lemma ProbedAddressIsNotOffered(states: seq<Sys>, events: seq<Event>, from: nat, i: nat)
    requires Behaviour(states, events) && from < i < |events| && events[from].Dropping?
      && events[from].probe < |states[from].probes|
    requires var p := states[from].probes[events[from].probe];
      && Undisturbed(states, events, from, i, p.mac, p.ip)
      && p.ip in states[from].mem.quarantine && states[from].mem.quarantine[p.ip] > states[i].clock
      && (events[i].Packet? || events[i].OfferingAgain?) && Hearer(states[i], events[i]) == p.mac && p.ip != NoAddr
    ensures Told(states[i], events[i]) != states[from].probes[events[from].probe].ip
  {
    var p := states[from].probes[events[from].probe];
    var until := states[i].clock;
    BoundHolds(states, events, from);
    ClockOrder(states, events, from, from + 1);
    InvHolds(states, events, from);
    assert StepAt(states, events, from);
    assert Barred(states[from + 1].mem, p.mac, p.ip, until);
    StaysBarred(states, events, from + 1, i, p.mac, p.ip, until);
    InvHolds(states, events, i);
    assert StepAt(states, events, i);
    var s := states[i];
    match events[i]
    case Packet(m) =>
      if m.kind == Discover {
        BarredGrant(s.cfg, s.mem, p.mac, p.ip, until, m.mac, "", Unmap(m.requested), OFFER_HOLD, true, s.clock);
      } else if m.kind == Request {
        BarredGrant(s.cfg, s.mem, p.mac, p.ip, until, m.mac, m.hostname, Unmap(m.requested), s.cfg.leaseTime, false,
                    s.clock);
      }
    case OfferingAgain(k) =>
      BarredGrant(s.cfg, s.mem, p.mac, p.ip, until, p.mac, "", NoAddr, OFFER_HOLD, true, s.clock);
  }
}
