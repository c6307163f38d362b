/** What a client holding a lease can count on while packets, probes and store writes
    overlap, and the one thing that takes the lease from it. */
module LeaseGuards {
  import opened Wrappers
  import opened Net
  import opened Allocation
  import opened AllocationFacts
  import opened LeaseStore
  import opened DhcpServer
  import opened LeaseRuns

  ghost predicate Keeps(s: Sys, l: Lease) {
    && s.up && l.mac in s.mem.byMAC
    && s.mem.byMAC[l.mac].ip == l.ip && s.mem.byMAC[l.mac].hostname == l.hostname
    && s.mem.byMAC[l.mac].expires >= l.expires
  }

  // A lease the server may have given, which has not run out yet.
  predicate Running(s: Sys, l: Lease) { s.clock < l.expires && !Protected(s.cfg, l.ip) && l.ip != NoAddr }

  // Everything but the client's own REQUEST, RELEASE or DECLINE, a REQUEST of a client
  // that has the address reserved, and the listener going away.
  ghost predicate Respects(s: Sys, e: Event, l: Lease) {
    match e
    case Packet(m) =>
      && (m.mac == l.mac ==> m.kind == Discover || m.kind == Inform || m.kind == Other)
      && !(m.mac != l.mac && m.kind == Request && m.mac in s.mem.reserved && s.mem.reserved[m.mac] == l.ip)
    case Crash => false
    case Start(_, _, _) => false
    case _ => true
  }

  // A probe of the client's own for the address it now leases.
  predicate Own(p: Probe, l: Lease) { p.mac == l.mac && p.ip == l.ip }

  // The late end of such a probe: the handler gives back what it took for its own hold.
  predicate GivesBack(s: Sys, e: Event, l: Lease) {
    e.Dropping? && e.probe < |s.probes| && Own(s.probes[e.probe], l)
  }

  // Whom a step tells of an address, and which.
  function Told(s: Sys, e: Event): Addr {
    match e
    case Packet(m) =>
      if m.kind == Discover then (var o := HoldFor(s, m); if o.ok && !o.isNew then o.lease.ip else NoAddr)
      else if m.kind == Request then
        (match Acking(s.cfg, s.mem, m, s.clock).granted case Some(g) => g.ip case None => NoAddr)
      else NoAddr
    case Answered(i, inUse) => if !inUse && i < |s.probes| then s.probes[i].ip else NoAddr
    case OfferingAgain(i) =>
      if i < |s.probes| then (var o := HoldAgain(s, s.probes[i].mac); if o.ok then o.lease.ip else NoAddr) else NoAddr
    case _ => NoAddr
  }

  function Hearer(s: Sys, e: Event): string {
    match e
    case Packet(m) => m.mac
    case Answered(i, _) => if i < |s.probes| then s.probes[i].mac else ""
    case OfferingAgain(i) => if i < |s.probes| then s.probes[i].mac else ""
    case _ => ""
  }

  // ----- one grant -----

  lemma HoldLeaves(cfg: Config, s: State, mac: string, requested: Addr, now: int, l: Lease)
    requires MemoryInv(s) && Held(s, l.mac, now) && s.byMAC[l.mac].ip == l.ip && !Protected(cfg, l.ip)
    ensures var o := Grant(cfg, s, mac, "", requested, OFFER_HOLD, true, now);
      && l.mac in o.state.byMAC && o.state.byMAC[l.mac].ip == l.ip
      && o.state.byMAC[l.mac].hostname == s.byMAC[l.mac].hostname
      && o.state.byMAC[l.mac].expires >= s.byMAC[l.mac].expires
      && (mac != l.mac && o.ok ==> o.lease.ip != l.ip)
      && (mac == l.mac && o.ok ==> !o.isNew)
  {
    OfferWeakensExactly(cfg, s, mac, requested, OFFER_HOLD, now, l.mac);
    if mac != l.mac && Grant(cfg, s, mac, "", requested, OFFER_HOLD, true, now).ok {
      GrantIsSafe(cfg, s, mac, "", requested, OFFER_HOLD, true, now);
    }
  }

  lemma LeaseLeaves(cfg: Config, s: State, mac: string, asked: string, requested: Addr, ttl: int, now: int, l: Lease)
    requires MemoryInv(s) && Held(s, l.mac, now) && s.byMAC[l.mac].ip == l.ip && mac != l.mac
    requires !(mac in s.reserved && s.reserved[mac] == l.ip)
    ensures var o := Grant(cfg, s, mac, asked, requested, ttl, false, now);
      l.mac in o.state.byMAC && o.state.byMAC[l.mac] == s.byMAC[l.mac] && (o.ok ==> o.lease.ip != l.ip)
  {
    if Grant(cfg, s, mac, asked, requested, ttl, false, now).ok {
      GrantIsSafe(cfg, s, mac, asked, requested, ttl, false, now);
      AllocateCommits(cfg, s, mac, asked, requested, ttl, now);
    }
  }

  // ----- one step -----

  lemma PacketGuards(s: Sys, e: Event, t: Sys, l: Lease)
    requires e.Packet? && Inv(s) && Steps(s, e, t) && Keeps(s, l) && Running(s, l) && Respects(s, e, l)
    ensures Keeps(t, l) && (e.m.mac != l.mac ==> Told(s, e) != l.ip)
    ensures e.m.mac == l.mac ==> t.probes == s.probes
  {
    var m := e.m;
    if m.kind == Discover {
      HoldLeaves(s.cfg, s.mem, m.mac, Unmap(m.requested), s.clock, l);
    } else if m.kind == Request {
      LeaseLeaves(s.cfg, s.mem, m.mac, m.hostname, Unmap(m.requested), s.cfg.leaseTime, s.clock, l);
    }
  }

  lemma ProbeGuards(s: Sys, e: Event, t: Sys, l: Lease)
    requires (e.SettingAside? || e.Dropping? || e.OfferingAgain?) && Inv(s) && Steps(s, e, t) && Keeps(s, l)
      && Running(s, l)
    ensures Keeps(t, l) <==> !GivesBack(s, e, l)
    ensures Hearer(s, e) != l.mac ==> Told(s, e) != l.ip
  {
    if e.OfferingAgain? { HoldLeaves(s.cfg, s.mem, s.probes[e.probe].mac, NoAddr, s.clock, l); }
  }

  // One step of anything that respects the lease takes it from the client exactly when it
  // is the late end of a probe of the client's own for that address.
  lemma StepLosesExactly(s: Sys, e: Event, t: Sys, l: Lease)
    requires Inv(s) && Steps(s, e, t) && Keeps(s, l) && Running(s, l) && Respects(s, e, l)
    ensures Keeps(t, l) <==> !GivesBack(s, e, l)
    ensures t.cfg == s.cfg
  {
    if e.Packet? {
      PacketGuards(s, e, t, l);
    } else if e.SettingAside? || e.Dropping? || e.OfferingAgain? {
      ProbeGuards(s, e, t, l);
    }
  }

  // And it tells another client to use the address exactly when it ends, unanswered, a
  // probe of that client's for it.
  lemma StepTellsExactly(s: Sys, e: Event, t: Sys, l: Lease)
    requires Inv(s) && Steps(s, e, t) && Keeps(s, l) && Running(s, l) && Respects(s, e, l) && Hearer(s, e) != l.mac
    ensures Told(s, e) == l.ip <==> e.Answered? && !e.inUse && s.probes[e.probe].ip == l.ip
  {
    if e.Packet? {
      PacketGuards(s, e, t, l);
    } else if e.SettingAside? || e.Dropping? || e.OfferingAgain? {
      ProbeGuards(s, e, t, l);
    }
  }

  // ----- a whole run -----

  ghost predicate RespectsAll(states: seq<Sys>, events: seq<Event>, from: nat, to: nat, l: Lease)
    requires |states| == |events| + 1 && from <= to < |states|
  {
    forall i :: from <= i < to ==> Respects(states[i], events[i], l)
  }

  // Between two moments, with packets, probes and writes overlapping in any way, a client
  // keeps its lease throughout if and only if no probe of its own for that address, begun
  // before the lease, comes to its late end.
  lemma {:induction false} LeaseIsLostExactly(states: seq<Sys>, events: seq<Event>, from: nat, to: nat, l: Lease)
    requires Behaviour(states, events) && from <= to < |states| && RespectsAll(states, events, from, to, l)
    requires Keeps(states[from], l) && Running(states[from], l) && states[to].clock < l.expires
    ensures (forall k :: from <= k <= to ==> Keeps(states[k], l) && states[k].cfg == states[from].cfg) <==>
      (forall i :: from <= i < to ==> !GivesBack(states[i], events[i], l))
  {
    if from < to {
      var n := to - 1;
      ClockOrder(states, events, n, to);
      LeaseIsLostExactly(states, events, from, n, l);
      InvHolds(states, events, n);
      assert StepAt(states, events, n);
      if forall k :: from <= k <= n ==> Keeps(states[k], l) && states[k].cfg == states[from].cfg {
        StepLosesExactly(states[n], events[n], states[to], l);
      }
    }
  }

  // Probes of the client's own that could still cost it the lease.
  ghost predicate Spared(s: Sys, l: Lease) {
    forall i :: 0 <= i < |s.probes| && Own(s.probes[i], l) ==> s.probes[i].stage == Probing || s.probes[i].stage == Gone
  }

  predicate AnswersOwn(s: Sys, e: Event, l: Lease) {
    e.Answered? && e.inUse && e.probe < |s.probes| && Own(s.probes[e.probe], l)
  }

  lemma StepSpares(s: Sys, e: Event, t: Sys, l: Lease)
    requires Inv(s) && Steps(s, e, t) && Keeps(s, l) && Running(s, l) && Respects(s, e, l) && Spared(s, l)
    requires !AnswersOwn(s, e, l)
    ensures Spared(t, l) && !GivesBack(s, e, l)
  {
    if e.Packet? {
      PacketGuards(s, e, t, l);
      assert forall i :: 0 <= i < |s.probes| ==> t.probes[i] == s.probes[i];
    } else if e.Answered? || e.OfferingAgain? {
      assert forall i :: 0 <= i < |t.probes| ==> t.probes[i] in s.probes || t.probes[i].stage == Hit;
    }
  }

  // From any moment a client holds a lease until it runs out it keeps address and name,
  // whatever other clients send and however probes and store writes fall, if no probe of
  // its own for that address was in flight then, or each that was is answered "not in use".
  lemma {:induction false} LiveLeaseIsGuarded(states: seq<Sys>, events: seq<Event>, from: nat, to: nat, l: Lease)
    requires Behaviour(states, events) && from <= to < |states| && RespectsAll(states, events, from, to, l)
    requires Keeps(states[from], l) && Running(states[from], l) && states[to].clock < l.expires
    requires Spared(states[from], l) && forall i :: from <= i < to ==> !AnswersOwn(states[i], events[i], l)
    ensures Keeps(states[to], l) && Spared(states[to], l) && states[to].cfg == states[from].cfg
  {
    if from < to {
      var n := to - 1;
      ClockOrder(states, events, n, to);
      LiveLeaseIsGuarded(states, events, from, n, l);
      InvHolds(states, events, n);
      assert StepAt(states, events, n);
      StepSpares(states[n], events[n], states[to], l);
      StepLosesExactly(states[n], events[n], states[to], l);
    }
  }

  // No probe of another client's for the address is out.
  ghost predicate Unprobed(s: Sys, l: Lease) {
    forall i :: 0 <= i < |s.probes| && s.probes[i].mac != l.mac && s.probes[i].ip == l.ip ==>
      s.probes[i].stage != Probing
  }

  lemma StepStaysUnprobed(s: Sys, e: Event, t: Sys, l: Lease)
    requires Inv(s) && Steps(s, e, t) && Keeps(s, l) && Running(s, l) && Respects(s, e, l) && Unprobed(s, l)
    ensures Unprobed(t, l)
  {
    if e.Packet? {
      if e.m.kind == Discover { HoldLeaves(s.cfg, s.mem, e.m.mac, Unmap(e.m.requested), s.clock, l); }
      assert forall i :: 0 <= i < |s.probes| ==> t.probes[i] == s.probes[i];
    } else if e.Answered? || e.OfferingAgain? {
      assert forall i :: 0 <= i < |t.probes| ==> t.probes[i] in s.probes || t.probes[i].stage == Hit;
    }
  }

  lemma {:induction false} StaysUnprobed(states: seq<Sys>, events: seq<Event>, from: nat, to: nat, l: Lease)
    requires Behaviour(states, events) && from <= to < |states| && RespectsAll(states, events, from, to, l)
    requires Keeps(states[from], l) && Running(states[from], l) && states[to].clock < l.expires
    requires forall k :: from <= k <= to ==> Keeps(states[k], l) && states[k].cfg == states[from].cfg
    requires Unprobed(states[from], l)
    ensures Unprobed(states[to], l)
  {
    if from < to {
      var n := to - 1;
      ClockOrder(states, events, n, to);
      StaysUnprobed(states, events, from, n, l);
      InvHolds(states, events, n);
      assert StepAt(states, events, n);
      StepStaysUnprobed(states[n], events[n], states[to], l);
    }
  }

  // While the client keeps it, nobody else without a REQUEST for a reservation on it is
  // told to use its address, if no probe of theirs for it was out when the lease began.
  lemma NobodyElseIsToldToUseIt(states: seq<Sys>, events: seq<Event>, from: nat, i: nat, l: Lease)
    requires Behaviour(states, events) && from <= i < |events| && RespectsAll(states, events, from, i + 1, l)
    requires Keeps(states[from], l) && Running(states[from], l) && states[i].clock < l.expires
    requires forall k :: from <= k <= i ==> Keeps(states[k], l) && states[k].cfg == states[from].cfg
    requires Unprobed(states[from], l) && Hearer(states[i], events[i]) != l.mac
    ensures Told(states[i], events[i]) != l.ip
  {
    InvHolds(states, events, i);
    assert StepAt(states, events, i);
    StaysUnprobed(states, events, from, i, l);
    StepTellsExactly(states[i], events[i], states[i + 1], l);
  }

  // ----- across a restart -----

  // No probe at all is out for the address.
  ghost predicate Untouched(s: Sys, l: Lease) { forall i :: 0 <= i < |s.probes| ==> s.probes[i].ip != l.ip }

  lemma StepStaysUntouched(s: Sys, e: Event, t: Sys, l: Lease)
    requires Inv(s) && Steps(s, e, t) && Keeps(s, l) && Running(s, l) && Respects(s, e, l) && Untouched(s, l)
    ensures Untouched(t, l) && !GivesBack(s, e, l)
  {
    if e.Packet? {
      if e.m.kind == Discover { HoldLeaves(s.cfg, s.mem, e.m.mac, Unmap(e.m.requested), s.clock, l); }
      assert forall i :: 0 <= i < |s.probes| ==> t.probes[i] == s.probes[i];
    } else if e.Answered? || e.OfferingAgain? {
      assert forall i :: 0 <= i < |t.probes| ==>
        t.probes[i].ip == s.probes[i].ip || (i + 1 < |s.probes| && t.probes[i] == s.probes[i + 1]);
    }
  }

  lemma {:induction false} UntouchedIsKept(states: seq<Sys>, events: seq<Event>, from: nat, to: nat, l: Lease)
    requires Behaviour(states, events) && from <= to < |states| && RespectsAll(states, events, from, to, l)
    requires Keeps(states[from], l) && Running(states[from], l) && states[to].clock < l.expires
    requires Untouched(states[from], l)
    ensures Keeps(states[to], l) && Untouched(states[to], l) && states[to].cfg == states[from].cfg
  {
    if from < to {
      var n := to - 1;
      ClockOrder(states, events, n, to);
      UntouchedIsKept(states, events, from, n, l);
      InvHolds(states, events, n);
      assert StepAt(states, events, n);
      StepStaysUntouched(states[n], events[n], states[to], l);
      StepLosesExactly(states[n], events[n], states[to], l);
    }
  }

  // What a client was told holds across a restart. Whatever was lost with the listener, an
  // acknowledgement that reached the table, still stands and has not run out is held again
  // by the next one, with its address and name, until it runs out; and meanwhile nobody
  // else, but a client with a reservation on it, is told to use the address.
  lemma AcknowledgementOutlivesRestart(states: seq<Sys>, events: seq<Event>, start: nat, i: nat, j: nat, mac: string,
                                       row: Row)
    requires Behaviour(states, events) && start < i < |events| && events[start].Start?
    requires Stands(states[start].log, j, mac, row) && row.ip != NoAddr && !Protected(states[start + 1].cfg, row.ip)
    requires states[i].clock < row.expiresAt && RespectsAll(states, events, start + 1, i + 1, LeaseOf(mac, row))
    ensures Keeps(states[i], LeaseOf(mac, row))
    ensures Hearer(states[i], events[i]) != mac ==> Told(states[i], events[i]) != row.ip
  {
    var l, from := LeaseOf(mac, row), start + 1;
    ClockOrder(states, events, start, from);
    ClockOrder(states, events, from, i);
    assert StepAt(states, events, start);
    RestartRestoresTheLedger(states, events, start, mac, row);
    UntouchedIsKept(states, events, from, i, l);
    InvHolds(states, events, i);
    assert StepAt(states, events, i);
    StepTellsIfUntouched(states[i], events[i], states[i + 1], l);
  }

  lemma StepTellsIfUntouched(s: Sys, e: Event, t: Sys, l: Lease)
    requires Inv(s) && Steps(s, e, t) && Keeps(s, l) && Running(s, l) && Respects(s, e, l) && Untouched(s, l)
    ensures Hearer(s, e) != l.mac ==> Told(s, e) != l.ip
  {
    if Hearer(s, e) != l.mac { StepTellsExactly(s, e, t, l); }
  }

  // ----- how a lease is lost -----

  const POOL := Config(Prefix(V4(0), 30), V4(1), V4(2), V4(8), V4(9), 3600)
  const HELD_A := Lease("a", V4(1), "", 60)
  const LEASED_A := Lease("a", V4(1), "h", 3600)
  const LEASED_B := Lease("b", V4(1), "g", 4300)
  const ASIDE := map[V4(1) := 600]

  function Only(l: Lease, quarantine: map<Addr, int>): State {
    EMPTY.(byMAC := map[l.mac := l], byIP := map[l.ip := l.mac], quarantine := quarantine)
  }

  function Asks(kind: Kind, mac: string, hostname: string): Message {
    Message(kind, mac, 0, hostname, V4(1), NoAddr, NoAddr)
  }

  lemma FirstHold()
    ensures Grant(POOL, EMPTY, "a", "", V4(1), OFFER_HOLD, true, 0) == Outcome(Only(HELD_A, map[]), HELD_A, true, true)
  {
    assert Free(POOL, EMPTY, V4(1), "a", 0);
  }

  lemma FirstLease()
    ensures Acking(POOL, Only(HELD_A, map[]), Asks(Request, "a", "h"), 0) ==
      Verdict(Only(LEASED_A, map[]), Some(LEASED_A))
  {
    assert Pow2(2) == 4;
    assert Renewable(POOL, Only(HELD_A, map[]), "a");
  }

  lemma LateEnd()
    ensures Quarantined(Only(LEASED_A, map[]), V4(1), 0) == Only(LEASED_A, ASIDE)
    ensures Released(Only(LEASED_A, ASIDE), "a", V4(1)) == EMPTY.(quarantine := ASIDE)
  {
  }

  lemma SecondLease()
    ensures Acking(POOL, EMPTY.(quarantine := ASIDE), Asks(Request, "b", "g"), 700) ==
      Verdict(Only(LEASED_B, ASIDE), Some(LEASED_B))
  {
    assert Pow2(2) == 4;
    assert Free(POOL, EMPTY.(quarantine := ASIDE), V4(1), "b", 700);
  }

  // The run: a DISCOVER of client a's is probing, its REQUEST is acknowledged meanwhile,
  // the probe is answered, and ten minutes later b is acknowledged the same address while
  // a's lease still has most of an hour to run.
  function LosingRun(): (seq<Sys>, seq<Event>) {
    var s0 := Sys(POOL, false, EMPTY, map[], [], [], 0, []);
    var s1 := s0.(up := true, log := [Pruned(0)]);
    var s2 := s1.(mem := Only(HELD_A, map[]), probes := [Probe("a", V4(1), Probing)]);
    var s3 := s2.(mem := Only(LEASED_A, map[]), pending := [PutRow("a", RowOf(LEASED_A, 0))]);
    var s4 := s3.(probes := [Probe("a", V4(1), Hit)]);
    var s5 := s4.(mem := Only(LEASED_A, ASIDE), probes := [Probe("a", V4(1), SetAside)]);
    var s6 := s5.(mem := EMPTY.(quarantine := ASIDE), probes := [Probe("a", V4(1), Gone)]);
    var s7 := s6.(clock := 700);
    var s8 := s7.(mem := Only(LEASED_B, ASIDE), pending := s7.pending + [PutRow("b", RowOf(LEASED_B, 700))]);
    ([s0, s1, s2, s3, s4, s5, s6, s7, s8],
     [Start(POOL, map[], map[]), Packet(Asks(Discover, "a", "")), Packet(Asks(Request, "a", "h")), Answered(0, true),
      SettingAside(0), Dropping(0), Tick(700), Packet(Asks(Request, "b", "g"))])
  }

  ghost predicate StepsAt(states: seq<Sys>, events: seq<Event>, i: nat) {
    i < |events| && |states| == |events| + 1 && Steps(states[i], events[i], states[i + 1])
  }

  ghost predicate LosingStep(i: nat) { StepsAt(LosingRun().0, LosingRun().1, i) }

  lemma EightSteps(states: seq<Sys>, events: seq<Event>)
    requires |events| == 8 && |states| == 9 && Init(states[0])
    requires StepsAt(states, events, 0) && StepsAt(states, events, 1) && StepsAt(states, events, 2)
      && StepsAt(states, events, 3)
    requires StepsAt(states, events, 4) && StepsAt(states, events, 5) && StepsAt(states, events, 6)
      && StepsAt(states, events, 7)
    ensures Behaviour(states, events)
  {
    forall i | 0 <= i < 8 ensures StepAt(states, events, i) { assert StepsAt(states, events, i); }
  }

  lemma LosingStart()
    ensures LosingStep(0)
  {
    assert Prune(map[], 0) == map[];
  }

  lemma LosingHold()
    ensures LosingStep(1)
  {
    FirstHold();
  }

  lemma LosingLease()
    ensures LosingStep(2)
  {
    FirstLease();
  }

  lemma LosingProbe()
    ensures LosingStep(3) && LosingStep(4) && LosingStep(5) && LosingStep(6)
  {
    LateEnd();
  }

  lemma LosingEnd()
    ensures LosingStep(7)
  {
    SecondLease();
  }

  ghost predicate LosingRunIsLegal() {
    var (states, events) := LosingRun();
    Behaviour(states, events) && RespectsAll(states, events, 3, 8, LEASED_A)
  }

  lemma LosingRunRespects()
    ensures var (states, events) := LosingRun(); RespectsAll(states, events, 3, 8, LEASED_A)
  {
  }

  lemma LosingRunHappens()
    ensures LosingRunIsLegal()
  {
    LosingStart();
    LosingHold();
    LosingLease();
    LosingProbe();
    LosingEnd();
    EightSteps(LosingRun().0, LosingRun().1);
    LosingRunRespects();
  }

  lemma LosingRunLoses()
    ensures var (states, events) := LosingRun();
      && Keeps(states[3], LEASED_A) && Running(states[3], LEASED_A) && states[8].clock < LEASED_A.expires
      && GivesBack(states[5], events[5], LEASED_A) && !Keeps(states[6], LEASED_A)
  {
  }

  // So the condition is needed: nothing in this run but a's own unfinished probe stands
  // against the lease, and the address is given away under it.
  lemma AcknowledgedLeaseMayBeLost()
    ensures LosingRunIsLegal()
    ensures var (states, events) := LosingRun();
      && Keeps(states[3], LEASED_A) && Running(states[3], LEASED_A) && states[8].clock < LEASED_A.expires
      && GivesBack(states[5], events[5], LEASED_A) && !Keeps(states[6], LEASED_A)
      && Hearer(states[7], events[7]) == "b" && Told(states[7], events[7]) == LEASED_A.ip
  {
    LosingRunHappens();
    LosingRunLoses();
    SecondLease();
  }
}
