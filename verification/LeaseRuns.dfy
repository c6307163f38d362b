/** Whole runs of the lease server: packets whose handlers wait on probes and store
    writes while others run, a clock, listener rebuilds, and crashes anywhere. */
module LeaseRuns {
  import opened Net
  import opened Allocation
  import opened AllocationFacts
  import opened LeaseStore
  import opened DhcpServer
  import Reserve

  // ----- one REQUEST -----

  ghost predicate PoolInSubnet(cfg: Config) {
    Contains(cfg.subnet, cfg.start) && Contains(cfg.subnet, cfg.end)
  }

  ghost predicate ReservationsInSubnet(cfg: Config, s: State) {
    forall m :: m in s.reserved ==> Contains(cfg.subnet, s.reserved[m])
  }

  lemma RangeIsInSubnet(cfg: Config, ip: Addr)
    requires PoolInSubnet(cfg) && InRange(cfg, ip)
    ensures Contains(cfg.subnet, ip)
  {
    ContainsBetween(cfg.subnet, cfg.start.v4, ip.v4, cfg.end.v4);
  }

  // A REQUEST naming an address is acknowledged with exactly that address or
  // refused, and whatever is acknowledged lies in the subnet, is recorded for this
  // client, and is nobody else's live lease unless the client reserved it.
  lemma AckIsExact(cfg: Config, s: State, m: Message, now: int)
    requires Inverse(s) && SoundReservations(s) && PoolInSubnet(cfg) && ReservationsInSubnet(cfg, s)
    requires Acking(cfg, s, m, now).granted.Some?
    ensures var v := Acking(cfg, s, m, now);
      var l := v.granted.value;
      && (AskedFor(m) != NoAddr ==> l.ip == AskedFor(m))
      && Contains(cfg.subnet, l.ip) && !Protected(cfg, l.ip)
      && l.mac == m.mac && m.mac in v.state.byMAC && v.state.byMAC[m.mac] == l
      && (HeldByAnother(s, l.ip, m.mac, now) ==> OwnReservation(cfg, s, m.mac, l.ip))
  {
    AllocateCommits(cfg, s, m.mac, m.hostname, Unmap(m.requested), cfg.leaseTime, now);
    GrantIsSafe(cfg, s, m.mac, m.hostname, Unmap(m.requested), cfg.leaseTime, false, now);
    var l := Acking(cfg, s, m, now).granted.value;
    if InRange(cfg, l.ip) { RangeIsInSubnet(cfg, l.ip); }
  }

  // The service list feeds the allocator exactly what its rules need.
  lemma ReservationsFeedTheRules(text: Reserve.Text, svcs: seq<Reserve.Service>, cfg: Config, s: State)
    requires s.reserved == Reserve.Reserved(text, cfg.subnet, svcs) && InversePick(s.reserved, s.reservedIP)
    ensures SoundReservations(s) && ReservationsInSubnet(cfg, s)
  {
    forall m | m in s.reserved ensures m != "" && Contains(cfg.subnet, s.reserved[m]) {
      Reserve.ReservedIsSound(text, cfg.subnet, svcs, m);
    }
    forall m, n | m in s.reserved && n in s.reserved && s.reserved[m] == s.reserved[n] ensures m == n {
      Reserve.ReservedIsOneToOne(text, cfg.subnet, svcs, m, n);
    }
  }

  // ----- the machine -----

  datatype Pending = PutRow(mac: string, row: Row) | DeleteRow(mac: string)

  // How far the handler of a DISCOVER has come whose address was new to the client:
  // the probe out, answered as in use, the address set aside, the hold dropped.
  datatype Stage = Probing | Hit | SetAside | Gone

  datatype Probe = Probe(mac: string, ip: Addr, stage: Stage)

  // up says whether a listener is running; pending holds the store writes and probes the
  // OFFERs that handlers in flight still have to finish; log is what has reached the table.
  datatype Sys = Sys(cfg: Config, up: bool, mem: State, rows: Rows, pending: seq<Pending>, probes: seq<Probe>,
                     clock: int, log: seq<Write>)

  datatype Event =
    | Tick(now: int)
    | Packet(m: Message)
    | Answered(probe: nat, inUse: bool)
    | SettingAside(probe: nat)
    | Dropping(probe: nat)
    | OfferingAgain(probe: nat)
    | Refresh(r: map<string, Addr>, pick: map<Addr, string>)
    | Persist(i: nat, commits: bool)
    | Crash
    | Start(cfg: Config, r: map<string, Addr>, pick: map<Addr, string>)

  // The hold a DISCOVER takes, and the one it takes again after a probe that was answered.
  function HoldFor(s: Sys, m: Message): Outcome {
    Grant(s.cfg, s.mem, m.mac, "", Unmap(m.requested), OFFER_HOLD, true, s.clock)
  }

  function HoldAgain(s: Sys, mac: string): Outcome {
    Grant(s.cfg, s.mem, mac, "", NoAddr, OFFER_HOLD, true, s.clock)
  }

  // What handling a message does to memory before its handler waits for anything.
  function Remember(s: Sys, m: Message): State {
    match m.kind
    case Discover => HoldFor(s, m).state
    case Request => Acking(s.cfg, s.mem, m, s.clock).state
    case ReleaseMsg => if Releases(s.mem, m, s.cfg.host) then Released(s.mem, m.mac, Unmap(m.client)) else s.mem
    case DeclineMsg => if !Declines(s.mem, m) then s.mem else Declined(s.cfg, s.mem, m.mac, Unmap(m.requested), s.clock)
    case _ => s.mem
  }

  // The store write the handler goes on to make.
  function ToPersist(s: Sys, m: Message): seq<Pending> {
    match m.kind
    case Request =>
      var v := Acking(s.cfg, s.mem, m, s.clock);
      if v.granted.Some? then [PutRow(m.mac, RowOf(v.granted.value, s.clock))] else []
    case ReleaseMsg => if Releases(s.mem, m, s.cfg.host) then [DeleteRow(m.mac)] else []
    case DeclineMsg => if Declines(s.mem, m) then [DeleteRow(m.mac)] else []
    case _ => []
  }

  // The probe it waits for.
  function ToProbe(s: Sys, m: Message): seq<Probe> {
    var o := HoldFor(s, m);
    if m.kind == Discover && o.ok && o.isNew then [Probe(m.mac, o.lease.ip, Probing)] else []
  }

  function WriteOf(p: Pending): Write {
    match p
    case PutRow(mac, row) => Acked(mac, row)
    case DeleteRow(mac) => Dropped(mac)
  }

  ghost predicate SoundTable(r: map<string, Addr>, pick: map<Addr, string>) {
    SoundReservations(EMPTY.(reserved := r, reservedIP := pick))
  }

  ghost predicate Init(s: Sys) {
    !s.up && s.rows == map[] && s.pending == [] && s.probes == [] && s.log == []
  }

  predicate At(s: Sys, i: nat, stage: Stage) { s.up && i < |s.probes| && s.probes[i].stage == stage }

  function Without<T>(s: seq<T>, i: nat): seq<T>
    requires i < |s|
  {
    s[..i] + s[i + 1..]
  }

  function Moved(s: Sys, i: nat, stage: Stage): seq<Probe>
    requires i < |s.probes|
  {
    s.probes[i := s.probes[i].(stage := stage)]
  }

  ghost predicate Steps(s: Sys, e: Event, t: Sys) {
    match e
    case Tick(now) => s.clock <= now && t == s.(clock := now)
    case Packet(m) =>
      && s.up && m.mac != ""
      && t == s.(mem := Remember(s, m), pending := s.pending + ToPersist(s, m), probes := s.probes + ToProbe(s, m))
    case Answered(i, inUse) =>
      At(s, i, Probing) && t == s.(probes := if inUse then Moved(s, i, Hit) else Without(s.probes, i))
    case SettingAside(i) =>
      At(s, i, Hit) && t == s.(mem := Quarantined(s.mem, s.probes[i].ip, s.clock), probes := Moved(s, i, SetAside))
    case Dropping(i) =>
      At(s, i, SetAside)
        && t == s.(mem := Released(s.mem, s.probes[i].mac, s.probes[i].ip), probes := Moved(s, i, Gone))
    case OfferingAgain(i) =>
      At(s, i, Gone) && t == s.(mem := HoldAgain(s, s.probes[i].mac).state, probes := Without(s.probes, i))
    case Refresh(r, pick) =>
      s.up && SoundTable(r, pick) && t == s.(mem := s.mem.(reserved := r, reservedIP := pick))
    case Persist(i, commits) =>
      && i < |s.pending|
      && t.pending == Without(s.pending, i)
      && t.rows == (if commits then Apply(s.rows, WriteOf(s.pending[i])) else s.rows)
      && t.log == (if commits then s.log + [WriteOf(s.pending[i])] else s.log)
      && t == s.(pending := t.pending, rows := t.rows, log := t.log)
    case Crash => t == s.(up := false, pending := [], probes := [])
    case Start(cfg, r, pick) =>
      // Boot after a crash, or a rebuilt listener with old store writes still to come.
      && SoundTable(r, pick) && t.up && t.cfg == cfg && t.clock == s.clock && t.pending == s.pending && t.probes == []
      && t.rows == Prune(s.rows, s.clock) && t.log == s.log + [Pruned(s.clock)]
      && Restores(t.mem, t.rows) && t.mem.reserved == r && t.mem.reservedIP == pick && t.mem.quarantine == map[]
  }

  ghost predicate Behaviour(states: seq<Sys>, events: seq<Event>) {
    && |states| == |events| + 1 && Init(states[0])
    && forall i :: 0 <= i < |events| ==> StepAt(states, events, i)
  }

  ghost predicate StepAt(states: seq<Sys>, events: seq<Event>, i: nat)
    requires |states| == |events| + 1 && i < |events|
  {
    Steps(states[i], events[i], states[i + 1])
  }

  ghost predicate Inv(s: Sys) {
    && s.rows == After(s.log) && LeaseStore.OneToOne(s.rows)
    && (s.up ==> Inverse(s.mem) && SoundReservations(s.mem))
  }

  lemma GrantKeepsReservations(cfg: Config, s: State, mac: string, asked: string, requested: Addr, ttl: int,
                               tentative: bool, now: int)
    ensures var after := Grant(cfg, s, mac, asked, requested, ttl, tentative, now).state;
      after.reserved == s.reserved && after.reservedIP == s.reservedIP
  {
  }

  // Memory after a step within one listener's life keeps its invariants.
  ghost predicate MemoryInv(m: State) { Inverse(m) && SoundReservations(m) }

  lemma GrantKeepsMemory(cfg: Config, s: State, mac: string, asked: string, requested: Addr, ttl: int, tentative: bool,
                         now: int)
    requires MemoryInv(s)
    ensures MemoryInv(Grant(cfg, s, mac, asked, requested, ttl, tentative, now).state)
  {
    GrantKeepsInverse(cfg, s, mac, asked, requested, ttl, tentative, now);
    GrantKeepsReservations(cfg, s, mac, asked, requested, ttl, tentative, now);
  }

  lemma RememberKeepsMemory(s: Sys, m: Message)
    requires MemoryInv(s.mem)
    ensures MemoryInv(Remember(s, m))
  {
    match m.kind
    case Discover => GrantKeepsMemory(s.cfg, s.mem, m.mac, "", Unmap(m.requested), OFFER_HOLD, true, s.clock);
    case Request =>
      GrantKeepsMemory(s.cfg, s.mem, m.mac, m.hostname, Unmap(m.requested), s.cfg.leaseTime, false, s.clock);
    case _ =>
  }

  lemma ProbeKeepsMemory(s: Sys, e: Event, t: Sys)
    requires (e.SettingAside? || e.Dropping? || e.OfferingAgain?) && MemoryInv(s.mem) && Steps(s, e, t)
    ensures MemoryInv(t.mem)
  {
    if e.OfferingAgain? {
      GrantKeepsMemory(s.cfg, s.mem, s.probes[e.probe].mac, "", NoAddr, OFFER_HOLD, true, s.clock);
    } else if e.Dropping? {
      ReleaseKeepsMemory(s.mem, s.probes[e.probe].mac, s.probes[e.probe].ip);
    }
  }

  lemma ReleaseKeepsMemory(s: State, mac: string, ip: Addr)
    requires MemoryInv(s)
    ensures MemoryInv(Released(s, mac, ip))
  {
  }

  lemma LogGrows(log: seq<Write>, w: Write)
    ensures After(log + [w]) == Apply(After(log), w)
  {
    assert (log + [w])[..|log|] == log;
  }

  lemma StepKeepsInv(s: Sys, e: Event, t: Sys)
    requires Inv(s) && Steps(s, e, t)
    ensures Inv(t)
  {
    match e
    case Packet(m) => RememberKeepsMemory(s, m);
    case SettingAside(_) => ProbeKeepsMemory(s, e, t);
    case Dropping(_) => ProbeKeepsMemory(s, e, t);
    case OfferingAgain(_) => ProbeKeepsMemory(s, e, t);
    case Persist(i, commits) =>
      LogGrows(s.log, WriteOf(s.pending[i]));
      TableStaysOneToOne(t.log);
    case Start(cfg, r, pick) =>
      LogGrows(s.log, Pruned(s.clock));
      TableStaysOneToOne(t.log);
    case _ =>
  }

  lemma {:induction false} InvHolds(states: seq<Sys>, events: seq<Event>, i: nat)
    requires Behaviour(states, events) && i < |states|
    ensures Inv(states[i])
  {
    if i > 0 {
      InvHolds(states, events, i - 1);
      assert StepAt(states, events, i - 1);
      StepKeepsInv(states[i - 1], events[i - 1], states[i]);
    }
  }

  lemma ClockRises(s: Sys, e: Event, t: Sys)
    requires Steps(s, e, t)
    ensures s.clock <= t.clock
  {
  }

  lemma {:induction false} ClockOrder(states: seq<Sys>, events: seq<Event>, i: nat, j: nat)
    requires Behaviour(states, events) && i <= j < |states|
    ensures states[i].clock <= states[j].clock
  {
    if i < j {
      ClockOrder(states, events, i, j - 1);
      assert StepAt(states, events, j - 1);
      ClockRises(states[j - 1], events[j - 1], states[j]);
    }
  }

  // Whenever a listener starts, whatever was lost before it, a client holds a lease
  // exactly when its last persisted acknowledgement still stands and has not run out.
  lemma RestartRestoresTheLedger(states: seq<Sys>, events: seq<Event>, i: nat, mac: string, row: Row)
    requires Behaviour(states, events) && i < |events| && events[i].Start?
    ensures var s, t := states[i], states[i + 1];
      (mac in t.mem.byMAC && mac in t.rows && t.rows[mac] == row) <==>
        row.expiresAt > s.clock && exists j :: Stands(s.log, j, mac, row)
    ensures var t := states[i + 1];
      mac in t.mem.byMAC ==>
        mac in t.rows && t.mem.byMAC[mac] == Lease(mac, t.rows[mac].ip, t.rows[mac].hostname, t.rows[mac].expiresAt)
  {
    InvHolds(states, events, i);
    assert StepAt(states, events, i);
    TableIsTheLedger(states[i].log, mac, row);
  }
}
