/** Who starts and stops the DHCP listener, and how its reservations are refreshed
    without the lock being held across a query. */
module DhcpRunner {
  import opened Wrappers
  import opened Net
  import Names
  import opened Allocation
  import opened Reserve
  import LeaseRuns
  import Roles
  import SettingsRules
  import Tables

  type Settings = Tables.Settings<Tables.Strings>

  type Role = Roles.Role

  datatype Refusal =
    | ReplicaServesNoDHCP
    | UnreadServices
    | NotQualified
    | NotInspected
    | NotAnAddress(field: string)
    | RangeOutsideSubnet
    | ProbeFailed
    | ForeignServer
    | NotBound

  datatype Iface = Iface(subnet: Prefix, addr: Addr)

  datatype Probe = Unanswered | Alone | Found

  // What the host answers while one build runs.
  datatype Host = Host(qualifies: bool, inspected: Option<Iface>, probe: Probe, binds: bool)

  // A listener that is up: its allocator, the subnet reservations resolve against,
  // and what the allocator holds reserved.
  datatype Listener<A> = Listener(alloc: A, subnet: Prefix, reserved: map<string, Addr>)

  datatype Runner<A> = Runner(
    listener: Option<Listener<A>>,
    current: Settings,
    lastError: Option<Refusal>,
    gen: nat,
    problems: seq<Problem>)

  // What a refresh remembers between its two locked sections.
  datatype Ticket<A> = Ticket(gen: nat, alloc: A, subnet: Prefix)

  // ----- which listener the settings ask for -----

  predicate DhcpWanted(v: Settings, role: Role) {
    v.dhcp.enabled && v.dhcp.iface != "" && role != Roles.Replica
  }

  function RoleRefusal(v: Settings, role: Role): Option<Refusal> {
    if v.dhcp.enabled && v.dhcp.iface != "" && role == Roles.Replica then Some(ReplicaServesNoDHCP) else None
  }

  // Would these two settings make the same listener? Of the DHCP columns only the
  // foreign-server override is not built in; of the others only the domain is.
  predicate DhcpConfigEqual(a: Settings, b: Settings) {
    && a.dhcp.enabled == b.dhcp.enabled && a.dhcp.iface == b.dhcp.iface
    && a.dhcp.rangeStart == b.dhcp.rangeStart && a.dhcp.rangeEnd == b.dhcp.rangeEnd && a.dhcp.gateway == b.dhcp.gateway
    && a.dhcp.leaseSeconds == b.dhcp.leaseSeconds && a.dhcp.secondaryDNS == b.dhcp.secondaryDNS
    && a.shared.privateDomain == b.shared.privateDomain
  }

  function WithAllowForeign(v: Settings, allow: bool): Settings { v.(dhcp := v.dhcp.(allowForeign := allow)) }

  function ForeignVerdict(probe: Probe, allow: bool): Option<Refusal> {
    if allow then None
    else match probe
      case Unanswered => Some(ProbeFailed)
      case Alone => None
      case Found => Some(ForeignServer)
  }

  function ParseSetting(text: Text, field: string, value: string): Result<Addr, Refusal> {
    var a := text.parse(Names.TrimSpace(value));
    if a == NoAddr then Err(NotAnAddress(field)) else Ok(a)
  }

  function Build(text: Text, v: Settings, probing: bool, host: Host): Result<Config, Refusal> {
    if !host.qualifies then Err(NotQualified)
    else if host.inspected.None? then Err(NotInspected)
    else
      var info := host.inspected.value;
      var start := ParseSetting(text, "dhcp.range_start", v.dhcp.rangeStart);
      var end := ParseSetting(text, "dhcp.range_end", v.dhcp.rangeEnd);
      var gateway := ParseSetting(text, "dhcp.gateway", v.dhcp.gateway);
      var second := ParseSetting(text, "dhcp.secondary_dns", v.dhcp.secondaryDNS);
      if start.Err? then Err(start.error)
      else if end.Err? then Err(end.error)
      else if gateway.Err? then Err(gateway.error)
      else if !Contains(info.subnet, start.value) || !Contains(info.subnet, end.value) then Err(RangeOutsideSubnet)
      else if probing && ForeignVerdict(host.probe, v.dhcp.allowForeign).Some? then
        Err(ForeignVerdict(host.probe, v.dhcp.allowForeign).value)
      else if Names.TrimSpace(v.dhcp.secondaryDNS) != "" && second.Err? then Err(second.error)
      else Ok(Config(info.subnet, start.value, end.value, info.addr, gateway.value, v.dhcp.leaseSeconds))
  }

  // A listener that could be built serves a pool that lies in its subnet.
  lemma BuiltPoolIsInSubnet(text: Text, v: Settings, probing: bool, host: Host, ip: Addr)
    requires Build(text, v, probing, host).Ok? && InRange(Build(text, v, probing, host).value, ip)
    ensures LeaseRuns.PoolInSubnet(Build(text, v, probing, host).value)
    ensures Contains(Build(text, v, probing, host).value.subnet, ip)
  {
    var cfg := Build(text, v, probing, host).value;
    ContainsBetween(cfg.subnet, cfg.start.v4, ip.v4, cfg.end.v4);
  }

  // For settings the rules accept, the pool such a listener scans holds at most 65536
  // addresses, in order.
  lemma AcceptedPoolIsBounded(x: SettingsRules.Syntax, text: Text, v: Settings, probing: bool, host: Host)
    requires SettingsRules.Stored(x, v) && v.dhcp.enabled && forall s: string :: x.address(s) == text.parse(s)
    requires Build(text, v, probing, host).Ok?
    ensures var cfg := Build(text, v, probing, host).value;
      && cfg.start.V4? && cfg.end.V4? && cfg.start.v4 <= cfg.end.v4
      && cfg.end.v4 - cfg.start.v4 + 1 <= MAX_POOL_SIZE
  {
    SettingsRules.AcceptedPoolIsBounded(x, v);
    assert x.address(Names.TrimSpace(v.dhcp.rangeStart)) == text.parse(Names.TrimSpace(v.dhcp.rangeStart));
    assert x.address(Names.TrimSpace(v.dhcp.rangeEnd)) == text.parse(Names.TrimSpace(v.dhcp.rangeEnd));
  }

  // ----- one reconcile and one refresh, as functions -----

  function Stopped<A>(r: Runner<A>): Runner<A> { r.(listener := None, problems := []) }

  function Failed<A>(r: Runner<A>, v: Settings, why: Refusal): Runner<A> {
    if r.listener.None? then r.(lastError := Some(why), current := v) else r.(lastError := Some(why))
  }

  predicate NeedsProbe<A>(r: Runner<A>, v: Settings) { r.listener.None? || r.current.dhcp.iface != v.dhcp.iface }

  predicate RunsAlready<A>(r: Runner<A>, v: Settings) { r.listener.Some? && DhcpConfigEqual(r.current, v) }

  // svcs is None when the service list could not be read; made is the allocator a
  // successful build brings.
  function Reconciled<A>(r: Runner<A>, text: Text, v: Settings, role: Role, svcs: Option<seq<Service>>, host: Host,
                         made: A): Runner<A> {
    var built := Build(text, v, NeedsProbe(r, v), host);
    if !DhcpWanted(v, role) then Stopped(r).(current := v, lastError := RoleRefusal(v, role))
    else if RunsAlready(r, v) then r.(current := WithAllowForeign(r.current, v.dhcp.allowForeign), lastError := None)
    else if svcs.None? then Failed(r, v, UnreadServices)
    else if built.Err? then Failed(r, v, built.error)
    else if !host.binds then Failed(Stopped(r), v, NotBound)
    else Runner(Some(Listener(made, built.value.subnet, Reserved(text, built.value.subnet, svcs.value))), v, None,
                r.gen, [])
  }

  function Begun<A>(r: Runner<A>): Runner<A> { r.(gen := r.gen + 1) }

  function TicketOf<A>(r: Runner<A>): Option<Ticket<A>> {
    match r.listener
    case None => None
    case Some(l) => Some(Ticket(r.gen, l.alloc, l.subnet))
  }

  predicate IsCurrent<A(==)>(r: Runner<A>, t: Ticket<A>) {
    r.listener.Some? && r.listener.value.alloc == t.alloc && r.gen == t.gen
  }

  function Published<A(==)>(r: Runner<A>, text: Text, t: Ticket<A>, svcs: seq<Service>): Runner<A> {
    if IsCurrent(r, t)
    then r.(listener := Some(r.listener.value.(reserved := Reserved(text, t.subnet, svcs))),
            problems := Problems(text, t.subnet, svcs))
    else r
  }

  // ----- what a reconcile promises -----

  // After a reconcile that wants DHCP there is no reason given exactly when the listener
  // runs these settings; one that does not want it leaves none, as a replica always does.
  lemma ReconcileAccounts<A>(r: Runner<A>, text: Text, v: Settings, role: Role, svcs: Option<seq<Service>>, host: Host,
                             made: A)
    ensures var t := Reconciled(r, text, v, role, svcs, host, made);
      && (DhcpWanted(v, role) ==> (t.lastError.None? <==> RunsAlready(t, v)))
      && (!DhcpWanted(v, role) || role == Roles.Replica ==> t.listener.None? && t.problems == [])
  {
  }

  // A refusal leaves a listener that is serving alone, settings and reservations too;
  // only a listener already replaced can be lost, to a bind that fails.
  lemma RefusalKeepsTheListener<A>(r: Runner<A>, text: Text, v: Settings, role: Role, svcs: Option<seq<Service>>,
                                   host: Host, made: A)
    requires r.listener.Some? && DhcpWanted(v, role) && host.binds
    requires Reconciled(r, text, v, role, svcs, host, made).lastError.Some?
    ensures var t := Reconciled(r, text, v, role, svcs, host, made);
      t == r.(lastError := t.lastError)
  {
  }

  // Reconciling twice with one settings row: the listener the first left is left alone,
  // whatever the host says by then.
  lemma ReconcileIsIdempotent<A>(r: Runner<A>, text: Text, v: Settings, role: Role, svcs: Option<seq<Service>>,
                                 host: Host, made: A,
                                 svcs2: Option<seq<Service>>, host2: Host, made2: A)
    requires Reconciled(r, text, v, role, svcs, host, made).lastError.None? || !DhcpWanted(v, role)
    ensures var t := Reconciled(r, text, v, role, svcs, host, made);
      Reconciled(t, text, v, role, svcs2, host2, made2) == t
  {
  }

  // ----- the runner -----

  class DhcpRunner {
    const text: Text
    var running: bool
    var alloc: Allocator?
    var subnet: Prefix
    var current: Settings
    var lastError: Option<Refusal>
    var gen: nat
    var problems: seq<Problem>

    ghost predicate Valid()
      reads this
    {
      running <==> alloc != null
    }

    ghost function View(): Runner<Allocator?>
      reads this, alloc
    {
      Runner(if alloc == null then None else Some(Listener(alloc, subnet, alloc.reserved)), current, lastError, gen,
             problems)
    }

    constructor (text: Text)
      ensures Valid() && this.text == text && View() == Runner(None, Tables.NO_SETTINGS, None, 0, [])
    {
      this.text := text;
      running, alloc, subnet := false, null, Prefix(NoAddr, 0);
      current, lastError, gen, problems := Tables.NO_SETTINGS, None, 0, [];
    }

    method StopLocked()
      requires Valid()
      modifies this
      ensures Valid() && View() == Stopped(old(View())) && alloc == null
    {
      alloc, subnet, problems := null, Prefix(NoAddr, 0), [];
      running := false;
    }

    method Fail(v: Settings, why: Refusal)
      requires Valid()
      modifies this
      ensures Valid() && View() == Failed(old(View()), v, why) && alloc == old(alloc)
    {
      lastError := Some(why);
      if !running {
        current := v;
      }
    }

    // The whole body runs under the lock; the service list was read before it.
    method Reconcile(v: Settings, role: Role, svcs: Option<seq<Service>>, host: Host) returns (made: Allocator?)
      requires Valid()
      modifies this
      ensures Valid() && View() == Reconciled(old(View()), text, v, role, svcs, host, made)
      ensures alloc == null || alloc == old(alloc) || (alloc == made && fresh(alloc))
    {
      made := null;
      if !DhcpWanted(v, role) {
        StopLocked();
        current, lastError := v, RoleRefusal(v, role);
        return;
      }
      if running && DhcpConfigEqual(current, v) {
        current := WithAllowForeign(current, v.dhcp.allowForeign);
        lastError := None;
        return;
      }
      if svcs.None? {
        Fail(v, UnreadServices);
        return;
      }
      var built := Build(text, v, !running || current.dhcp.iface != v.dhcp.iface, host);
      if built.Err? {
        Fail(v, built.error);
        return;
      }
      made := new Allocator(built.value);
      var res, _ := Reservations(text, built.value.subnet, svcs.value);
      made.SetReservations(res);
      StopLocked();
      if !host.binds {
        Fail(v, NotBound);
        return;
      }
      running, current, lastError := true, v, None;
      alloc, subnet := made, built.value.subnet;
    }

    // The two locked sections of a refresh; the service list is read between them.
    method RefreshBegin() returns (t: Option<Ticket<Allocator?>>)
      requires Valid()
      modifies this`gen
      ensures Valid() && View() == Begun(old(View())) && t == TicketOf(View())
    {
      gen := gen + 1;
      t := if alloc == null then None else Some(Ticket(gen, alloc, subnet));
    }

    method RefreshPublish(t: Ticket<Allocator?>, svcs: seq<Service>)
      requires Valid() && t.alloc != null
      modifies this`problems, t.alloc
      ensures Valid() && View() == Published(old(View()), text, t, svcs)
      ensures !IsCurrent(old(View()), t) ==> t.alloc.Contents() == old(t.alloc.Contents())
    {
      var res, found := Reservations(text, t.subnet, svcs);
      if alloc != t.alloc || gen != t.gen {
        return;
      }
      t.alloc.SetReservations(res);
      problems := found;
    }
  }
}
