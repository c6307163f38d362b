/** When a DHCP listener starts, stops or stays, and what one serves that starts. */
module ListenerOutcomes {
  import opened Wrappers
  import opened Net
  import Names
  import opened Allocation
  import opened Reserve
  import opened DhcpRunner
  import Roles

  function Reads(text: Text, s: string): Addr { text.parse(Names.TrimSpace(s)) }

  // The settings read as addresses, the range lies in the subnet of the interface, and
  // nothing else serves the segment, or it need not be asked or may.
  predicate Buildable(text: Text, v: Settings, probing: bool, host: Host) {
    && host.qualifies && host.inspected.Some?
    && Reads(text, v.dhcp.rangeStart) != NoAddr && Reads(text, v.dhcp.rangeEnd) != NoAddr
    && Reads(text, v.dhcp.gateway) != NoAddr
    && (Names.TrimSpace(v.dhcp.secondaryDNS) != "" ==> Reads(text, v.dhcp.secondaryDNS) != NoAddr)
    && Contains(host.inspected.value.subnet, Reads(text, v.dhcp.rangeStart))
    && Contains(host.inspected.value.subnet, Reads(text, v.dhcp.rangeEnd))
    && (probing && !v.dhcp.allowForeign ==> host.probe == Alone)
  }

  // A listener can be built exactly then. It serves the range and the lease time of the
  // settings with their gateway, on the interface's subnet, and keeps the interface's own
  // address to itself.
  lemma BuiltExactly(text: Text, v: Settings, probing: bool, host: Host)
    ensures Build(text, v, probing, host).Ok? <==> Buildable(text, v, probing, host)
    ensures Build(text, v, probing, host).Ok? ==>
      var cfg := Build(text, v, probing, host).value;
      && cfg.start == Reads(text, v.dhcp.rangeStart) && cfg.end == Reads(text, v.dhcp.rangeEnd)
      && cfg.gateway == Reads(text, v.dhcp.gateway) && cfg.leaseTime == v.dhcp.leaseSeconds
      && cfg.subnet == host.inspected.value.subnet && cfg.host == host.inspected.value.addr
  {
    hide Names.TrimSpace, Contains;
  }

  // Off, without an interface or on a replica, there is no listener afterwards, and only
  // the replica says why.
  lemma UnwantedOutcome<A>(r: Runner<A>, text: Text, v: Settings, role: Role, svcs: Option<seq<Service>>, host: Host,
                           made: A)
    requires !v.dhcp.enabled || v.dhcp.iface == "" || role == Roles.Replica
    ensures var t := Reconciled(r, text, v, role, svcs, host, made);
      && t.listener.None? && t.problems == [] && t.current == v && t.gen == r.gen
      && t.lastError == (if v.dhcp.enabled && v.dhcp.iface != "" then Some(ReplicaServesNoDHCP) else None)
  {
    hide Build, Reserved;
  }

  // Would it be the same listener? Everything built into one is the same.
  predicate SameListener(a: Settings, b: Settings) {
    && a.dhcp == b.dhcp.(allowForeign := a.dhcp.allowForeign) && a.shared.privateDomain == b.shared.privateDomain
  }

  // One that is up and would be the same stays, reservations and all, and no refusal stands.
  lemma SameOutcome<A>(r: Runner<A>, text: Text, v: Settings, role: Role, svcs: Option<seq<Service>>, host: Host,
                       made: A)
    requires v.dhcp.enabled && v.dhcp.iface != "" && role != Roles.Replica
    requires r.listener.Some? && SameListener(r.current, v)
    ensures var t := Reconciled(r, text, v, role, svcs, host, made);
      && t.listener == r.listener && t.problems == r.problems && t.lastError == None && t.gen == r.gen
      && SameListener(t.current, v) && t.current.dhcp.allowForeign == v.dhcp.allowForeign
  {
    hide Build, Reserved;
  }

  // Otherwise one starts exactly when the services could be read, it can be built, and it
  // binds; a segment already served is not probed again. It has the reservations of those
  // services from its first packet.
  lemma StartOutcome<A>(r: Runner<A>, text: Text, v: Settings, role: Role, svcs: Option<seq<Service>>, host: Host,
                        made: A)
    requires v.dhcp.enabled && v.dhcp.iface != "" && role != Roles.Replica
    requires !(r.listener.Some? && SameListener(r.current, v))
    ensures var t := Reconciled(r, text, v, role, svcs, host, made);
      var probing := r.listener.None? || r.current.dhcp.iface != v.dhcp.iface;
      var builds := svcs.Some? && Buildable(text, v, probing, host);
      && t.gen == r.gen && (t.lastError.None? <==> builds && host.binds)
      && (builds && host.binds ==>
            var subnet := host.inspected.value.subnet;
            t.listener == Some(Listener(made, subnet, Reserved(text, subnet, svcs.value))) && t.problems == []
            && t.current == v)
      && (builds && !host.binds ==> t.listener == None && t.problems == [] && t.current == v)
      && (!builds ==> t.listener == r.listener && t.problems == r.problems
                      && t.current == if r.listener.None? then v else r.current)
  {
    BuiltExactly(text, v, NeedsProbe(r, v), host);
    hide Build, Buildable, Reserved;
  }

  // A refresh is published exactly when its listener is still up and no later one has begun.
  lemma RefreshOutcome<A>(r: Runner<A>, text: Text, t: Ticket<A>, svcs: seq<Service>)
    ensures var current := r.listener.Some? && r.listener.value.alloc == t.alloc && r.gen == t.gen;
      Published(r, text, t, svcs) ==
        if current then
          r.(listener := Some(Listener(t.alloc, r.listener.value.subnet, Reserved(text, t.subnet, svcs))),
             problems := Problems(text, t.subnet, svcs))
        else r
  {
  }
}
