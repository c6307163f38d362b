/** What a settings row must satisfy, what is built from it, and which part of the rules
    reads which part of the row. */
module SettingsRules {
  import opened Wrappers
  import opened Net
  import Names
  import Allocation
  import opened Tables

  // What other packages make of a text: the labels of a domain name, a CIDR prefix and
  // its printed form, an upstream, an absolute path, an address.
  datatype Syntax = Syntax(
    labels: string -> Option<seq<string>>,
    prefix: string -> Option<Prefix>,
    show: Prefix -> string,
    upstream: string -> bool,
    isAbs: string -> bool,
    address: string -> Addr)

  const TAILSCALE_CGNAT := "100.64.0.0/10"
  const LEASE_MIN := 300
  const LEASE_MAX := 604800

  // ----- the rules, part by part -----

  predicate LabelChar(c: char) { c == '-' || 'a' <= c <= 'z' || 'A' <= c <= 'Z' || '0' <= c <= '9' }

  predicate ValidLabel(l: string) {
    l != "" && l[0] != '-' && l[|l| - 1] != '-' && forall i :: 0 <= i < |l| ==> LabelChar(l[i])
  }

  predicate ValidDomainName(x: Syntax, s: string) {
    x.labels(s).Some? && forall l :: l in x.labels(s).value ==> ValidLabel(l)
  }

  predicate AllPrefixes(x: Syntax, list: seq<string>) { forall c :: c in list ==> x.prefix(c).Some? }

  predicate Parts(x: Syntax, list: seq<string>) { forall u :: u in list ==> x.upstream(u) }

  // The first rule a shared half breaks, by field; the node's own interval is judged
  // among the others.
  function CheckShared(x: Syntax, v: Replicated<Strings>, discoveryInterval: int): Option<string> {
    if Names.TrimSpace(v.privateDomain) == "" then Some("private_domain")
    else if !ValidDomainName(x, v.privateDomain) then Some("private_domain")
    else if !AllPrefixes(x, v.reverseZones.All()) then Some("reverse_zones")
    else if v.upstreams.All() == [] || !Parts(x, v.upstreams.All()) then Some("upstreams")
    else if v.allowQuery.All() == [] || !AllPrefixes(x, v.allowQuery.All()) then Some("allow_query")
    else if v.ttl < 1 then Some("ttl")
    else if v.cacheMinTTL < 1 then Some("cache_min_ttl")
    else if v.cacheMaxTTL < 1 then Some("cache_max_ttl")
    else if v.negativeMaxTTL < 1 then Some("negative_max_ttl")
    else if v.cacheEntries < 1 then Some("cache_entries")
    else if discoveryInterval < 1 then Some("discovery_interval")
    else if v.healthInterval < 1 then Some("health_interval")
    else if v.healthTimeout < 1 then Some("health_timeout")
    else if v.healthWorkers < 1 then Some("health_workers")
    else if v.cacheMinTTL > v.cacheMaxTTL then Some("cache_min_ttl")
    else if v.healthTimeout >= v.healthInterval then Some("health_timeout")
    else None
  }

  function ParseIPv4(x: Syntax, s: string): Option<U32> {
    var a := x.address(Names.TrimSpace(s));
    if a.V4? then Some(a.v4) else None
  }

  function CheckDHCP(x: Syntax, local: NodeLocal, d: DHCP): Option<string> {
    if !d.enabled then None
    else if local.dhcpLeaseFile != "" then Some("dhcp_enabled")
    else if Names.TrimSpace(d.iface) == "" then Some("dhcp_interface")
    else if ParseIPv4(x, d.rangeStart).None? then Some("dhcp_range_start")
    else if ParseIPv4(x, d.rangeEnd).None? then Some("dhcp_range_end")
    else if ParseIPv4(x, d.rangeEnd).value < ParseIPv4(x, d.rangeStart).value then Some("dhcp_range_end")
    else if ParseIPv4(x, d.rangeEnd).value - ParseIPv4(x, d.rangeStart).value + 1 > Allocation.MAX_POOL_SIZE
    then Some("dhcp_range_end")
    else if ParseIPv4(x, d.gateway).None? then Some("dhcp_gateway")
    else if d.secondaryDNS != "" && ParseIPv4(x, d.secondaryDNS).None? then Some("dhcp_secondary_dns")
    else if d.leaseSeconds < LEASE_MIN || d.leaseSeconds > LEASE_MAX then Some("dhcp_lease_seconds")
    else None
  }

  function ValidateStored(x: Syntax, v: Settings<Strings>): Option<string> {
    var shared := CheckShared(x, v.shared, v.local.discoveryInterval);
    if shared.Some? then shared
    else if v.local.dhcpLeaseFile != "" && !x.isAbs(v.local.dhcpLeaseFile) then Some("dhcp_lease_file")
    else CheckDHCP(x, v.local, v.dhcp)
  }

  predicate Stored(x: Syntax, v: Settings<Strings>) { ValidateStored(x, v) == None }

  // ----- the exposure guardrail -----

  // The canonical form of an entry that reaches beyond the private ranges.
  function PublicForm(x: Syntax, private: Prefix -> bool, c: string): Option<string> {
    match x.prefix(c)
    case None => None
    case Some(p) => if private(p) then None else Some(x.show(Net.Canonical(p)))
  }

  predicate Confirmed(x: Syntax, private: Prefix -> bool, c: string, prev: seq<string>, confirm: string) {
    var form := PublicForm(x, private, c);
    form.Some? ==> form.value == confirm || exists q :: q in prev && PublicForm(x, private, q) == form
  }

  function ValidateWrite(x: Syntax, private: Prefix -> bool, next: Settings<Strings>, prev: Settings<Strings>,
                         confirm: string): Option<string> {
    var allowed, before := next.shared.allowQuery.All(), prev.shared.allowQuery.All();
    if ValidateStored(x, next).Some? then ValidateStored(x, next)
    else if exists c :: c in allowed && !Confirmed(x, private, c, before, confirm) then Some("allow_query")
    else None
  }

  // The check as it is made: the confirmed forms gathered once, then every entry held
  // against them.
  method ConfirmPublicPrefixes(x: Syntax, private: Prefix -> bool, list: seq<string>, prev: seq<string>,
                               confirm: string) returns (ok: bool)
    ensures ok <==> forall c :: c in list ==> Confirmed(x, private, c, prev, confirm)
  {
    var stored: set<string> := {};
    for i := 0 to |prev|
      invariant forall s :: s in stored <==> exists q :: q in prev[..i] && PublicForm(x, private, q) == Some(s)
    {
      assert prev[..i + 1] == prev[..i] + [prev[i]];
      var form := PublicForm(x, private, prev[i]);
      if form.Some? {
        stored := stored + {form.value};
      }
    }
    assert prev[..|prev|] == prev;
    for i := 0 to |list|
      invariant forall c :: c in list[..i] ==> Confirmed(x, private, c, prev, confirm)
    {
      assert list[..i + 1] == list[..i] + [list[i]];
      var form := PublicForm(x, private, list[i]);
      if form.Some? && form.value != confirm && form.value !in stored {
        assert !Confirmed(x, private, list[i], prev, confirm);
        return false;
      }
    }
    assert list[..|list|] == list;
    return true;
  }

  // ----- canonical form -----

  function Canonical(x: Syntax, c: string): string {
    match x.prefix(c) case None => c case Some(p) => x.show(Net.Canonical(p))
  }

  function CanonicalList(x: Syntax, list: seq<string>): (r: seq<string>)
    ensures |r| == |list| && forall i :: 0 <= i < |list| ==> r[i] == Canonical(x, list[i])
  {
    seq(|list|, i requires 0 <= i < |list| => Canonical(x, list[i]))
  }

  method CanonicalPrefixes(x: Syntax, list: seq<string>) returns (out: seq<string>)
    ensures out == CanonicalList(x, list)
  {
    out := [];
    for i := 0 to |list|
      invariant out == CanonicalList(x, list)[..i]
    {
      var p := x.prefix(list[i]);
      out := out + [if p.None? then list[i] else x.show(Net.Canonical(p.value))];
    }
  }

  function Canonicalized(x: Syntax, v: Settings<Strings>): Settings<Strings> {
    v.(shared := v.shared.(allowQuery := Items(CanonicalList(x, v.shared.allowQuery.All())),
      reverseZones := Items(CanonicalList(x, v.shared.reverseZones.All()))))
  }

  // Only real prefixes parse, and what one prints as parses back to it.
  ghost predicate Prints(x: Syntax) {
    && (forall c: string :: x.prefix(c).Some? ==> x.prefix(c).value.Valid())
    && (forall p: Prefix :: p.Valid() ==> x.prefix(x.show(p)) == Some(p))
  }

  lemma CanonicalParses(x: Syntax, list: seq<string>)
    requires Prints(x) && AllPrefixes(x, list)
    ensures AllPrefixes(x, CanonicalList(x, list))
  {
    forall c | c in CanonicalList(x, list) ensures x.prefix(c).Some? {
      var i :| 0 <= i < |list| && CanonicalList(x, list)[i] == c;
      assert list[i] in list;
    }
  }

  // Storing the canonical form keeps a row every rule accepted acceptable, and a second
  // time changes nothing.
  lemma CanonicalKeepsValid(x: Syntax, v: Settings<Strings>)
    requires Prints(x) && Stored(x, v)
    ensures Stored(x, Canonicalized(x, v))
    ensures Canonicalized(x, Canonicalized(x, v)) == Canonicalized(x, v)
  {
    CanonicalParses(x, v.shared.allowQuery.All());
    CanonicalParses(x, v.shared.reverseZones.All());
    CanonicalTwice(x, v.shared.allowQuery.All());
    CanonicalTwice(x, v.shared.reverseZones.All());
  }

  lemma CanonicalTwice(x: Syntax, list: seq<string>)
    requires Prints(x)
    ensures CanonicalList(x, CanonicalList(x, list)) == CanonicalList(x, list)
  {
    forall i | 0 <= i < |list| ensures CanonicalList(x, CanonicalList(x, list))[i] == CanonicalList(x, list)[i] {
      var p := x.prefix(list[i]);
      if p.Some? && p.value.Valid() { MaskedTwice(p.value); }
    }
  }

  // ----- what the server runs from a row -----

  datatype Snapshot = Snapshot(raw: Settings<Strings>, allow: seq<Prefix>, reverse: seq<Prefix>)

  function AllowList(v: Replicated<Strings>): seq<string> {
    if v.allowTailscale then v.allowQuery.All() + [TAILSCALE_CGNAT] else v.allowQuery.All()
  }

  function ParseAll(x: Syntax, list: seq<string>): (r: seq<Prefix>)
    requires AllPrefixes(x, list)
    ensures |r| == |list|
    ensures forall i :: 0 <= i < |list| ==> list[i] in list && r[i] == Net.Canonical(x.prefix(list[i]).value)
  {
    seq(|list|, i requires 0 <= i < |list| => assert list[i] in list; Net.Canonical(x.prefix(list[i]).value))
  }

  function Build(x: Syntax, v: Settings<Strings>): Result<Snapshot, string> {
    if !AllPrefixes(x, AllowList(v.shared)) then Err("allow_query")
    else if !AllPrefixes(x, v.shared.reverseZones.All()) then Err("reverse_zones")
    else if !Parts(x, v.shared.upstreams.All()) then Err("upstreams")
    else Ok(Snapshot(v, ParseAll(x, AllowList(v.shared)), ParseAll(x, v.shared.reverseZones.All())))
  }

  method ParsePrefixes(x: Syntax, list: seq<string>) returns (out: Option<seq<Prefix>>)
    ensures out == if AllPrefixes(x, list) then Some(ParseAll(x, list)) else None
  {
    var parsed: seq<Prefix> := [];
    for i := 0 to |list|
      invariant AllPrefixes(x, list[..i]) && |parsed| == i
      invariant forall k :: 0 <= k < i ==> parsed[k] == Net.Canonical(x.prefix(list[k]).value)
    {
      assert list[..i + 1] == list[..i] + [list[i]];
      var p := x.prefix(list[i]);
      if p.None? {
        return None;
      }
      parsed := parsed + [Net.Canonical(p.value)];
      assert forall k :: 0 <= k < i ==> list[k] in list[..i];
    }
    assert list[..|list|] == list;
    assert parsed == ParseAll(x, list);
    return Some(parsed);
  }

  // All or nothing: the first list that does not parse ends it.
  method BuildSnapshot(x: Syntax, v: Settings<Strings>) returns (r: Result<Snapshot, string>)
    ensures r == Build(x, v)
  {
    var allow := v.shared.allowQuery.All();
    if v.shared.allowTailscale {
      allow := allow + [TAILSCALE_CGNAT];
    }
    var allowed := ParsePrefixes(x, allow);
    if allowed.None? {
      return Err("allow_query");
    }
    var reverse := ParsePrefixes(x, v.shared.reverseZones.All());
    if reverse.None? {
      return Err("reverse_zones");
    }
    var upstreams := v.shared.upstreams.All();
    for i := 0 to |upstreams|
      invariant forall u :: u in upstreams[..i] ==> x.upstream(u)
    {
      assert upstreams[..i + 1] == upstreams[..i] + [upstreams[i]];
      if !x.upstream(upstreams[i]) {
        return Err("upstreams");
      }
    }
    assert upstreams[..|upstreams|] == upstreams;
    return Ok(Snapshot(v, allowed.value, reverse.value));
  }

  // A row the rules accept can always be run.
  lemma StoredBuilds(x: Syntax, v: Settings<Strings>)
    requires Stored(x, v) && x.prefix(TAILSCALE_CGNAT).Some?
    ensures Build(x, v).Ok? && Build(x, v).value.raw == v
  {
  }

  // ----- which half decides what -----

  // The shared half of one accepted row and the rest of another make an accepted row,
  // whatever was in the halves left out.
  lemma MixedRowIsValid(x: Syntax, pulled: Settings<Strings>, saved: Settings<Strings>)
    requires Stored(x, pulled) && Stored(x, saved)
    ensures Stored(x, Settings(pulled.shared, saved.local, saved.dhcp))
  {
    CheckSplits(x, pulled.shared, pulled.local.discoveryInterval, saved.local.discoveryInterval);
    CheckSplits(x, saved.shared, saved.local.discoveryInterval, pulled.local.discoveryInterval);
  }

  // An accepted shared half stays accepted beside any interval of at least one second.
  lemma CheckSplits(x: Syntax, v: Replicated<Strings>, i: int, j: int)
    requires CheckShared(x, v, i) == None
    ensures i >= 1 && (CheckShared(x, v, j) == None <==> j >= 1)
  {
  }

  // DHCP that is accepted and on has an IPv4 pool of at most 65536 addresses, so a scan
  // of it ends within that many steps, and no watched lease file beside it.
  lemma AcceptedPoolIsBounded(x: Syntax, v: Settings<Strings>)
    requires Stored(x, v) && v.dhcp.enabled
    ensures var start, end :=
      x.address(Names.TrimSpace(v.dhcp.rangeStart)), x.address(Names.TrimSpace(v.dhcp.rangeEnd));
      start.V4? && end.V4? && start.v4 <= end.v4 && end.v4 - start.v4 + 1 <= Allocation.MAX_POOL_SIZE
    ensures v.local.dhcpLeaseFile == "" && LEASE_MIN <= v.dhcp.leaseSeconds <= LEASE_MAX
  {
  }
}
