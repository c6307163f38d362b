/** Which settings are accepted, saved and run, in terms of the columns alone. */
module SettingsOutcomes {
  import opened Wrappers
  import opened Net
  import Names
  import opened Tables
  import opened SettingsRules
  import ReplicaSettings
  import PolicyOutcomes
  import ZoneRename

  // ----- the rules -----

  // The text, outer space aside, is an IPv4 address.
  predicate IsIPv4(x: Syntax, s: string) { x.address(Names.TrimSpace(s)).V4? }

  function IPv4Of(x: Syntax, s: string): nat
    requires IsIPv4(x, s)
  {
    x.address(Names.TrimSpace(s)).v4
  }

  // A domain name whose labels are letters, digits and inner hyphens.
  predicate IsDomain(x: Syntax, s: string) {
    && x.labels(s).Some?
    && forall l :: l in x.labels(s).value ==>
         && |l| > 0 && l[0] != '-' && l[|l| - 1] != '-'
         && forall i :: 0 <= i < |l| ==>
              'a' <= l[i] <= 'z' || 'A' <= l[i] <= 'Z' || '0' <= l[i] <= '9' || l[i] == '-'
  }

  predicate SharedTexts(x: Syntax, v: Replicated<Strings>) {
    && Names.TrimSpace(v.privateDomain) != "" && IsDomain(x, v.privateDomain)
    && (forall z :: z in v.reverseZones.All() ==> x.prefix(z).Some?)
    && v.upstreams.All() != [] && (forall u :: u in v.upstreams.All() ==> x.upstream(u))
    && v.allowQuery.All() != [] && (forall c :: c in v.allowQuery.All() ==> x.prefix(c).Some?)
  }

  predicate SharedNumbers(v: Replicated<Strings>) {
    && v.ttl >= 1 && 1 <= v.cacheMinTTL <= v.cacheMaxTTL && v.negativeMaxTTL >= 1 && v.cacheEntries >= 1
    && 1 <= v.healthTimeout < v.healthInterval && v.healthWorkers >= 1
  }

  // What a DHCP server that is on must have.
  predicate DHCPRules(x: Syntax, v: Settings<Strings>) {
    && v.local.dhcpLeaseFile == "" && Names.TrimSpace(v.dhcp.iface) != ""
    && IsIPv4(x, v.dhcp.rangeStart) && IsIPv4(x, v.dhcp.rangeEnd) && IsIPv4(x, v.dhcp.gateway)
    && IPv4Of(x, v.dhcp.rangeStart) <= IPv4Of(x, v.dhcp.rangeEnd) < IPv4Of(x, v.dhcp.rangeStart) + 65536
    && (v.dhcp.secondaryDNS != "" ==> IsIPv4(x, v.dhcp.secondaryDNS))
    && 300 <= v.dhcp.leaseSeconds <= 604800
  }

  predicate Acceptable(x: Syntax, v: Settings<Strings>) {
    && SharedTexts(x, v.shared) && SharedNumbers(v.shared) && v.local.discoveryInterval >= 1
    && (v.local.dhcpLeaseFile != "" ==> x.isAbs(v.local.dhcpLeaseFile))
    && (v.dhcp.enabled ==> DHCPRules(x, v))
  }

  lemma BadTextIsRefused(x: Syntax, v: Replicated<Strings>, interval: int)
    requires !SharedTexts(x, v)
    ensures CheckShared(x, v, interval) != None
  {
    DomainExactly(x, v.privateDomain);
    hide IsDomain, ValidDomainName, Names.TrimSpace;
  }

  lemma GoodTextLeavesNumbers(x: Syntax, v: Replicated<Strings>, interval: int)
    requires SharedTexts(x, v)
    ensures CheckShared(x, v, interval) == None <==> SharedNumbers(v) && interval >= 1
  {
    DomainExactly(x, v.privateDomain);
    assert AllPrefixes(x, v.reverseZones.All()) && AllPrefixes(x, v.allowQuery.All()) && Parts(x, v.upstreams.All());
    hide IsDomain, ValidDomainName, Names.TrimSpace, AllPrefixes, Parts;
  }

  lemma DomainExactly(x: Syntax, s: string)
    ensures ValidDomainName(x, s) <==> IsDomain(x, s)
  {
  }

  lemma DHCPExactly(x: Syntax, v: Settings<Strings>)
    ensures CheckDHCP(x, v.local, v.dhcp) == None <==> (v.dhcp.enabled ==> DHCPRules(x, v))
  {
    hide Names.TrimSpace;
  }

  // A row is accepted exactly when it keeps every rule.
  lemma AcceptedExactly(x: Syntax, v: Settings<Strings>)
    ensures Stored(x, v) <==> Acceptable(x, v)
  {
    if SharedTexts(x, v.shared) {
      GoodTextLeavesNumbers(x, v.shared, v.local.discoveryInterval);
    } else {
      BadTextIsRefused(x, v.shared, v.local.discoveryInterval);
    }
    DHCPExactly(x, v);
    hide CheckShared, SharedTexts, SharedNumbers, CheckDHCP, DHCPRules;
  }

  // ----- the exposure guardrail -----

  // The entry reaches beyond the private ranges, and this is how it prints.
  predicate Exposes(x: Syntax, private: Prefix -> bool, c: string, form: string) {
    x.prefix(c).Some? && !private(x.prefix(c).value) && form == x.show(Net.Canonical(x.prefix(c).value))
  }

  // A save is let through exactly when the row keeps every rule, and each prefix in it that
  // reaches beyond the private ranges is retyped as it prints, or was there before, however
  // it was spelled.
  lemma LetThroughExactly(x: Syntax, private: Prefix -> bool, next: Settings<Strings>, prev: Settings<Strings>,
                          confirm: string)
    ensures ValidateWrite(x, private, next, prev, confirm) == None <==>
      && Acceptable(x, next)
      && forall c, form :: c in next.shared.allowQuery.All() && Exposes(x, private, c, form) ==>
           form == confirm || exists q :: q in prev.shared.allowQuery.All() && Exposes(x, private, q, form)
  {
    AcceptedExactly(x, next);
    var allowed, before := next.shared.allowQuery.All(), prev.shared.allowQuery.All();
    hide ValidateStored, Acceptable, Net.Canonical;
    forall c | c in allowed
      ensures Confirmed(x, private, c, before, confirm) <==>
        forall form :: Exposes(x, private, c, form) ==>
          form == confirm || exists q :: q in before && Exposes(x, private, q, form)
    {
      ConfirmedExactly(x, private, c, before, confirm);
    }
    hide Confirmed, Exposes;
  }

  lemma ConfirmedExactly(x: Syntax, private: Prefix -> bool, c: string, before: seq<string>, confirm: string)
    ensures Confirmed(x, private, c, before, confirm) <==>
      forall form :: Exposes(x, private, c, form) ==>
        form == confirm || exists q :: q in before && Exposes(x, private, q, form)
  {
    forall q, form ensures Exposes(x, private, q, form) <==> PublicForm(x, private, q) == Some(form) {
    }
    hide PublicForm, Exposes;
    var form := PublicForm(x, private, c);
    if form.Some? { assert Exposes(x, private, c, form.value); }
  }

  // On a primary a row with a new exposed prefix nobody confirmed is refused, and nothing
  // stored or running changes.
  lemma UnconfirmedIsRefused(x: Syntax, private: Prefix -> bool, before: Db, cur: Option<Snapshot>,
                             v: Settings<Strings>, confirm: string, commits: bool,
                             e: Option<ReplicaSettings.SetError>, after: Db, now: Option<Snapshot>, c: string,
                             form: string)
    requires ReplicaSettings.SetOnPrimary(x, private, before, cur, v, confirm, commits, e, after, now)
    requires Acceptable(x, v) && c in v.shared.allowQuery.All() && Exposes(x, private, c, form) && form != confirm
    requires forall q :: q in ReplicaSettings.Running(cur).shared.allowQuery.All() ==> !Exposes(x, private, q, form)
    ensures e == Some(ReplicaSettings.Invalid("allow_query")) && after == before && now == cur
  {
    AcceptedExactly(x, v);
    LetThroughExactly(x, private, v, ReplicaSettings.Running(cur), confirm);
    hide Acceptable, Exposes, ValidateStored, Confirmed, Net.Canonical;
  }

  // ----- what is stored and run -----

  // The same entries, each that is a prefix in the form it prints in without host bits.
  predicate Printed(x: Syntax, was: seq<string>, now: seq<string>) {
    && |now| == |was|
    && forall i :: 0 <= i < |was| ==>
         now[i] == if x.prefix(was[i]).Some? then x.show(Net.Canonical(x.prefix(was[i]).value)) else was[i]
  }

  // A row as saved: the two prefix lists in printed form, every other column as given.
  lemma SavedRow(x: Syntax, v: Settings<Strings>)
    ensures var w := Canonicalized(x, v);
      && Printed(x, v.shared.allowQuery.All(), w.shared.allowQuery.All())
      && Printed(x, v.shared.reverseZones.All(), w.shared.reverseZones.All())
      && w == v.(shared := v.shared.(allowQuery := w.shared.allowQuery, reverseZones := w.shared.reverseZones))
  {
  }

  // A primary's save that goes through leaves that row in the table, column by column. The
  // records move with the private zone exactly when there was one and it is another now.
  lemma SaveOutcome(x: Syntax, private: Prefix -> bool, before: Db, cur: Option<Snapshot>, v: Settings<Strings>,
                    confirm: string, commits: bool, after: Db, now: Option<Snapshot>)
    requires ReplicaSettings.SetOnPrimary(x, private, before, cur, v, confirm, commits, None, after, now)
    ensures var from, to := ZoneRename.ZoneSuffix(ReplicaSettings.Running(cur).shared.privateDomain),
                            ZoneRename.ZoneSuffix(v.shared.privateDomain);
      && after.settings.Some?
      && PolicyOutcomes.SharedColumns(after.settings.value.shared, Canonicalized(x, v).shared)
      && after.settings.value.local == v.local && after.settings.value.dhcp == v.dhcp
      && now.Some? && now.value.raw == Canonicalized(x, v)
      && (from == "" || from == to ==> after.records == before.records)
      && (from != "" && from != to ==>
            after.records == After(before, PutSettingsRenamingZone(Canonicalized(x, v), from, to)).records)
  {
    var w := Canonicalized(x, v);
    var from, to := ZoneRename.ZoneSuffix(ReplicaSettings.Running(cur).shared.privateDomain),
                    ZoneRename.ZoneSuffix(v.shared.privateDomain);
    assert after == After(before, ReplicaSettings.SaveOf(w, from, to));
    assert now == Some(Build(x, w).value) && now.value.raw == w;
    SavedRow(x, v);
    PolicyOutcomes.PutSettingsOutcome(before, w);
    PolicyOutcomes.RenamingOutcome(before, w, from, to);
    hide *;
  }

  // A replica's save that goes through writes the eight DHCP columns and no other.
  lemma ReplicaSaveOutcome(x: Syntax, private: Prefix -> bool, before: Db, cur: Option<Snapshot>,
                           v: Settings<Strings>, confirm: string, commits: bool, readable: bool, after: Db,
                           now: Option<Snapshot>)
    requires ReplicaSettings.SetOnReplica(x, private, before, cur, v, confirm, commits, readable, None, after, now)
    ensures before.settings.Some? && after.settings.Some? && after.settings.value.dhcp == v.dhcp
    ensures after == before.(settings := Some(before.settings.value.(dhcp := v.dhcp)))
    ensures now.Some? && now.value.raw == ValueOf(after.settings.value)
  {
    PolicyOutcomes.PutDHCPOutcome(before, v.dhcp);
    hide ReplicaSettings.Refusal, Canonicalized;
  }

  // The entries as prefixes without host bits, in order.
  predicate Read(x: Syntax, list: seq<string>, prefixes: seq<Prefix>) {
    && |prefixes| == |list|
    && forall i :: 0 <= i < |list| ==>
         x.prefix(list[i]).Some? && prefixes[i] == Net.Canonical(x.prefix(list[i]).value)
  }

  // A row can be run exactly when its prefixes and upstreams read as such. Then queries are
  // allowed from exactly its prefixes without host bits, in order, and with the flag from
  // the tailnet as well; and the reverse zones are read likewise.
  lemma RunExactly(x: Syntax, v: Settings<Strings>)
    ensures var r, allow, zones := Build(x, v), v.shared.allowQuery.All(), v.shared.reverseZones.All();
      && (r.Ok? <==>
            && (forall c :: c in allow ==> x.prefix(c).Some?) && (forall z :: z in zones ==> x.prefix(z).Some?)
            && (v.shared.allowTailscale ==> x.prefix("100.64.0.0/10").Some?)
            && (forall u :: u in v.shared.upstreams.All() ==> x.upstream(u)))
      && (r.Ok? ==>
            && r.value.raw == v
            && |r.value.allow| == |allow| + (if v.shared.allowTailscale then 1 else 0)
            && Read(x, allow, r.value.allow[..|allow|])
            && (v.shared.allowTailscale ==>
                  r.value.allow[|allow|] == Net.Canonical(x.prefix("100.64.0.0/10").value))
            && Read(x, zones, r.value.reverse))
  {
    hide Net.Canonical;
    var allow := v.shared.allowQuery.All();
    assert forall c :: c in AllowList(v.shared) <==> c in allow || (v.shared.allowTailscale && c == TAILSCALE_CGNAT);
  }
}
