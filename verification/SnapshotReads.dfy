/** Reading the tables into a snapshot. What a sound node hands over, any node accepts,
    and then shares exactly that. */
module SnapshotReads {
  import opened Wrappers
  import opened Tables
  import opened SnapshotFacts

  // ----- what each query returns, in whatever order -----

  predicate ViewRead(v: View, cfg: Config) {
    Distinct(v.subnets) && HoldsOf(v.subnets, cfg.subnets, v.name)
  }

  predicate ViewsDiffer(vs: seq<View>) { forall i, j :: 0 <= i < j < |vs| ==> vs[i].name != vs[j].name }

  predicate ReadsViews(vs: seq<View>, cfg: Config) {
    && ViewsDiffer(vs) && ViewNames(vs) == cfg.views
    && (forall v :: v in vs ==> ViewRead(v, cfg))
  }

  predicate ReadsService(svc: Service, cfg: Config) {
    && svc.name in cfg.services && cfg.services[svc.name] == svc.row
    && svc.name in cfg.addresses && cfg.addresses[svc.name] == svc.addresses
    && Distinct(svc.aliases) && HoldsOf(svc.aliases, cfg.aliases, svc.name)
  }

  function ServiceNames(svcs: seq<Service>): set<string> { set s | s in svcs :: s.name }

  predicate ReadsServices(svcs: seq<Service>, cfg: Config) {
    && NamesDiffer(svcs) && ServiceNames(svcs) == cfg.services.Keys
    && (forall s :: s in svcs ==> ReadsService(s, cfg))
  }

  predicate ReadsRecords(rs: seq<Record>, cfg: Config) { multiset(rs) == cfg.records }

  predicate ReadsSettings(v: Settings<Strings>, cfg: Config) { cfg.settings == Some(Pack(v.shared)) }

  predicate ListsDiffer(ls: seq<ListDef>) { forall i, j :: 0 <= i < j < |ls| ==> ls[i].name != ls[j].name }

  predicate RulesDiffer(rs: seq<Rule>) { forall i, j :: 0 <= i < j < |rs| ==> rs[i].domain != rs[j].domain }

  predicate ReadsLists(ls: seq<ListDef>, cfg: Config) {
    && ListsDiffer(ls)
    && NamesOf(ls) == cfg.lists.Keys
    && (forall l :: l in ls ==> cfg.lists[l.name] == l)
  }

  function Domains(rs: seq<Rule>): set<string> { set r | r in rs :: r.domain }

  predicate ReadsRules(rs: seq<Rule>, cfg: Config) {
    && RulesDiffer(rs)
    && Domains(rs) == cfg.rules.Keys
    && (forall r :: r in rs ==> cfg.rules[r.domain] == r.kind)
  }

  predicate Reads(input: Input, cfg: Config) {
    && ReadsViews(input.views, cfg) && ReadsServices(input.services, cfg) && ReadsRecords(input.records, cfg)
    && ReadsSettings(input.settings, cfg) && input.blacklist == cfg.blacklist
    && ReadsLists(input.lists, cfg) && ReadsRules(input.rules, cfg)
  }

  // ----- the references between tables -----

  predicate Known(cfg: Config, view: string) { view == "" || view in cfg.views }

  ghost predicate Sound(cfg: Config) {
    && (forall c :: c in cfg.subnets ==> cfg.subnets[c] in cfg.views)
    && (forall a :: a in cfg.aliases ==> cfg.aliases[a] in cfg.services)
    && (forall n, a :: n in cfg.addresses && a in cfg.addresses[n] ==> Known(cfg, a.view))
    && (forall r :: r in cfg.records ==> Known(cfg, r.view))
  }

  // ----- what was read is what is shared -----

  lemma FewerViewsDiffer(vs: seq<View>, n: nat)
    requires ViewsDiffer(vs) && n < |vs|
    ensures ViewsDiffer(vs[..n]) && vs[n].name !in ViewNames(vs[..n])
  {
    forall i, j | 0 <= i < j < n ensures vs[..n][i].name != vs[..n][j].name { assert vs[i].name != vs[j].name; }
  }

  // m is what the whole map says of the keys these owners hold.
  ghost predicate Restricts(m: map<string, string>, whole: map<string, string>, owners: set<string>) {
    && (forall k :: k in m <==> k in whole && whole[k] in owners)
    && (forall k :: k in m ==> m[k] == whole[k])
  }

  predicate HoldsOf(keys: seq<string>, whole: map<string, string>, owner: string) {
    && (forall k :: k in keys ==> k in whole && whole[k] == owner)
    && (forall k :: k in whole && whole[k] == owner ==> k in keys)
  }

  lemma OneMoreOwner(m: map<string, string>, whole: map<string, string>, owners: set<string>, keys: seq<string>,
                     owner: string)
    requires Restricts(m, whole, owners) && HoldsOf(keys, whole, owner) && owner !in owners
    ensures OwnedBy(m, owner) == {} && forall k :: k in keys ==> k !in m
    ensures Restricts(m + AllTo(keys, owner), whole, owners + {owner})
  {
  }

  lemma AllOwners(m: map<string, string>, whole: map<string, string>, owners: set<string>)
    requires Restricts(m, whole, owners) && forall k :: k in whole ==> whole[k] in owners
    ensures m == whole
  {
  }

  lemma {:induction false} ClaimsSoFar(vs: seq<View>, cfg: Config)
    requires ViewsDiffer(vs) && forall v :: v in vs ==> ViewRead(v, cfg)
    ensures Restricts(Claims(vs), cfg.subnets, ViewNames(vs))
  {
    if vs != [] {
      var n := |vs| - 1;
      assert vs == vs[..n] + [vs[n]];
      FewerViewsDiffer(vs, n);
      ClaimsSoFar(vs[..n], cfg);
      assert vs[n] in vs;
      OneMoreOwner(Claims(vs[..n]), cfg.subnets, ViewNames(vs[..n]), vs[n].subnets, vs[n].name);
      assert ViewNames(vs) == ViewNames(vs[..n]) + {vs[n].name};
      var rest := Claims(vs[..n]);
      assert rest - OwnedBy(rest, vs[n].name) == rest;
    }
  }

  lemma ClaimsRead(vs: seq<View>, cfg: Config)
    requires ReadsViews(vs, cfg) && forall c :: c in cfg.subnets ==> cfg.subnets[c] in cfg.views
    ensures Claims(vs) == cfg.subnets
  {
    ClaimsSoFar(vs, cfg);
    AllOwners(Claims(vs), cfg.subnets, ViewNames(vs));
  }

  lemma {:induction false} ViewsAccepted(db: Db, vs: seq<View>, cfg: Config)
    requires db.views == {} && db.subnets == map[]
    requires ViewsDiffer(vs) && forall v :: v in vs ==> ViewRead(v, cfg)
    ensures ViewsPut(db, vs).Ok?
  {
    if vs != [] {
      var n := |vs| - 1;
      assert vs == vs[..n] + [vs[n]];
      FewerViewsDiffer(vs, n);
      ViewsAccepted(db, vs[..n], cfg);
      ViewsGive(db, vs[..n]);
      ClaimsSoFar(vs[..n], cfg);
      assert vs[n] in vs;
      OneMoreOwner(Claims(vs[..n]), cfg.subnets, ViewNames(vs[..n]), vs[n].subnets, vs[n].name);
    }
  }

  lemma {:induction false} RowsSoFar(svcs: seq<Service>, cfg: Config)
    requires NamesDiffer(svcs) && forall s :: s in svcs ==> ReadsService(s, cfg)
    ensures ServiceRows(svcs).Keys == ServiceAddresses(svcs).Keys == ServiceNames(svcs)
    ensures forall n :: n in ServiceRows(svcs) ==> n in cfg.services && ServiceRows(svcs)[n] == cfg.services[n]
    ensures forall n :: n in ServiceRows(svcs) ==> n in cfg.addresses && ServiceAddresses(svcs)[n] == cfg.addresses[n]
  {
    if svcs != [] {
      var n := |svcs| - 1;
      assert svcs == svcs[..n] + [svcs[n]];
      FewerDiffer(svcs, n);
      RowsSoFar(svcs[..n], cfg);
      assert svcs[n] in svcs;
      assert ServiceNames(svcs) == ServiceNames(svcs[..n]) + {svcs[n].name};
    }
  }

  lemma FewerDiffer(svcs: seq<Service>, n: nat)
    requires NamesDiffer(svcs) && n < |svcs|
    ensures NamesDiffer(svcs[..n]) && svcs[n].name !in ServiceNames(svcs[..n])
  {
    forall i, j | 0 <= i < j < n ensures svcs[..n][i].name != svcs[..n][j].name { assert svcs[i].name != svcs[j].name; }
  }

  lemma {:induction false} AliasesSoFar(svcs: seq<Service>, cfg: Config)
    requires NamesDiffer(svcs) && forall s :: s in svcs ==> ReadsService(s, cfg)
    ensures Restricts(ServiceAliases(svcs), cfg.aliases, ServiceNames(svcs))
  {
    if svcs != [] {
      var n := |svcs| - 1;
      assert svcs == svcs[..n] + [svcs[n]];
      FewerDiffer(svcs, n);
      AliasesSoFar(svcs[..n], cfg);
      assert svcs[n] in svcs;
      OneMoreOwner(ServiceAliases(svcs[..n]), cfg.aliases, ServiceNames(svcs[..n]), svcs[n].aliases, svcs[n].name);
      assert ServiceNames(svcs) == ServiceNames(svcs[..n]) + {svcs[n].name};
    }
  }

  lemma RowsRead(svcs: seq<Service>, cfg: Config)
    requires ReadsServices(svcs, cfg) && cfg.addresses.Keys == cfg.services.Keys
    ensures ServiceRows(svcs) == cfg.services && ServiceAddresses(svcs) == cfg.addresses
  {
    RowsSoFar(svcs, cfg);
  }

  lemma AliasesRead(svcs: seq<Service>, cfg: Config)
    requires ReadsServices(svcs, cfg) && forall a :: a in cfg.aliases ==> cfg.aliases[a] in cfg.services
    ensures ServiceAliases(svcs) == cfg.aliases
  {
    AliasesSoFar(svcs, cfg);
    AllOwners(ServiceAliases(svcs), cfg.aliases, ServiceNames(svcs));
  }

  lemma {:induction false} ServicesAccepted(db: Db, svcs: seq<Service>, cfg: Config)
    requires db.services == map[] && db.addresses == [] && db.aliases == map[] && db.views == cfg.views && Sound(cfg)
    requires NamesDiffer(svcs) && forall s :: s in svcs ==> ReadsService(s, cfg)
    ensures ServicesPut(db, svcs).Ok?
  {
    if svcs != [] {
      var n := |svcs| - 1;
      assert svcs == svcs[..n] + [svcs[n]];
      FewerDiffer(svcs, n);
      ServicesAccepted(db, svcs[..n], cfg);
      ServicesGive(db, svcs[..n]);
      RowsSoFar(svcs[..n], cfg);
      AliasesSoFar(svcs[..n], cfg);
      assert svcs[n] in svcs;
      ServiceAccepted(ServicesPut(db, svcs[..n]).value, svcs[n], cfg);
    }
  }

  lemma ServiceAccepted(d: Db, svc: Service, cfg: Config)
    requires d.views == cfg.views && svc.name !in d.services && ReadsService(svc, cfg) && Sound(cfg)
    requires forall a :: a in d.aliases ==> a in cfg.aliases && cfg.aliases[a] != svc.name
    ensures ServicePut(d, None, svc).Ok?
  {
    forall a | a in svc.addresses ensures ViewKnown(d, a.view) { assert Known(cfg, a.view); }
  }

  lemma {:induction false} RecordsAccepted(db: Db, rs: seq<Record>)
    requires forall r :: r in rs ==> ViewKnown(db, r.view)
    ensures RecordsPut(db, rs).Ok? && RecordsPut(db, rs).value.views == db.views
  {
    if rs != [] {
      RecordsAccepted(db, rs[..|rs| - 1]);
      assert rs[|rs| - 1] in rs;
    }
  }

  lemma RegistryAccepted(db: Db, input: Input, cfg: Config)
    requires Reads(input, cfg) && Sound(cfg)
    ensures RegistryReplaced(db, input.views, input.services, input.records).Ok?
  {
    var a := Wiped(db);
    ViewsAccepted(a, input.views, cfg);
    ViewsGive(a, input.views);
    var b := ViewsPut(a, input.views).value;
    ServicesAccepted(b, input.services, cfg);
    ServicesGive(b, input.services);
    forall r | r in input.records ensures ViewKnown(b, r.view) {
      assert r in multiset(input.records);
      assert Known(cfg, r.view);
    }
    RecordsAccepted(ServicesPut(b, input.services).value, input.records);
  }

  lemma FewerListsDiffer(ls: seq<ListDef>, n: nat)
    requires ListsDiffer(ls) && n < |ls|
    ensures ListsDiffer(ls[..n]) && ls[n].name !in NamesOf(ls[..n])
  {
    forall i, j | 0 <= i < j < n ensures ls[..n][i].name != ls[..n][j].name { assert ls[i].name != ls[j].name; }
  }

  lemma FewerRulesDiffer(rs: seq<Rule>, n: nat)
    requires RulesDiffer(rs) && n < |rs|
    ensures RulesDiffer(rs[..n]) && forall r :: r in rs[..n] ==> r.domain != rs[n].domain
  {
    forall i, j | 0 <= i < j < n ensures rs[..n][i].domain != rs[..n][j].domain { assert rs[i].domain != rs[j].domain; }
  }

  lemma {:induction false} ListsAccepted(db: Db, before: map<string, ListRow>, ls: seq<ListDef>)
    requires db.lists == before && ListsDiffer(ls)
    ensures ListsApplied(db, before, ls).Ok?
  {
    if ls != [] {
      var n := |ls| - 1;
      FewerListsDiffer(ls, n);
      ListsAccepted(db, before, ls[..n]);
      ListsGive(db, before, ls[..n]);
      NamesAreKeys(ls[..n]);
    }
  }

  lemma {:induction false} RulesAccepted(db: Db, rs: seq<Rule>)
    requires db.rules == map[] && RulesDiffer(rs)
    ensures RulesPut(db, rs).Ok?
    ensures RuleKinds(rs).Keys == Domains(rs)
    ensures forall r :: r in rs ==> RuleKinds(rs)[r.domain] == r.kind
  {
    if rs != [] {
      var n := |rs| - 1;
      assert rs == rs[..n] + [rs[n]];
      FewerRulesDiffer(rs, n);
      RulesAccepted(db, rs[..n]);
      RulesGive(db, rs[..n]);
    }
  }

  lemma {:induction false} DefsRead(ls: seq<ListDef>)
    requires ListsDiffer(ls)
    ensures LastDefs(ls).Keys == NamesOf(ls) && forall l :: l in ls ==> LastDefs(ls)[l.name] == l
  {
    NamesAreKeys(ls);
    if ls != [] {
      var n := |ls| - 1;
      assert ls == ls[..n] + [ls[n]];
      FewerListsDiffer(ls, n);
      DefsRead(ls[..n]);
    }
  }

  lemma BlacklistAccepted(db: Db, b: BlacklistSettings, ls: seq<ListDef>, rs: seq<Rule>)
    requires ListsDiffer(ls)
    requires RulesDiffer(rs)
    ensures BlacklistReplaced(db, b, ls, rs).Ok?
  {
    var start := BlacklistPut(db, b);
    ListsAccepted(start, db.lists, ls);
    RulesAccepted(RulesWiped(ListsPruned(ListsApplied(start, db.lists, ls).value, db.lists, NamesOf(ls))), rs);
  }

  lemma ListsRead(ls: seq<ListDef>, cfg: Config)
    requires ReadsLists(ls, cfg)
    ensures LastDefs(ls) == cfg.lists
  {
    DefsRead(ls);
    forall n | n in cfg.lists ensures LastDefs(ls)[n] == cfg.lists[n] {
      assert n in NamesOf(ls);
      var l :| l in ls && l.name == n;
    }
  }

  lemma RulesRead(rs: seq<Rule>, cfg: Config)
    requires ReadsRules(rs, cfg)
    ensures RuleKinds(rs) == cfg.rules
  {
    RulesAccepted(EMPTY, rs);
    forall d | d in cfg.rules ensures RuleKinds(rs)[d] == cfg.rules[d] {
      assert d in Domains(rs);
      var r :| r in rs && r.domain == d;
    }
  }

  lemma ReadIsTheConfig(input: Input, cfg: Config)
    requires Reads(input, cfg) && Sound(cfg) && cfg.addresses.Keys == cfg.services.Keys
    ensures InputConfig(input) == cfg
  {
    ClaimsRead(input.views, cfg);
    RowsRead(input.services, cfg);
    AliasesRead(input.services, cfg);
    ListsRead(input.lists, cfg);
    RulesRead(input.rules, cfg);
  }

  // A snapshot read from one sound configuration is accepted by every node, whatever it
  // held, and afterwards that node shares exactly that configuration.
  lemma WhatWasReadIsShared(db: Db, input: Input, cfg: Config)
    requires Reads(input, cfg) && Sound(cfg) && cfg.addresses.Keys == cfg.services.Keys
    ensures SnapshotApplied(db, input).Ok? && ConfigOf(SnapshotApplied(db, input).value) == cfg
  {
    RegistryAccepted(db, input, cfg);
    var d := RegistryReplaced(db, input.views, input.services, input.records).value;
    BlacklistAccepted(SettingsPut(d, MergedSettings(d, input.settings)), input.blacklist, input.lists, input.rules);
    ApplyGivesTheSnapshot(db, input);
    ReadIsTheConfig(input, cfg);
  }
}
